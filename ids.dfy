/** Identifiers and list fields of app.js: the slug id of a new subject
    (app.js:904), the comma-separated dependency fields (app.js:915-917) and the
    "subjectId-index" key of the project being edited (app.js:255, 185, 424). */
module Ids {
  import opened Common

  // ---------------------------------------------------------------------
  // Slug of a subject name:
  //   name.toLowerCase().replace(/[^a-z0-9]+/g, '-').replace(/^-|-$/g, '')
  // ---------------------------------------------------------------------

  predicate IsSlugChar(c: char) {
    'a' <= c <= 'z' || '0' <= c <= '9'
  }

  /** No two adjacent dashes. */
  ghost predicate NoDoubleDash(s: string) {
    forall i, j :: 0 <= i < j < |s| && j == i + 1 ==> !(s[i] == '-' && s[j] == '-')
  }

  /** Only [a-z0-9-], no "--", and no '-' at either end. */
  ghost predicate IsSlug(s: string) {
    && (forall i :: 0 <= i < |s| ==> IsSlugChar(s[i]) || s[i] == '-')
    && NoDoubleDash(s)
    && (s != [] ==> s[0] != '-' && s[|s| - 1] != '-')
  }

  /** Drops the leading run of characters outside [a-z0-9]. */
  function SkipRun(s: string): (r: string)
    ensures |r| <= |s|
    ensures r == [] || IsSlugChar(r[0])
  {
    if s != [] && !IsSlugChar(s[0]) then SkipRun(s[1..]) else s
  }

  /** `.replace(/[^a-z0-9]+/g, '-')`: every maximal run outside [a-z0-9] becomes one '-'. */
  function ReplaceRuns(s: string): string
    decreases |s|
  {
    if s == [] then []
    else if IsSlugChar(s[0]) then [s[0]] + ReplaceRuns(s[1..])
    else "-" + ReplaceRuns(SkipRun(s[1..]))
  }

  /** After the replacement only [a-z0-9-] is left, with no "--"; the first
      character is kept when it is in [a-z0-9] and is '-' otherwise. */
  lemma {:induction false} ReplaceRunsShape(s: string)
    ensures var r := ReplaceRuns(s);
            && (r == [] <==> s == [])
            && (s != [] && IsSlugChar(s[0]) ==> r[0] == s[0])
            && (s != [] && !IsSlugChar(s[0]) ==> r[0] == '-')
            && (forall i :: 0 <= i < |r| ==> IsSlugChar(r[i]) || r[i] == '-')
            && NoDoubleDash(r)
    decreases |s|
  {
    if s != [] {
      var rest := if IsSlugChar(s[0]) then s[1..] else SkipRun(s[1..]);
      ReplaceRunsShape(rest);
      var r, tail := ReplaceRuns(s), ReplaceRuns(rest);
      assert r == [r[0]] + tail;
      assert forall i :: 1 <= i < |r| ==> r[i] == tail[i - 1];
      assert !IsSlugChar(s[0]) ==> tail == [] || IsSlugChar(tail[0]);
    }
  }

  /** `.replace(/^-|-$/g, '')` on a string without "--". */
  function StripDashes(s: string): string {
    var a := if s != [] && s[0] == '-' then s[1..] else s;
    if a != [] && a[|a| - 1] == '-' then a[..|a| - 1] else a
  }

  /** The id saveNewSubject derives from the trimmed name (ASCII lower-casing). */
  function Slugify(name: string): string {
    StripDashes(ReplaceRuns(Lower(name)))
  }

  /** The generated id uses only [a-z0-9-], has no "--" and no '-' at either end. */
  lemma SlugifyIsSlug(name: string)
    ensures IsSlug(Slugify(name))
  {
    ReplaceRunsShape(Lower(name));
    StripDashesIsSlug(ReplaceRuns(Lower(name)));
  }

  /** Cutting one '-' off each end of a string of [a-z0-9-] without "--" leaves a slug. */
  lemma StripDashesIsSlug(r: string)
    requires forall i :: 0 <= i < |r| ==> IsSlugChar(r[i]) || r[i] == '-'
    requires NoDoubleDash(r)
    ensures IsSlug(StripDashes(r))
  {
    var off := if r != [] && r[0] == '-' then 1 else 0;
    var a := r[off..];
    var hi := if a != [] && a[|a| - 1] == '-' then |r| - 1 else |r|;
    var b := r[off..hi];
    assert StripDashes(r) == b by {
      if hi < |r| {
        assert a[..|a| - 1] == r[off..hi];
      }
    }
    SliceKeepsDashShape(r, off, hi);
    if b != [] {
      assert b[0] == r[off] && b[|b| - 1] == r[hi - 1];
      assert off == 1 ==> r[1] != '-';
      assert hi < |r| ==> r[hi - 1] != '-';
    }
  }

  /** A piece of a string of [a-z0-9-] without "--" has the same two properties. */
  lemma SliceKeepsDashShape(r: string, lo: nat, hi: nat)
    requires lo <= hi <= |r|
    requires forall i :: 0 <= i < |r| ==> IsSlugChar(r[i]) || r[i] == '-'
    requires NoDoubleDash(r)
    ensures forall i :: 0 <= i < hi - lo ==> IsSlugChar(r[lo..hi][i]) || r[lo..hi][i] == '-'
    ensures NoDoubleDash(r[lo..hi])
  {
    var b := r[lo..hi];
    forall i, j | 0 <= i < j < |b| && j == i + 1
      ensures !(b[i] == '-' && b[j] == '-')
    {
      assert b[i] == r[i + lo] && b[j] == r[j + lo];
    }
  }

  /** A leading run of [a-z0-9] is copied unchanged. */
  lemma {:induction false} ReplaceRunsSlugPrefix(p: string, s: string)
    requires forall i :: 0 <= i < |p| ==> IsSlugChar(p[i])
    ensures ReplaceRuns(p + s) == p + ReplaceRuns(s)
    decreases |p|
  {
    if p != [] {
      assert (p + s)[1..] == p[1..] + s;
      ReplaceRunsSlugPrefix(p[1..], s);
    } else {
      assert p + s == s;
    }
  }

  /** A single character outside [a-z0-9] before a slug character becomes '-'. */
  lemma ReplaceRunsAtSeparator(c: char, s: string)
    requires !IsSlugChar(c) && s != [] && IsSlugChar(s[0])
    ensures ReplaceRuns([c] + s) == "-" + ReplaceRuns(s)
  {
    assert ([c] + s)[1..] == s;
  }

  lemma ReplaceRunsOfWords(a: string, b: string)
    requires forall i :: 0 <= i < |a| ==> IsSlugChar(a[i])
    requires forall i :: 0 <= i < |b| ==> IsSlugChar(b[i])
    requires b != []
    ensures ReplaceRuns(a + ([' '] + b)) == a + "-" + b
  {
    ReplaceRunsAtSeparator(' ', b);
    ReplaceRunsOfSlug(b);
    ReplaceRunsSlugPrefix(a, [' '] + b);
  }

  /** Two lower-case words separated by a space give the words joined by '-'
      ("category theory" becomes "category-theory"). */
  lemma SlugifyOfWords(a: string, b: string)
    requires forall i :: 0 <= i < |a| ==> IsSlugChar(a[i])
    requires forall i :: 0 <= i < |b| ==> IsSlugChar(b[i])
    requires a != [] && b != []
    ensures Slugify(a + ([' '] + b)) == a + "-" + b
  {
    var name := a + ([' '] + b);
    assert forall i :: 0 <= i < |name| ==> 'a' <= name[i] <= 'z' || '0' <= name[i] <= '9' || name[i] == ' ';
    assert Lower(name) == name;
    ReplaceRunsOfWords(a, b);
    var r := a + "-" + b;
    assert r[0] == a[0] && r[|r| - 1] == b[|b| - 1];
    assert StripDashes(r) == r;
  }

  /** "Category Theory" gives "category-theory". */
  lemma SlugOfCategoryTheory()
    ensures Slugify("Category Theory") == "category-theory"
  {
    var a, b := "category", "theory";
    assert Lower("Category Theory") == a + ([' '] + b);
    ReplaceRunsOfWords(a, b);
    assert "category-theory" == a + "-" + b;
  }

  /** ReplaceRuns leaves alone a string of [a-z0-9-] with single dashes that does
      not end in '-'. */
  lemma {:induction false} ReplaceRunsOfSlug(s: string)
    requires forall i :: 0 <= i < |s| ==> IsSlugChar(s[i]) || s[i] == '-'
    requires NoDoubleDash(s)
    requires s != [] ==> s[|s| - 1] != '-'
    ensures ReplaceRuns(s) == s
    decreases |s|
  {
    if s != [] {
      var t := s[1..];
      assert forall i :: 0 <= i < |t| ==> t[i] == s[i + 1];
      assert NoDoubleDash(t) by {
        forall i, j | 0 <= i < j < |t| && j == i + 1 ensures !(t[i] == '-' && t[j] == '-') {
          assert t[i] == s[i + 1] && t[j] == s[j + 1];
        }
      }
      ReplaceRunsOfSlug(t);
      if !IsSlugChar(s[0]) {
        assert |s| >= 2 && IsSlugChar(s[1]);
        assert SkipRun(t) == t;
      }
      assert ReplaceRuns(s) == [s[0]] + t;
    }
  }

  /** A slug is its own slug, so Slugify is idempotent. */
  lemma SlugifyOfSlug(s: string)
    requires IsSlug(s)
    ensures Slugify(s) == s
  {
    LowerOfSlug(s);
    ReplaceRunsOfSlug(s);
  }

  lemma LowerOfSlug(s: string)
    requires forall i :: 0 <= i < |s| ==> IsSlugChar(s[i]) || s[i] == '-'
    ensures Lower(s) == s
  {
    forall i | 0 <= i < |s| ensures Lower(s)[i] == s[i] {
      assert LowerChar(s[i]) == s[i];
    }
  }

  lemma SlugifyIdempotent(name: string)
    ensures Slugify(Slugify(name)) == Slugify(name)
  {
    SlugifyIsSlug(name);
    SlugifyOfSlug(Slugify(name));
  }

  // ---------------------------------------------------------------------
  // Dependency fields: str ? str.split(',').map(s => s.trim()).filter(s => s) : []
  // ---------------------------------------------------------------------

  /** `.map(s => s.trim())`. */
  function TrimAll(ps: seq<string>): (r: seq<string>)
    ensures |r| == |ps|
  {
    if ps == [] then [] else [Trim(ps[0])] + TrimAll(ps[1..])
  }

  lemma {:induction false} TrimAllAt(ps: seq<string>, k: int)
    requires 0 <= k < |ps|
    ensures TrimAll(ps)[k] == Trim(ps[k])
    decreases |ps|
  {
    var t := TrimAll(ps);
    assert t == [Trim(ps[0])] + TrimAll(ps[1..]);
    if k > 0 {
      TrimAllAt(ps[1..], k - 1);
      assert t[k] == TrimAll(ps[1..])[k - 1];
    }
  }

  /** Pieces that trim alike give the same trimmed list. */
  lemma {:induction false} TrimAllPointwise(ps: seq<string>, qs: seq<string>)
    requires |ps| == |qs|
    requires forall k :: 0 <= k < |ps| ==> Trim(ps[k]) == Trim(qs[k])
    ensures TrimAll(ps) == TrimAll(qs)
    decreases |ps|
  {
    if ps != [] {
      assert Trim(ps[0]) == Trim(qs[0]);
      TrimAllPointwise(ps[1..], qs[1..]);
    }
  }

  /** `.filter(s => s)`: the non-empty pieces, in order. */
  function NonEmpty(ps: seq<string>): (r: seq<string>)
    ensures forall k :: 0 <= k < |r| ==> r[k] != ""
  {
    if ps == [] then []
    else if ps[0] == "" then NonEmpty(ps[1..])
    else [ps[0]] + NonEmpty(ps[1..])
  }

  /** Every piece `.filter(s => s)` keeps comes from its input. */
  lemma {:induction false} NonEmptyFrom(ps: seq<string>)
    ensures forall k :: 0 <= k < |NonEmpty(ps)| ==> NonEmpty(ps)[k] in ps
  {
    if ps != [] {
      NonEmptyFrom(ps[1..]);
    }
  }

  /** A dependency field as saveNewSubject reads it (the form value trimmed, then
      split on ',', each piece trimmed, empty pieces dropped). */
  function ParseIdList(field: string): seq<string> {
    var str := Trim(field);
    if str == "" then [] else NonEmpty(TrimAll(Split(str, ',')))
  }

  /** No parsed id is empty, padded with white space or holds a comma, and a
      blank field gives no ids. */
  lemma ParseIdListItems(field: string)
    ensures var r := ParseIdList(field);
            && (forall k :: 0 <= k < |r| ==> r[k] != "" && IsTrimmed(r[k]) && ',' !in r[k])
            && (Trim(field) == "" ==> r == [])
  {
    var str := Trim(field);
    if str != "" {
      var pieces := Split(str, ',');
      var t := TrimAll(pieces);
      forall k | 0 <= k < |t| ensures ',' !in t[k] && IsTrimmed(t[k]) {
        TrimAllAt(pieces, k);
        TrimKeepsAbsent(pieces[k], ',');
      }
      NonEmptyFrom(t);
    }
  }

  /** An id as a list field can carry it. */
  predicate IsListItem(s: string) {
    s != "" && IsTrimmed(s) && ',' !in s
  }

  lemma {:induction false} NonEmptyOfNonEmpty(ps: seq<string>)
    requires forall k :: 0 <= k < |ps| ==> ps[k] != ""
    ensures NonEmpty(ps) == ps
  {
    if ps != [] {
      NonEmptyOfNonEmpty(ps[1..]);
    }
  }

  /** Reading back a list written with ',' separators gives the list. */
  lemma ParseIdListOfJoin(ids: seq<string>)
    requires forall k :: 0 <= k < |ids| ==> IsListItem(ids[k])
    ensures ParseIdList(Join(ids, ',')) == ids
  {
    if ids != [] {
      var s := Join(ids, ',');
      ParseIdListPieces(s);
      assert Split(s, ',') == ids by {
        SplitJoin(ids, ',');
      }
      assert TrimAll(ids) == ids by {
        TrimAllOfTrimmed(ids);
      }
      NonEmptyOfNonEmpty(ids);
    }
  }

  lemma {:induction false} TrimAllOfTrimmed(ps: seq<string>)
    requires forall k :: 0 <= k < |ps| ==> IsTrimmed(ps[k])
    ensures TrimAll(ps) == ps
    decreases |ps|
  {
    if ps != [] {
      TrimOfTrimmed(ps[0]);
      TrimAllOfTrimmed(ps[1..]);
      assert ps == [ps[0]] + ps[1..];
    }
  }

  // Splitting, trimming and dropping empty pieces distribute over a
  // separator, so a parsed field can be computed piece by piece.

  lemma {:induction false} TrimAllConcat(a: seq<string>, b: seq<string>)
    ensures TrimAll(a + b) == TrimAll(a) + TrimAll(b)
    decreases |a|
  {
    if a != [] {
      assert (a + b)[0] == a[0] && (a + b)[1..] == a[1..] + b;
      TrimAllConcat(a[1..], b);
    } else {
      assert a + b == b;
    }
  }

  lemma {:induction false} NonEmptyConcat(a: seq<string>, b: seq<string>)
    ensures NonEmpty(a + b) == NonEmpty(a) + NonEmpty(b)
    decreases |a|
  {
    if a != [] {
      assert (a + b)[0] == a[0] && (a + b)[1..] == a[1..] + b;
      NonEmptyConcat(a[1..], b);
    } else {
      assert a + b == b;
    }
  }

  /** Splitting a padded value gives the pieces of the value, padded. */
  lemma TrimAllPadded(w1: string, str: string, w2: string)
    requires AllWhitespace(w1) && AllWhitespace(w2)
    ensures TrimAll(Split(w1 + str + w2, ',')) == TrimAll(Split(str, ','))
  {
    WhitespaceHasNoComma(w1);
    WhitespaceHasNoComma(w2);
    var m := str + w2;
    assert w1 + str + w2 == w1 + m;
    SplitPadFront(w1, m, ',');
    SplitPadBack(str, w2, ',');
    var r := Split(w1 + m, ',');
    var sm := Split(m, ',');
    var q := Split(str, ',');
    var last := |q| - 1;
    assert sm == q[..last] + [q[last] + w2];
    forall k | 0 <= k < |r| ensures Trim(r[k]) == Trim(q[k]) {
      if k == 0 && last == 0 {
        assert r[0] == w1 + (q[0] + w2);
        TrimPadFront(w1, q[0] + w2);
        TrimPadBack(q[0], w2);
      } else if k == 0 {
        assert r[0] == w1 + q[0];
        TrimPadFront(w1, q[0]);
      } else if k == last {
        assert r[k] == sm[k] == q[k] + w2;
        TrimPadBack(q[k], w2);
      } else {
        assert r[k] == sm[k] == q[k];
      }
    }
    TrimAllPointwise(r, q);
  }

  /** Trimming the whole value first changes no trimmed piece. */
  lemma TrimAllOfTrim(field: string)
    ensures TrimAll(Split(field, ',')) == TrimAll(Split(Trim(field), ','))
  {
    var front, back := TrimCutsWhitespace(field);
    TrimAllPadded(front, Trim(field), back);
  }

  /** The field parser gives the same items whether or not the whole value is
      trimmed first. */
  lemma ParseIdListPieces(field: string)
    ensures ParseIdList(field) == NonEmpty(TrimAll(Split(field, ',')))
  {
    var str := Trim(field);
    var t := TrimAll(Split(str, ','));
    assert TrimAll(Split(field, ',')) == t by {
      TrimAllOfTrim(field);
    }
    if str == "" {
      assert Split(str, ',') == [""];
      BlankHasNoItems();
    }
  }

  /** Parsing distributes over a comma: the items of a field are the items
      before the comma followed by the items after it. */
  lemma ParseIdListAppend(a: string, b: string)
    ensures ParseIdList(a + [','] + b) == ParseIdList(a) + ParseIdList(b)
  {
    var pa, pb := Split(a, ','), Split(b, ',');
    assert Split(a + [','] + b, ',') == pa + pb by {
      SplitConcat(a, ',', b);
    }
    assert TrimAll(pa + pb) == TrimAll(pa) + TrimAll(pb) by {
      TrimAllConcat(pa, pb);
    }
    NonEmptyConcat(TrimAll(pa), TrimAll(pb));
    ParseIdListPieces(a + [','] + b);
    ParseIdListPieces(a);
    ParseIdListPieces(b);
  }

  /** A blank value has one piece, and it is empty. */
  lemma BlankHasNoItems()
    ensures NonEmpty(TrimAll([""])) == []
  {
    TrimAllSingle("");
    TrimOfTrimmed("");
    NonEmptyOfBlank();
  }

  lemma TrimAllSingle(x: string)
    ensures TrimAll([x]) == [Trim(x)]
  {
    assert [x][1..] == [];
  }

  lemma NonEmptyOfBlank()
    ensures NonEmpty([""]) == []
  {
  }

  // ---------------------------------------------------------------------
  // Project keys: `${subjectId}-${projectIndex}`, read back with
  // parseInt(key.split('-').pop())
  // ---------------------------------------------------------------------

  function ProjectKey(subjectId: string, index: nat): string {
    subjectId + "-" + NatToString(index)
  }

  /** parseInt(key.split('-').pop()); None stands for NaN. */
  function ParseProjectIndex(key: string): Option<nat> {
    var pieces := Split(key, '-');
    ParseInt(pieces[|pieces| - 1])
  }

  /** The key round trip holds even when the subject id itself contains dashes. */
  lemma ProjectKeyRoundTrip(subjectId: string, index: nat)
    ensures ParseProjectIndex(ProjectKey(subjectId, index)) == Some(index)
  {
    var d := NatToString(index);
    assert '-' !in d by {
      assert forall i :: 0 <= i < |d| ==> IsDigit(d[i]);
    }
    assert ProjectKey(subjectId, index) == subjectId + ['-'] + d;
    SplitLastPiece(subjectId, '-', d);
    ParseNatToString(index);
  }

  /** The key 'new' (a project not saved yet) has no index: parseInt gives NaN. */
  lemma NewKeyHasNoIndex()
    ensures ParseProjectIndex("new") == None
  {
    SplitWithoutSeparator("new", '-');
  }

  /** `${subjectId}-project-${Date.now()}`, with the clock reading as a parameter. */
  function NewProjectId(subjectId: string, now: nat): string {
    subjectId + "-project-" + NatToString(now)
  }
}
