/** Shared vocabulary: optional values, and the few JavaScript string and
    number primitives the application relies on (trim, ASCII lower-casing,
    substring search, lastIndexOf, split/join, decimal digits). */
module Common {

  datatype Option<+T> = None | Some(value: T)

  /** JavaScript truthiness of a value that is either null/undefined or a string. */
  predicate Truthy(o: Option<string>) {
    o.Some? && o.value != ""
  }

  /** `s || null`: the empty string becomes null. */
  function OrNull(s: string): (r: Option<string>)
    ensures Truthy(r) <==> s != ""
    ensures r.Some? ==> r.value == s
  {
    if s == "" then None else Some(s)
  }

  /** storage.getItem(k): null when the key is absent. */
  function Get<V>(m: map<string, V>, k: string): (r: Option<V>)
    ensures r.Some? <==> k in m
    ensures r.Some? ==> r.value == m[k]
  {
    if k in m then Some(m[k]) else None
  }

  // ---------------------------------------------------------------------
  // Whitespace and String.prototype.trim
  // ---------------------------------------------------------------------

  /** The characters String.prototype.trim removes: tab, line feed, vertical
      tab, form feed, carriage return, space, no-break space, the Unicode space
      separators U+1680, U+2000-U+200A, U+202F, U+205F and U+3000, the line and
      paragraph separators U+2028 and U+2029, and the byte order mark. */
  predicate IsWhitespace(c: char) {
    if c <= ' ' then c == ' ' || '\t' <= c <= '\r'
    else if c < '\U{00A0}' then false
    else c == '\U{00A0}' || c == '\U{1680}' || '\U{2000}' <= c <= '\U{200A}' || c == '\U{2028}'
         || c == '\U{2029}' || c == '\U{202F}' || c == '\U{205F}' || c == '\U{3000}' || c == '\U{FEFF}'
  }

  predicate AllWhitespace(s: string) {
    forall i :: 0 <= i < |s| ==> IsWhitespace(s[i])
  }

  /** A string with no white space at either end. */
  predicate IsTrimmed(s: string) {
    s == [] || (!IsWhitespace(s[0]) && !IsWhitespace(s[|s| - 1]))
  }

  function TrimStart(s: string): (r: string)
    ensures |r| <= |s|
    ensures r == [] || !IsWhitespace(r[0])
    ensures AllWhitespace(s[..|s| - |r|])
  {
    if s != [] && IsWhitespace(s[0]) then
      var r := TrimStart(s[1..]);
      var n := |s| - |r|;
      assert s[..n] == [s[0]] + s[1..][..n - 1];
      WhitespaceAround([s[0]], s[1..][..n - 1], []);
      r
    else s
  }

  function TrimEnd(s: string): (r: string)
    ensures |r| <= |s|
    ensures r == [] || !IsWhitespace(r[|r| - 1])
    ensures AllWhitespace(s[|r|..])
  {
    if s != [] && IsWhitespace(s[|s| - 1]) then
      var r := TrimEnd(s[..|s| - 1]);
      assert s[|r|..] == s[..|s| - 1][|r|..] + [s[|s| - 1]];
      WhitespaceAround([], s[..|s| - 1][|r|..], [s[|s| - 1]]);
      r
    else s
  }

  lemma WhitespaceAround(a: string, w: string, b: string)
    requires AllWhitespace(a) && AllWhitespace(w) && AllWhitespace(b)
    ensures AllWhitespace(a + w + b)
  {
    var x := a + w + b;
    forall i | 0 <= i < |x| ensures IsWhitespace(x[i]) {
      if i < |a| {
        assert x[i] == a[i];
      } else if i < |a| + |w| {
        assert x[i] == w[i - |a|];
      } else {
        assert x[i] == b[i - |a| - |w|];
      }
    }
  }

  /** TrimStart only cuts a prefix. */
  lemma {:induction false} TrimStartIsSuffix(s: string)
    ensures TrimStart(s) == s[|s| - |TrimStart(s)|..]
    decreases |s|
  {
    if s != [] && IsWhitespace(s[0]) {
      TrimStartIsSuffix(s[1..]);
      assert s[1..][|s| - 1 - |TrimStart(s)|..] == s[|s| - |TrimStart(s)|..];
    }
  }

  /** TrimEnd only cuts a suffix. */
  lemma {:induction false} TrimEndIsPrefix(s: string)
    ensures TrimEnd(s) == s[..|TrimEnd(s)|]
    decreases |s|
  {
    if s != [] && IsWhitespace(s[|s| - 1]) {
      TrimEndIsPrefix(s[..|s| - 1]);
      assert s[..|s| - 1][..|TrimEnd(s)|] == s[..|TrimEnd(s)|];
    }
  }

  /** String.prototype.trim: the longest infix of s with no white space at either
      end, obtained by cutting white space only. */
  function Trim(s: string): (r: string)
    ensures IsTrimmed(r) && |r| <= |s|
  {
    TrimEndIsPrefix(TrimStart(s));
    TrimEnd(TrimStart(s))
  }

  /** Trim cuts white space at the two ends and nothing else: the value is
      the trimmed text padded with white space on either side. */
  lemma TrimCutsWhitespace(s: string) returns (front: string, back: string)
    ensures AllWhitespace(front) && AllWhitespace(back)
    ensures s == front + Trim(s) + back
  {
    var t := TrimStart(s);
    var r := TrimEnd(t);
    front := s[..|s| - |t|];
    back := t[|r|..];
    TrimStartIsSuffix(s);
    TrimEndIsPrefix(t);
    SplitAt(s, |s| - |t|);
    SplitAt(t, |r|);
    AppendAssoc(front, r, back);
  }

  lemma TakeOneMore<T>(xs: seq<T>, ss: seq<T>, j: int)
    requires 0 <= j < |ss|
    ensures xs + ss[..j + 1] == (xs + ss[..j]) + [ss[j]]
  {
    assert ss[..j + 1] == ss[..j] + [ss[j]];
  }

  lemma SplitAt(s: string, n: nat)
    requires n <= |s|
    ensures s == s[..n] + s[n..]
  {
  }

  lemma AppendAssoc(a: string, b: string, c: string)
    ensures a + (b + c) == a + b + c
  {
  }

  /** Trimming only removes characters. */
  lemma TrimKeepsAbsent(s: string, c: char)
    requires c !in s
    ensures c !in Trim(s)
  {
    var t := TrimStart(s);
    TrimStartIsSuffix(s);
    TrimEndIsPrefix(t);
    AbsentFromSlice(s, c, |s| - |t|, |s|);
    AbsentFromSlice(t, c, 0, |TrimEnd(t)|);
  }

  lemma AbsentFromSlice(s: string, c: char, lo: nat, hi: nat)
    requires lo <= hi <= |s| && c !in s
    ensures c !in s[lo..hi]
  {
    forall i | 0 <= i < hi - lo ensures s[lo..hi][i] != c {
      assert s[lo..hi][i] == s[lo + i];
    }
  }

  lemma {:induction false} TrimOfTrimmed(s: string)
    requires IsTrimmed(s)
    ensures Trim(s) == s
  {
    if s != [] {
      assert TrimStart(s) == s;
      assert TrimEnd(s) == s;
    }
  }

  lemma {:induction false} TrimStartSkipsWhitespace(w: string, s: string)
    requires AllWhitespace(w)
    ensures TrimStart(w + s) == TrimStart(s)
    decreases |w|
  {
    if w != [] {
      assert (w + s)[1..] == w[1..] + s;
      TrimStartSkipsWhitespace(w[1..], s);
    } else {
      assert w + s == s;
    }
  }

  lemma {:induction false} TrimEndSkipsWhitespace(s: string, w: string)
    requires AllWhitespace(w)
    ensures TrimEnd(s + w) == TrimEnd(s)
    decreases |w|
  {
    if w != [] {
      assert (s + w)[..|s + w| - 1] == s + w[..|w| - 1];
      TrimEndSkipsWhitespace(s, w[..|w| - 1]);
    } else {
      assert s + w == s;
    }
  }

  // ---------------------------------------------------------------------
  // ASCII lower-casing and substring search
  // ---------------------------------------------------------------------

  function LowerChar(c: char): char {
    if 'A' <= c <= 'Z' then (c as int + 32) as char else c
  }

  /** String.prototype.toLowerCase restricted to the ASCII letters. */
  function Lower(s: string): string {
    seq(|s|, i requires 0 <= i < |s| => LowerChar(s[i]))
  }

  /** String.prototype.includes: t occurs in s as a contiguous infix. */
  predicate Contains(s: string, t: string)
    decreases |s|
  {
    t <= s || (s != [] && Contains(s[1..], t))
  }

  /** t occurs in s starting at position i. */
  predicate OccursAt(s: string, t: string, i: int) {
    0 <= i <= |s| - |t| && s[i..i + |t|] == t
  }

  /** An occurrence at a position makes Contains true. */
  lemma {:induction false} OccursContains(s: string, t: string, i: int)
    requires OccursAt(s, t, i)
    ensures Contains(s, t)
    decreases i
  {
    if i == 0 {
      assert s[..|t|] == t;
    } else {
      assert s[1..][i - 1..i - 1 + |t|] == s[i..i + |t|];
      OccursContains(s[1..], t, i - 1);
    }
  }

  /** Contains names a position where t occurs. */
  lemma {:induction false} ContainsOccurs(s: string, t: string)
    requires Contains(s, t)
    ensures exists i :: OccursAt(s, t, i)
    decreases |s|
  {
    if t <= s {
      assert OccursAt(s, t, 0);
    } else {
      ContainsOccurs(s[1..], t);
      var i :| OccursAt(s[1..], t, i);
      assert s[1..][i..i + |t|] == s[i + 1..i + 1 + |t|];
      assert OccursAt(s, t, i + 1);
    }
  }

  /** Contains agrees with the positional definition of an occurrence. */
  lemma ContainsAt(s: string, t: string)
    ensures Contains(s, t) <==> exists i :: OccursAt(s, t, i)
  {
    if Contains(s, t) {
      ContainsOccurs(s, t);
    }
    if exists i :: OccursAt(s, t, i) {
      var i :| OccursAt(s, t, i);
      OccursContains(s, t, i);
    }
  }

  // ---------------------------------------------------------------------
  // lastIndexOf, split and join on one separator character
  // ---------------------------------------------------------------------

  /** String.prototype.lastIndexOf for a single character: -1 when absent. */
  function LastIndexOf(s: string, c: char): (r: int)
    ensures -1 <= r < |s|
    ensures r >= 0 ==> s[r] == c
    ensures forall k :: r < k < |s| ==> s[k] != c
  {
    if s == [] then -1
    else if s[|s| - 1] == c then |s| - 1
    else LastIndexOf(s[..|s| - 1], c)
  }

  /** String.prototype.split(c): the pieces between occurrences of c (at least one). */
  function Split(s: string, c: char): (r: seq<string>)
    ensures |r| >= 1
    ensures forall k :: 0 <= k < |r| ==> c !in r[k]
  {
    if s == [] then [""]
    else if s[0] == c then [""] + Split(s[1..], c)
    else
      var rest := Split(s[1..], c);
      [[s[0]] + rest[0]] + rest[1..]
  }

  /** Array.prototype.join(c). */
  function Join(ps: seq<string>, c: char): string {
    if ps == [] then ""
    else if |ps| == 1 then ps[0]
    else ps[0] + [c] + Join(ps[1..], c)
  }

  lemma {:induction false} SplitWithoutSeparator(s: string, c: char)
    requires c !in s
    ensures Split(s, c) == [s]
    decreases |s|
  {
    if s != [] {
      SplitWithoutSeparator(s[1..], c);
      assert [s[0]] + s[1..] == s;
    }
  }

  /** Splitting distributes over a separator occurrence: the piece before it
      ends exactly there. */
  lemma {:induction false} SplitAtSeparator(a: string, c: char, b: string)
    requires c !in a
    ensures Split(a + [c] + b, c) == [a] + Split(b, c)
    decreases |a|
  {
    if a == [] {
      assert a + [c] + b == [c] + b;
      assert ([c] + b)[1..] == b;
    } else {
      var s := a + [c] + b;
      assert s[0] == a[0] && s[1..] == a[1..] + [c] + b;
      SplitAtSeparator(a[1..], c, b);
      assert [a[0]] + a[1..] == a;
    }
  }

  /** Split is a left inverse of Join on pieces free of the separator. */
  lemma {:induction false} SplitJoin(ps: seq<string>, c: char)
    requires |ps| >= 1
    requires forall k :: 0 <= k < |ps| ==> c !in ps[k]
    ensures Split(Join(ps, c), c) == ps
    decreases |ps|
  {
    if |ps| == 1 {
      SplitWithoutSeparator(ps[0], c);
    } else {
      SplitJoin(ps[1..], c);
      SplitAtSeparator(ps[0], c, Join(ps[1..], c));
      assert [ps[0]] + ps[1..] == ps;
    }
  }

  /** Join is a left inverse of Split. */
  lemma {:induction false} JoinSplit(s: string, c: char)
    ensures Join(Split(s, c), c) == s
    decreases |s|
  {
    if s != [] {
      JoinSplit(s[1..], c);
      var rest := Split(s[1..], c);
      if s[0] == c {
        assert Split(s, c) == [""] + rest;
      } else {
        var r := Split(s, c);
        assert r == [[s[0]] + rest[0]] + rest[1..];
        if |rest| == 1 {
          assert Join(r, c) == [s[0]] + rest[0];
        } else {
          assert r[1..] == rest[1..];
          assert Join(rest, c) == rest[0] + [c] + Join(rest[1..], c);
        }
      }
    }
  }

  /** Splitting distributes over a separator occurrence. */
  lemma {:induction false} SplitConcat(a: string, c: char, b: string)
    ensures Split(a + [c] + b, c) == Split(a, c) + Split(b, c)
    decreases |a|
  {
    var s := a + [c] + b;
    if a == [] {
      assert s == [c] + b && s[1..] == b;
    } else {
      assert s[0] == a[0] && s[1..] == a[1..] + [c] + b;
      SplitConcat(a[1..], c, b);
      if a[0] != c {
        GlueFirstOfConcat(a[0], Split(a[1..], c), Split(b, c));
      } else {
        assert [""] + (Split(a[1..], c) + Split(b, c)) == [""] + Split(a[1..], c) + Split(b, c);
      }
    }
  }

  /** Gluing a character to the first piece commutes with appending pieces. */
  lemma GlueFirstOfConcat(x: char, ps: seq<string>, qs: seq<string>)
    requires |ps| >= 1
    ensures [[x] + (ps + qs)[0]] + (ps + qs)[1..] == [[x] + ps[0]] + ps[1..] + qs
  {
    assert (ps + qs)[1..] == ps[1..] + qs;
  }

  /** The last piece of a split is the text after a separator that is not followed by another. */
  lemma {:induction false} SplitLastPiece(a: string, c: char, b: string)
    requires c !in b
    ensures |Split(a + [c] + b, c)| >= 2
    ensures Split(a + [c] + b, c)[|Split(a + [c] + b, c)| - 1] == b
    decreases |a|
  {
    var s := a + [c] + b;
    if a == [] {
      assert s == [c] + b && s[1..] == b;
      SplitWithoutSeparator(b, c);
    } else {
      assert s[0] == a[0] && s[1..] == a[1..] + [c] + b;
      SplitLastPiece(a[1..], c, b);
    }
  }

  /** The last piece of a split is the text after the last separator. */
  lemma CutAtLast(value: string, c: char, k: int)
    requires k == LastIndexOf(value, c) && k >= 0
    ensures value == value[..k] + [c] + value[k + 1..]
    ensures c !in value[k + 1..]
  {
    assert value == value[..k] + [c] + value[k + 1..];
    var b := value[k + 1..];
    forall i | 0 <= i < |b| ensures b[i] != c {
      assert b[i] == value[k + 1 + i];
    }
  }

  lemma LastPiece(value: string, c: char)
    ensures var pieces := Split(value, c);
            pieces[|pieces| - 1] == value[LastIndexOf(value, c) + 1..]
  {
    var k := LastIndexOf(value, c);
    if k >= 0 {
      CutAtLast(value, c, k);
      SplitLastPiece(value[..k], c, value[k + 1..]);
    } else {
      assert value[0..] == value;
      SplitWithoutSeparator(value, c);
    }
  }

  /** White space before the first piece only pads that piece. */
  lemma {:induction false} SplitPadFront(w: string, s: string, c: char)
    requires AllWhitespace(w) && c !in w
    ensures var r := Split(w + s, c);
            var q := Split(s, c);
            |r| == |q| && r[0] == w + q[0] && r[1..] == q[1..]
    decreases |w|
  {
    if w != [] {
      assert (w + s)[0] == w[0] && (w + s)[1..] == w[1..] + s;
      SplitPadFront(w[1..], s, c);
      assert [w[0]] + (w[1..] + Split(s, c)[0]) == w + Split(s, c)[0];
    } else {
      assert w + s == s;
    }
  }

  /** White space after the last piece only pads that piece. */
  lemma {:induction false} SplitPadBack(s: string, w: string, c: char)
    requires AllWhitespace(w) && c !in w
    ensures var q := Split(s, c);
            Split(s + w, c) == q[..|q| - 1] + [q[|q| - 1] + w]
    decreases |s|
  {
    if s == [] {
      assert s + w == w;
      SplitWithoutSeparator(w, c);
    } else {
      var t := s[1..];
      assert (s + w)[0] == s[0] && (s + w)[1..] == t + w;
      SplitPadBack(t, w, c);
      var q := Split(t, c);
      if s[0] == c {
        PadLastOfCons("", q, w);
      } else {
        PadLastOfGlued(s[0], q, w);
      }
    }
  }

  /** Padding the last piece commutes with putting a piece in front. */
  lemma PadLastOfCons(h: string, q: seq<string>, w: string)
    requires |q| >= 1
    ensures var p := [h] + q;
            [h] + (q[..|q| - 1] + [q[|q| - 1] + w]) == p[..|p| - 1] + [p[|p| - 1] + w]
  {
    var p := [h] + q;
    assert p[..|p| - 1] == [h] + q[..|q| - 1];
  }

  /** Padding the last piece commutes with gluing a character to the first one. */
  lemma PadLastOfGlued(x: char, q: seq<string>, w: string)
    requires |q| >= 1
    ensures var r := q[..|q| - 1] + [q[|q| - 1] + w];
            var p := [[x] + q[0]] + q[1..];
            [[x] + r[0]] + r[1..] == p[..|p| - 1] + [p[|p| - 1] + w]
  {
    var n := |q|;
    var r := q[..n - 1] + [q[n - 1] + w];
    var p := [[x] + q[0]] + q[1..];
    if n == 1 {
      assert [x] + (q[0] + w) == ([x] + q[0]) + w;
    } else {
      assert r[0] == q[0] && r[1..] == q[1..n - 1] + [q[n - 1] + w];
      assert p[..n - 1] == [[x] + q[0]] + q[1..n - 1];
    }
  }

  /** Trimming ignores white space padded before the text. */
  lemma TrimPadFront(w: string, p: string)
    requires AllWhitespace(w)
    ensures Trim(w + p) == Trim(p)
  {
    TrimStartSkipsWhitespace(w, p);
  }

  /** Trimming ignores white space padded after the text. */
  lemma {:induction false} TrimPadBack(p: string, w: string)
    requires AllWhitespace(w)
    ensures Trim(p + w) == Trim(p)
    decreases |p|
  {
    if p == [] {
      assert p + w == w;
      TrimStartSkipsWhitespace(w, []);
      assert w + [] == w;
    } else if IsWhitespace(p[0]) {
      assert (p + w)[1..] == p[1..] + w;
      TrimPadBack(p[1..], w);
    } else {
      assert TrimStart(p + w) == p + w && TrimStart(p) == p;
      TrimEndSkipsWhitespace(p, w);
    }
  }

  lemma WhitespaceHasNoComma(w: string)
    requires AllWhitespace(w)
    ensures ',' !in w
  {
  }

  // ---------------------------------------------------------------------
  // Decimal digits: template-literal formatting of a nat and parseInt
  // ---------------------------------------------------------------------

  predicate IsDigit(c: char) {
    '0' <= c <= '9'
  }

  predicate AllDigits(s: string) {
    forall i :: 0 <= i < |s| ==> IsDigit(s[i])
  }

  function DigitChar(d: nat): (c: char)
    requires d < 10
    ensures IsDigit(c)
  {
    ('0' as int + d) as char
  }

  function DigitValue(c: char): nat
    requires IsDigit(c)
  {
    c as int - '0' as int
  }

  /** `${n}` for a natural number: its decimal digits, without leading zeros. */
  function NatToString(n: nat): (r: string)
    ensures |r| >= 1 && AllDigits(r)
  {
    if n < 10 then [DigitChar(n)] else NatToString(n / 10) + [DigitChar(n % 10)]
  }

  /** The number a string of decimal digits denotes. */
  function DigitsValue(s: string): nat
    requires AllDigits(s)
  {
    if s == [] then 0 else DigitsValue(s[..|s| - 1]) * 10 + DigitValue(s[|s| - 1])
  }

  lemma {:induction false} NatToStringValue(n: nat)
    ensures DigitsValue(NatToString(n)) == n
    decreases n
  {
    var r := NatToString(n);
    if n < 10 {
      assert r[..0] == [];
    } else {
      NatToStringValue(n / 10);
      assert r[..|r| - 1] == NatToString(n / 10);
    }
  }

  /** The longest prefix of s made of decimal digits. */
  function LeadingDigits(s: string): (r: string)
    ensures r <= s && AllDigits(r)
    ensures |r| < |s| ==> !IsDigit(s[|r|])
  {
    if s != [] && IsDigit(s[0]) then [s[0]] + LeadingDigits(s[1..]) else ""
  }

  /** parseInt(s) on a string that carries no sign and no leading white space:
      the value of its leading decimal digits, or None (NaN) when there are none. */
  function ParseInt(s: string): (r: Option<nat>)
    ensures r.None? <==> (s == [] || !IsDigit(s[0]))
  {
    var d := LeadingDigits(s);
    if d == "" then None else Some(DigitsValue(d))
  }

  lemma {:induction false} LeadingDigitsOfDigits(s: string)
    requires AllDigits(s)
    ensures LeadingDigits(s) == s
    decreases |s|
  {
    if s != [] {
      LeadingDigitsOfDigits(s[1..]);
      assert [s[0]] + s[1..] == s;
    }
  }

  /** parseInt reads back what `${n}` wrote. */
  lemma ParseNatToString(n: nat)
    ensures ParseInt(NatToString(n)) == Some(n)
  {
    LeadingDigitsOfDigits(NatToString(n));
    NatToStringValue(n);
  }
}
