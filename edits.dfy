/** The edits app.js makes to the tier map in place, as functions from the old
    map to the new one: replacing a tier, replacing one subject, appending a
    subject to a tier (creating the tier when it is missing), and removing a
    subject (dropping its tier when that leaves a custom tier empty). */
module Edits {
  import opened Common
  import opened Model
  import opened Utils

  // ---------------------------------------------------------------------
  // Replacing a tier or a subject
  // ---------------------------------------------------------------------

  /** The t-th tier takes a new value under the same name. */
  function SetTier(tiers: TierMap, t: int, tier: Tier): (r: TierMap)
    requires 0 <= t < |tiers|
    ensures |r| == |tiers|
    ensures r[t] == (tiers[t].0, tier)
    ensures forall k :: 0 <= k < |tiers| && k != t ==> r[k] == tiers[k]
  {
    var r := tiers[t := (tiers[t].0, tier)];
    assert forall k :: 0 <= k < |r| ==> r[k].0 == tiers[k].0;
    r
  }

  /** The subject at (t, j) is replaced, as an assignment to a field of the object
      findSubject returned does. */
  function SetSubjectAt(tiers: TierMap, t: int, j: int, s: Subject): (r: TierMap)
    requires ValidLoc(tiers, t, j)
    ensures |r| == |tiers|
    ensures forall k :: 0 <= k < |tiers| ==> r[k].0 == tiers[k].0
    ensures forall k :: 0 <= k < |tiers| ==> |r[k].1.subjects| == |tiers[k].1.subjects|
    ensures forall k :: 0 <= k < |tiers| ==>
              r[k].1.category == tiers[k].1.category && r[k].1.order == tiers[k].1.order
    ensures SubjectAt(r, t, j) == s
    ensures forall u, k :: ValidLoc(tiers, u, k) && (u != t || k != j) ==>
              SubjectAt(r, u, k) == SubjectAt(tiers, u, k)
  {
    var tier := tiers[t].1;
    SetTier(tiers, t, tier.(subjects := tier.subjects[j := s]))
  }

  /** `after` is `before` with at most the subject at (t, j) replaced: the same
      tiers under the same names, categories, orders and list lengths, and every
      other subject where it was. */
  ghost predicate OnlySubjectReplaced(before: TierMap, after: TierMap, t: int, j: int) {
    && |after| == |before|
    && (forall k :: 0 <= k < |before| ==>
          && after[k].0 == before[k].0
          && after[k].1.category == before[k].1.category && after[k].1.order == before[k].1.order
          && |after[k].1.subjects| == |before[k].1.subjects|)
    && (forall u, k :: ValidLoc(before, u, k) && (u != t || k != j) ==>
          ValidLoc(after, u, k) && SubjectAt(after, u, k) == SubjectAt(before, u, k))
  }

  lemma SetSubjectAtOnly(tiers: TierMap, t: int, j: int, s: Subject)
    requires ValidLoc(tiers, t, j)
    ensures OnlySubjectReplaced(tiers, SetSubjectAt(tiers, t, j, s), t, j)
  {
  }

  /** Editing the subject findSubject finds, keeping its id, leaves it the subject
      findSubject finds, now with the new value. */
  lemma SetFoundSubject(tiers: TierMap, id: string, s: Subject)
    requires Locate(tiers, id).Some?
    requires s.id == id
    ensures var p := Locate(tiers, id).value;
            && Locate(SetSubjectAt(tiers, p.0, p.1, s), id) == Some(p)
            && Found(SetSubjectAt(tiers, p.0, p.1, s), id) == Some(s)
  {
    var p := Locate(tiers, id).value;
    var r := SetSubjectAt(tiers, p.0, p.1, s);
    assert forall u, k :: ValidLoc(r, u, k) <==> ValidLoc(tiers, u, k);
    assert IsFirstMatch(r, id, p.0, p.1);
    var q := Locate(r, id).value;
    FirstMatchUnique(r, id, p.0, p.1, q.0, q.1);
  }

  /** Under unique ids, the edit keeps ids unique when it keeps the id. */
  lemma SetSubjectKeepsUniqueIds(tiers: TierMap, t: int, j: int, s: Subject)
    requires UniqueIds(tiers)
    requires ValidLoc(tiers, t, j) && s.id == SubjectAt(tiers, t, j).id
    ensures UniqueIds(SetSubjectAt(tiers, t, j, s))
  {
    var r := SetSubjectAt(tiers, t, j, s);
    forall u, k, v, l | ValidLoc(r, u, k) && ValidLoc(r, v, l) && SubjectAt(r, u, k).id == SubjectAt(r, v, l).id
      ensures u == v && k == l
    {
      UniqueIdsAt(tiers, u, k, v, l);
    }
    UniqueAtIds(r);
  }

  // ---------------------------------------------------------------------
  // Appending a subject: subjects[category].subjects.push(newSubject)
  // ---------------------------------------------------------------------

  /** The tier a missing category gets: `{category: 'custom', subjects: []}`. */
  const NewTier: Tier := Tier("custom", None, [])

  /** Appends s to the tier named name, first creating that tier (at the end of
      the map, with category 'custom' and no order) when there is none. */
  function AppendSubject(tiers: TierMap, name: string, s: Subject): (r: TierMap)
    ensures TierIndex(tiers, name) == -1 ==> r == tiers + [(name, NewTier.(subjects := [s]))]
    ensures TierIndex(tiers, name) >= 0 ==>
              var t := TierIndex(tiers, name);
              r == SetTier(tiers, t, tiers[t].1.(subjects := tiers[t].1.subjects + [s]))
  {
    var t := TierIndex(tiers, name);
    if t == -1 then
      var r := tiers + [(name, NewTier.(subjects := [s]))];
      assert DistinctNames(r);
      r
    else
      var tier := tiers[t].1;
      SetTier(tiers, t, tier.(subjects := tier.subjects + [s]))
  }

  /** After the append, the tier named name exists, keeps its category and order
      (or is the new custom tier), and ends with s; every subject that was in the
      map is still at its position, and nothing else was added. */
  lemma AppendSubjectPlacement(tiers: TierMap, name: string, s: Subject)
    ensures var r := AppendSubject(tiers, name, s);
            var t := TierIndex(r, name);
            && t >= 0
            && |r[t].1.subjects| >= 1
            && r[t].1.subjects[|r[t].1.subjects| - 1] == s
            && (TierIndex(tiers, name) >= 0 ==>
                  && t == TierIndex(tiers, name) && |r| == |tiers|
                  && r[t].1.category == tiers[t].1.category && r[t].1.order == tiers[t].1.order
                  && |r[t].1.subjects| == |tiers[t].1.subjects| + 1)
            && (TierIndex(tiers, name) == -1 ==>
                  t == |tiers| && |r| == |tiers| + 1 && r[t].1 == Tier("custom", None, [s]))
            && (forall k :: 0 <= k < |tiers| && k != t ==> r[k] == tiers[k])
            && (forall u, k :: ValidLoc(tiers, u, k) ==> ValidLoc(r, u, k) && SubjectAt(r, u, k) == SubjectAt(tiers, u, k))
  {
    var r := AppendSubject(tiers, name, s);
    if TierIndex(tiers, name) == -1 {
      assert r[|tiers|].0 == name;
    } else {
      assert r[TierIndex(tiers, name)].0 == name;
    }
  }

  /** A subject whose id was not in the map is found after it is appended. */
  lemma AppendSubjectFound(tiers: TierMap, name: string, s: Subject)
    requires !HasId(tiers, s.id)
    ensures HasId(AppendSubject(tiers, name, s), s.id)
    ensures Found(AppendSubject(tiers, name, s), s.id) == Some(s)
  {
    var r := AppendSubject(tiers, name, s);
    AppendSubjectPlacement(tiers, name, s);
    var t := TierIndex(r, name);
    var j := |r[t].1.subjects| - 1;
    assert ValidLoc(r, t, j) && SubjectAt(r, t, j) == s;
    forall u, k | ValidLoc(r, u, k) && (u != t || k != j)
      ensures SubjectAt(r, u, k).id != s.id
    {
      assert ValidLoc(tiers, u, k);
    }
    assert IsFirstMatch(r, s.id, t, j);
    var q := Locate(r, s.id).value;
    FirstMatchUnique(r, s.id, t, j, q.0, q.1);
  }

  /** Appending a subject with a fresh id keeps ids unique. */
  lemma AppendSubjectKeepsUniqueIds(tiers: TierMap, name: string, s: Subject)
    requires UniqueIds(tiers) && !HasId(tiers, s.id)
    ensures UniqueIds(AppendSubject(tiers, name, s))
  {
    var r := AppendSubject(tiers, name, s);
    AppendSubjectPlacement(tiers, name, s);
    var t := TierIndex(r, name);
    var j := |r[t].1.subjects| - 1;
    forall u, k | ValidLoc(r, u, k) && (u != t || k != j)
      ensures ValidLoc(tiers, u, k) && SubjectAt(r, u, k) == SubjectAt(tiers, u, k)
      ensures SubjectAt(r, u, k).id != s.id
    {
    }
    forall u, k, v, l | ValidLoc(r, u, k) && ValidLoc(r, v, l) && SubjectAt(r, u, k).id == SubjectAt(r, v, l).id
      ensures u == v && k == l
    {
      if (u != t || k != j) && (v != t || l != j) {
        UniqueIdsAt(tiers, u, k, v, l);
      }
    }
    UniqueAtIds(r);
  }

  // ---------------------------------------------------------------------
  // Removing a subject: tierData.subjects.splice(index, 1), then
  // `delete subjects[tierName]` when the tier is now empty and custom
  // ---------------------------------------------------------------------

  /** Removing the subject at (t, j) empties a custom tier, which is then dropped. */
  predicate Prunes(tiers: seq<(string, Tier)>, t: int, j: int)
    requires ValidLoc(tiers, t, j)
  {
    |tiers[t].1.subjects| == 1 && IsCustomTier(tiers[t].1)
  }

  function RemoveSubjectAt(tiers: TierMap, t: int, j: int): (r: TierMap)
    requires ValidLoc(tiers, t, j)
    ensures Prunes(tiers, t, j) ==> r == tiers[..t] + tiers[t + 1..]
    ensures !Prunes(tiers, t, j) ==>
              var ss := tiers[t].1.subjects;
              r == SetTier(tiers, t, tiers[t].1.(subjects := ss[..j] + ss[j + 1..]))
  {
    var tier := tiers[t].1;
    var rest := tier.subjects[..j] + tier.subjects[j + 1..];
    if rest == [] && IsCustomTier(tier) then
      var r := tiers[..t] + tiers[t + 1..];
      assert forall k :: 0 <= k < |r| ==> r[k] == tiers[if k < t then k else k + 1];
      r
    else
      SetTier(tiers, t, tier.(subjects := rest))
  }

  /** Where an entry of the map after the removal came from. */
  function OldTier(tiers: seq<(string, Tier)>, t: int, j: int, u: int): int
    requires ValidLoc(tiers, t, j)
  {
    if Prunes(tiers, t, j) && u >= t then u + 1 else u
  }

  function OldIndex(tiers: seq<(string, Tier)>, t: int, j: int, u: int, k: int): int
    requires ValidLoc(tiers, t, j)
  {
    if !Prunes(tiers, t, j) && u == t && k >= j then k + 1 else k
  }

  /** Every subject of the map after the removal sits at a position of the old map
      other than (t, j); the tier keeps its name, category and order. */
  lemma RemoveSubjectFrom(tiers: TierMap, t: int, j: int, u: int, k: int)
    requires ValidLoc(tiers, t, j)
    requires ValidLoc(RemoveSubjectAt(tiers, t, j), u, k)
    ensures var r := RemoveSubjectAt(tiers, t, j);
            var u2, k2 := OldTier(tiers, t, j, u), OldIndex(tiers, t, j, u, k);
            && ValidLoc(tiers, u2, k2) && (u2 != t || k2 != j)
            && SubjectAt(r, u, k) == SubjectAt(tiers, u2, k2)
            && r[u].0 == tiers[u2].0
  {
    var r := RemoveSubjectAt(tiers, t, j);
    var tier := tiers[t].1;
    var rest := tier.subjects[..j] + tier.subjects[j + 1..];
    if Prunes(tiers, t, j) {
      assert r[u] == tiers[OldTier(tiers, t, j, u)];
    } else if u == t {
      assert r[u] == (tiers[t].0, tier.(subjects := rest));
      assert rest[k] == tier.subjects[OldIndex(tiers, t, j, u, k)];
    } else {
      assert r[u] == tiers[u];
    }
  }

  /** Every subject of the old map other than the one at (t, j) is still in the
      map, at the position OldTier/OldIndex map back to it. */
  lemma RemoveSubjectKeeps(tiers: TierMap, t: int, j: int, u: int, k: int)
    requires ValidLoc(tiers, t, j) && ValidLoc(tiers, u, k) && (u != t || k != j)
    ensures var r := RemoveSubjectAt(tiers, t, j);
            var u1 := if Prunes(tiers, t, j) && u > t then u - 1 else u;
            var k1 := if u == t && k > j then k - 1 else k;
            && ValidLoc(r, u1, k1)
            && OldTier(tiers, t, j, u1) == u && OldIndex(tiers, t, j, u1, k1) == k
            && SubjectAt(r, u1, k1) == SubjectAt(tiers, u, k)
  {
    var r := RemoveSubjectAt(tiers, t, j);
    var ss := tiers[t].1.subjects;
    if Prunes(tiers, t, j) {
      var u1 := if u > t then u - 1 else u;
      assert r[u1] == tiers[u];
    } else if u == t {
      var rest := ss[..j] + ss[j + 1..];
      var k1 := if k > j then k - 1 else k;
      assert r[u] == (tiers[t].0, tiers[t].1.(subjects := rest));
      assert rest[k1] == ss[k];
    } else {
      assert r[u] == tiers[u];
    }
  }

  /** The tier that held the subject is gone exactly when it is now empty and is a
      custom tier (category 'custom' or order at least 999); every other tier is
      still there, unchanged. */
  lemma RemoveSubjectTiers(tiers: TierMap, t: int, j: int)
    requires ValidLoc(tiers, t, j)
    ensures var r := RemoveSubjectAt(tiers, t, j);
            && (TierIndex(r, tiers[t].0) == -1 <==>
                  |tiers[t].1.subjects| - 1 == 0 && (tiers[t].1.category == "custom" ||
                                                     (tiers[t].1.order.Some? && tiers[t].1.order.value >= 999)))
            && (forall k :: 0 <= k < |tiers| && k != t ==> tiers[k] in r)
  {
    var r := RemoveSubjectAt(tiers, t, j);
    var name := tiers[t].0;
    if Prunes(tiers, t, j) {
      forall k | 0 <= k < |r| ensures r[k].0 != name {
        assert r[k] == tiers[if k < t then k else k + 1];
      }
      forall k | 0 <= k < |tiers| && k != t ensures tiers[k] in r {
        assert tiers[k] == r[if k < t then k else k - 1];
      }
    } else {
      assert r[t].0 == name;
      forall k | 0 <= k < |tiers| && k != t ensures tiers[k] in r {
        assert tiers[k] == r[k];
      }
    }
  }

  /** With unique ids, the removed subject's id is no longer in the map, and the
      ids stay unique. */
  lemma RemoveSubjectDropsId(tiers: TierMap, t: int, j: int)
    requires ValidLoc(tiers, t, j) && UniqueIds(tiers)
    ensures !HasId(RemoveSubjectAt(tiers, t, j), SubjectAt(tiers, t, j).id)
    ensures UniqueIds(RemoveSubjectAt(tiers, t, j))
  {
    var r := RemoveSubjectAt(tiers, t, j);
    var id := SubjectAt(tiers, t, j).id;
    forall u, k | ValidLoc(r, u, k) ensures SubjectAt(r, u, k).id != id {
      RemoveSubjectFrom(tiers, t, j, u, k);
      var u2, k2 := OldTier(tiers, t, j, u), OldIndex(tiers, t, j, u, k);
      if SubjectAt(r, u, k).id == id {
        UniqueIdsAt(tiers, u2, k2, t, j);
      }
    }
    forall u, k, v, l | ValidLoc(r, u, k) && ValidLoc(r, v, l) && SubjectAt(r, u, k).id == SubjectAt(r, v, l).id
      ensures u == v && k == l
    {
      RemoveSubjectFrom(tiers, t, j, u, k);
      RemoveSubjectFrom(tiers, t, j, v, l);
      UniqueIdsAt(tiers, OldTier(tiers, t, j, u), OldIndex(tiers, t, j, u, k),
                  OldTier(tiers, t, j, v), OldIndex(tiers, t, j, v, l));
    }
    UniqueAtIds(r);
  }

  // ---------------------------------------------------------------------
  // Array.prototype.splice(start, 1)
  // ---------------------------------------------------------------------

  /** The index splice(start, 1) removes from a list of length n: a negative start
      counts from the end, and NaN (None) counts as 0. */
  function SpliceStart(n: nat, start: Option<int>): (i: nat)
    ensures i <= n
  {
    var s := if start.Some? then start.value else 0;
    if s < 0 then (if n + s < 0 then 0 else n + s) else (if s > n then n else s)
  }

  /** xs.splice(start, 1): removes the element at SpliceStart, if there is one. */
  function SpliceOne<T>(xs: seq<T>, start: Option<int>): (r: seq<T>)
    ensures var i := SpliceStart(|xs|, start);
            && (i < |xs| ==> |r| == |xs| - 1 && r[..i] == xs[..i] && r[i..] == xs[i + 1..])
            && (i == |xs| ==> r == xs)
  {
    var i := SpliceStart(|xs|, start);
    if i < |xs| then xs[..i] + xs[i + 1..] else xs
  }

  /** A valid index removes exactly that element; everything before it stays in
      place and everything after it moves down by one. */
  lemma SpliceOneAt<T>(xs: seq<T>, i: nat)
    requires i < |xs|
    ensures |SpliceOne(xs, Some(i))| == |xs| - 1
    ensures forall k :: 0 <= k < |xs| - 1 ==> SpliceOne(xs, Some(i))[k] == xs[if k < i then k else k + 1]
    ensures multiset(SpliceOne(xs, Some(i))) + multiset{xs[i]} == multiset(xs)
  {
    var r := SpliceOne(xs, Some(i));
    assert xs == xs[..i] + [xs[i]] + xs[i + 1..];
    assert r == xs[..i] + xs[i + 1..];
  }
}
