/** Lookups over the tier map (js/utils.js). Each source function is a loop over
    `Object.values(subjects)`; each is a method here with that loop, proved
    against a specification function. The tier map is passed by value, so no
    lookup can change it. */
module Utils {
  import opened Common
  import opened Model

  // ---------------------------------------------------------------------
  // Specification: the first subject with an id, in tier order
  // ---------------------------------------------------------------------

  /** Array.prototype.findIndex(s => s.id === id). */
  function IndexOfId(ss: seq<Subject>, id: string): (r: int)
    ensures -1 <= r < |ss|
    ensures r >= 0 ==> ss[r].id == id && forall k :: 0 <= k < r ==> ss[k].id != id
    ensures r == -1 <==> forall k :: 0 <= k < |ss| ==> ss[k].id != id
  {
    if ss == [] then -1
    else if ss[0].id == id then 0
    else
      var k := IndexOfId(ss[1..], id);
      if k < 0 then -1 else k + 1
  }

  /** (t, j) holds the id, and no position before it in iteration order does. */
  ghost predicate IsFirstMatch(tiers: seq<(string, Tier)>, id: string, t: int, j: int) {
    && ValidLoc(tiers, t, j)
    && SubjectAt(tiers, t, j).id == id
    && (forall u, k :: ValidLoc(tiers, u, k) && u < t ==> SubjectAt(tiers, u, k).id != id)
    && (forall k :: 0 <= k < j ==> SubjectAt(tiers, t, k).id != id)
  }

  lemma FirstMatchUnique(tiers: seq<(string, Tier)>, id: string, t: int, j: int, u: int, k: int)
    requires IsFirstMatch(tiers, id, t, j) && IsFirstMatch(tiers, id, u, k)
    ensures t == u && j == k
  {
  }

  /** The position findSubjectAndTier reports: the first match in tier order. */
  function Locate(tiers: seq<(string, Tier)>, id: string): (r: Option<(nat, nat)>)
    ensures r.None? <==> !HasId(tiers, id)
    ensures r.Some? ==> IsFirstMatch(tiers, id, r.value.0, r.value.1)
    decreases |tiers|
  {
    if tiers == [] then None
    else
      var k := IndexOfId(tiers[0].1.subjects, id);
      if k >= 0 then assert ValidLoc(tiers, 0, k); Some((0, k))
      else
        var rest := Locate(tiers[1..], id);
        assert forall u, j :: ValidLoc(tiers[1..], u, j) ==> SubjectAt(tiers[1..], u, j) == SubjectAt(tiers, u + 1, j);
        assert forall u, j :: ValidLoc(tiers, u, j) && u > 0 ==> ValidLoc(tiers[1..], u - 1, j);
        match rest
        case None => None
        case Some(p) =>
          var t := p.0 + 1;
          assert forall k :: 0 <= k < p.1 ==> SubjectAt(tiers[1..], p.0, k) == SubjectAt(tiers, t, k);
          Some((t, p.1))
  }

  /** The subject findSubject returns (null is None). */
  function Found(tiers: seq<(string, Tier)>, id: string): (r: Option<Subject>)
    ensures r.None? <==> !HasId(tiers, id)
    ensures r.Some? ==> r.value.id == id
  {
    match Locate(tiers, id)
    case None => None
    case Some(p) => Some(SubjectAt(tiers, p.0, p.1))
  }

  // ---------------------------------------------------------------------
  // findSubject, findSubjectAndTier, findSubjectById
  // ---------------------------------------------------------------------

  /** findSubject(subjectId): the first subject with this id in tier order, or null. */
  method FindSubject(subjects: TierMap, subjectId: string) returns (r: Option<Subject>)
    ensures r.None? <==> !HasId(subjects, subjectId)
    ensures r.Some? ==> exists t, j :: IsFirstMatch(subjects, subjectId, t, j)
                                     && r.value == SubjectAt(subjects, t, j)
    ensures r == Found(subjects, subjectId)
  {
    for i := 0 to |subjects|
      invariant forall u, k :: ValidLoc(subjects, u, k) && u < i ==> SubjectAt(subjects, u, k).id != subjectId
    {
      var k := IndexOfId(subjects[i].1.subjects, subjectId);
      if k >= 0 {
        assert IsFirstMatch(subjects, subjectId, i, k);
        var p := Locate(subjects, subjectId).value;
        FirstMatchUnique(subjects, subjectId, i, k, p.0, p.1);
        return Some(subjects[i].1.subjects[k]);
      }
    }
    return None;
  }

  /** The duplicate check of saveNewSubject: some tier already holds a subject
      with this id (`tierData.subjects.some(s => s.id === id)` in a loop over
      the tiers). */
  method IdExists(subjects: TierMap, id: string) returns (taken: bool)
    ensures taken <==> HasId(subjects, id)
  {
    for i := 0 to |subjects|
      invariant forall u, k :: ValidLoc(subjects, u, k) && u < i ==> SubjectAt(subjects, u, k).id != id
    {
      var k := IndexOfId(subjects[i].1.subjects, id);
      if k != -1 {
        assert ValidLoc(subjects, i, k);
        return true;
      }
    }
    return false;
  }

  /** `{tierName, tierData, subject, index}`. */
  datatype TierHit = TierHit(tierName: string, tierData: Tier, subject: Subject, index: nat)

  /** findSubjectAndTier(subjectId): the first match together with its tier and its
      index in that tier's subjects, or null exactly when findSubject finds nothing. */
  method FindSubjectAndTier(subjects: TierMap, subjectId: string) returns (r: Option<TierHit>)
    ensures r.None? <==> !HasId(subjects, subjectId)
    ensures r.Some? ==>
      var t := TierIndex(subjects, r.value.tierName);
      && t >= 0
      && subjects[t].1 == r.value.tierData
      && r.value.index < |r.value.tierData.subjects|
      && r.value.tierData.subjects[r.value.index] == r.value.subject
      && r.value.subject.id == subjectId
      && Locate(subjects, subjectId) == Some((t, r.value.index))
    ensures r.Some? ==> Found(subjects, subjectId) == Some(r.value.subject)
  {
    for i := 0 to |subjects|
      invariant forall u, k :: ValidLoc(subjects, u, k) && u < i ==> SubjectAt(subjects, u, k).id != subjectId
    {
      var index := IndexOfId(subjects[i].1.subjects, subjectId);
      if index != -1 {
        var (tierName, tierData) := subjects[i];
        assert IsFirstMatch(subjects, subjectId, i, index);
        var p := Locate(subjects, subjectId).value;
        FirstMatchUnique(subjects, subjectId, i, index, p.0, p.1);
        assert TierIndex(subjects, tierName) == i;
        return Some(TierHit(tierName, tierData, tierData.subjects[index], index));
      }
    }
    return None;
  }

  /** findSubjectById(subjects, id): the same search over a tier map given as an
      argument. */
  method FindSubjectById(subjects: TierMap, id: string) returns (r: Option<Subject>)
    ensures r.None? <==> !HasId(subjects, id)
    ensures r == Found(subjects, id)
  {
    r := FindSubject(subjects, id);
  }

  // ---------------------------------------------------------------------
  // findDependentSubjects
  // ---------------------------------------------------------------------

  /** The id occurs in the subject's prereq, coreq or soft list. */
  predicate DependsOn(s: Subject, id: string) {
    id in s.prereq || id in s.coreq || id in s.soft
  }

  /** The subjects of ss that depend on id, in order, each occurrence once. */
  function FilterDependents(ss: seq<Subject>, id: string): seq<Subject> {
    if ss == [] then []
    else
      var last := ss[|ss| - 1];
      FilterDependents(ss[..|ss| - 1], id) + (if DependsOn(last, id) then [last] else [])
  }

  /** One more subject visited adds it when it depends on id. */
  lemma FilterDependentsNext(ss: seq<Subject>, s: Subject, id: string)
    ensures FilterDependents(ss + [s], id) == FilterDependents(ss, id) + (if DependsOn(s, id) then [s] else [])
  {
    assert (ss + [s])[..|ss|] == ss;
  }

  /** A subject occurs among the dependents exactly as often as it occurs in the
      tier map when it depends on id, and not at all otherwise. */
  lemma {:induction false} FilterDependentsCount(ss: seq<Subject>, id: string, s: Subject)
    ensures multiset(FilterDependents(ss, id))[s] == if DependsOn(s, id) then multiset(ss)[s] else 0
  {
    if ss != [] {
      var init := ss[..|ss| - 1];
      FilterDependentsCount(init, id, s);
      assert ss == init + [ss[|ss| - 1]];
    }
  }

  lemma FilterDependentsMembers(ss: seq<Subject>, id: string)
    ensures forall s :: s in FilterDependents(ss, id) <==> s in ss && DependsOn(s, id)
  {
    forall s ensures s in FilterDependents(ss, id) <==> s in ss && DependsOn(s, id) {
      FilterDependentsCount(ss, id, s);
    }
  }

  /** findDependentSubjects(subjectId): every subject that lists the id as a
      prerequisite, co-requisite or soft dependency, in tier/subject order. */
  method FindDependentSubjects(subjects: TierMap, subjectId: string) returns (dependents: seq<Subject>)
    ensures dependents == FilterDependents(AllSubjects(subjects), subjectId)
    ensures forall s :: s in dependents <==> s in AllSubjects(subjects) && DependsOn(s, subjectId)
  {
    dependents := [];
    for i := 0 to |subjects|
      invariant dependents == FilterDependents(AllSubjects(subjects[..i]), subjectId)
    {
      ghost var before := AllSubjects(subjects[..i]);
      var ss := subjects[i].1.subjects;
      assert before + ss[..0] == before;
      for j := 0 to |ss|
        invariant dependents == FilterDependents(before + ss[..j], subjectId)
      {
        var subject := ss[j];
        FilterDependentsNext(before + ss[..j], subject, subjectId);
        TakeOneMore(before, ss, j);
        if subjectId in subject.prereq {
          dependents := dependents + [subject];
        } else if subjectId in subject.coreq {
          dependents := dependents + [subject];
        } else if subjectId in subject.soft {
          dependents := dependents + [subject];
        }
      }
      assert ss[..|ss|] == ss;
      assert AllSubjects(subjects[..i + 1]) == before + ss by {
        assert subjects[..i + 1][..i] == subjects[..i];
      }
    }
    assert subjects[..|subjects|] == subjects;
    FilterDependentsMembers(AllSubjects(subjects), subjectId);
  }

  // ---------------------------------------------------------------------
  // getAllSubjectIds
  // ---------------------------------------------------------------------

  datatype IdName = IdName(id: string, name: string)

  function IdNames(ss: seq<Subject>): (r: seq<IdName>)
    ensures |r| == |ss|
    ensures forall k :: 0 <= k < |ss| ==> r[k] == IdName(ss[k].id, ss[k].name)
  {
    seq(|ss|, k requires 0 <= k < |ss| => IdName(ss[k].id, ss[k].name))
  }

  /** The number of subjects summed over the tiers. */
  function SubjectCount(tiers: seq<(string, Tier)>): nat {
    if tiers == [] then 0 else |tiers[0].1.subjects| + SubjectCount(tiers[1..])
  }

  lemma {:induction false} AllSubjectsConcat(a: seq<(string, Tier)>, b: seq<(string, Tier)>)
    ensures AllSubjects(a + b) == AllSubjects(a) + AllSubjects(b)
    decreases |b|
  {
    if b == [] {
      assert a + b == a;
    } else {
      var n := |b| - 1;
      assert (a + b)[..|a + b| - 1] == a + b[..n];
      AllSubjectsConcat(a, b[..n]);
    }
  }

  lemma {:induction false} AllSubjectsCount(tiers: seq<(string, Tier)>)
    ensures |AllSubjects(tiers)| == SubjectCount(tiers)
    decreases |tiers|
  {
    if tiers != [] {
      AllSubjectsConcat([tiers[0]], tiers[1..]);
      assert [tiers[0]] + tiers[1..] == tiers;
      assert [tiers[0]][..0] == [];
      AllSubjectsCount(tiers[1..]);
    }
  }

  /** getAllSubjectIds(): one {id, name} per subject, in tier/subject order; as
      many as there are subjects in all tiers. */
  method GetAllSubjectIds(subjects: TierMap) returns (subjectIds: seq<IdName>)
    ensures |subjectIds| == SubjectCount(subjects)
    ensures subjectIds == IdNames(AllSubjects(subjects))
  {
    subjectIds := [];
    for i := 0 to |subjects|
      invariant subjectIds == IdNames(AllSubjects(subjects[..i]))
    {
      ghost var before := AllSubjects(subjects[..i]);
      var ss := subjects[i].1.subjects;
      assert before + ss[..0] == before;
      for j := 0 to |ss|
        invariant subjectIds == IdNames(before + ss[..j])
      {
        var subject := ss[j];
        assert (before + ss[..j + 1])[..|before + ss[..j]|] == before + ss[..j];
        subjectIds := subjectIds + [IdName(subject.id, subject.name)];
      }
      assert ss[..|ss|] == ss;
      assert AllSubjects(subjects[..i + 1]) == before + ss by {
        assert subjects[..i + 1][..i] == subjects[..i];
      }
    }
    assert subjects[..|subjects|] == subjects;
    AllSubjectsCount(subjects);
  }
}
