/** The working data model of the learning tracker: subjects grouped into named
    tiers, their resources and projects, and the progress map.

    The tier map is a JavaScript object iterated in insertion order, so it is an
    ordered sequence of (tier name, tier) entries whose names are distinct. */
module Model {
  import opened Common

  datatype ResourceType = Link | Text

  /** `{type, value, url?}`. */
  datatype Resource = Resource(kind: ResourceType, value: string, url: Option<string>)

  datatype ProjectStatus = NotStarted | InProgress | Completed

  datatype Project = Project(id: string, name: string, goal: string,
                             resources: seq<Resource>, status: ProjectStatus)

  /** A subject. Optional arrays of the JavaScript object are empty sequences
      here, and an absent summary is the empty string. */
  datatype Subject = Subject(id: string, name: string, summary: string, goal: Option<string>,
                             prereq: seq<string>, coreq: seq<string>, soft: seq<string>,
                             resources: seq<Resource>, projects: seq<Project>, isCustom: bool)

  /** `{category, order?, subjects}`. */
  datatype Tier = Tier(category: string, order: Option<int>, subjects: seq<Subject>)

  /** The progress map: subject id to 'empty', 'partial' or 'complete' (imported
      files are not checked, so any string may appear). */
  type ProgressMap = map<string, string>

  const ProgressEmpty: string := "empty"
  const ProgressPartial: string := "partial"
  const ProgressComplete: string := "complete"

  predicate DistinctNames(tiers: seq<(string, Tier)>) {
    forall a, b :: 0 <= a < b < |tiers| ==> tiers[a].0 != tiers[b].0
  }

  /** The `subjects` object: tier name to tier, in insertion order. */
  type TierMap = t: seq<(string, Tier)> | DistinctNames(t) witness []

  /** A tier the user created: pruned when it becomes empty, exported under customTiers. */
  predicate IsCustomTier(t: Tier) {
    t.category == "custom" || (t.order.Some? && t.order.value >= 999)
  }

  // ---------------------------------------------------------------------
  // Positions of subjects in the tier map
  // ---------------------------------------------------------------------

  /** (t, j) names the j-th subject of the t-th tier. */
  predicate ValidLoc(tiers: seq<(string, Tier)>, t: int, j: int) {
    0 <= t < |tiers| && 0 <= j < |tiers[t].1.subjects|
  }

  function SubjectAt(tiers: seq<(string, Tier)>, t: int, j: int): Subject
    requires ValidLoc(tiers, t, j)
  {
    tiers[t].1.subjects[j]
  }

  /** Some tier holds a subject with this id. */
  ghost predicate HasId(tiers: seq<(string, Tier)>, id: string) {
    exists t, j :: ValidLoc(tiers, t, j) && SubjectAt(tiers, t, j).id == id
  }

  /** Index of the tier with this name, or -1 (`subjects[name]` is undefined). */
  function TierIndex(tiers: seq<(string, Tier)>, name: string): (r: int)
    ensures -1 <= r < |tiers|
    ensures r >= 0 ==> tiers[r].0 == name
    ensures r == -1 <==> forall k :: 0 <= k < |tiers| ==> tiers[k].0 != name
    ensures r >= 0 && DistinctNames(tiers) ==> forall k :: 0 <= k < |tiers| && tiers[k].0 == name ==> k == r
  {
    if tiers == [] then -1
    else if tiers[|tiers| - 1].0 == name then |tiers| - 1
    else TierIndex(tiers[..|tiers| - 1], name)
  }

  // ---------------------------------------------------------------------
  // The subjects in iteration order
  // ---------------------------------------------------------------------

  /** A subject together with the name and value of the tier that holds it. */
  datatype Placed = Placed(tierName: string, tier: Tier, subject: Subject)

  function PlacedIn(name: string, tier: Tier, ss: seq<Subject>): (r: seq<Placed>)
    ensures |r| == |ss|
    ensures forall k :: 0 <= k < |ss| ==> r[k] == Placed(name, tier, ss[k])
  {
    seq(|ss|, k requires 0 <= k < |ss| => Placed(name, tier, ss[k]))
  }

  /** Visiting one more subject of a tier appends it to the visit order. */
  lemma PlacedInNext(name: string, tier: Tier, ss: seq<Subject>, j: int)
    requires 0 <= j < |ss|
    ensures PlacedIn(name, tier, ss[..j + 1]) == PlacedIn(name, tier, ss[..j]) + [Placed(name, tier, ss[j])]
  {
  }

  /** Every subject with its tier, in the order of the nested loops
      `for (const [tierName, tierData] of Object.entries(subjects)) for (const subject of tierData.subjects)`. */
  function Flat(tiers: seq<(string, Tier)>): seq<Placed> {
    if tiers == [] then []
    else
      var last := tiers[|tiers| - 1];
      Flat(tiers[..|tiers| - 1]) + PlacedIn(last.0, last.1, last.1.subjects)
  }

  /** The subjects alone, in the same order. */
  function AllSubjects(tiers: seq<(string, Tier)>): seq<Subject> {
    if tiers == [] then []
    else AllSubjects(tiers[..|tiers| - 1]) + tiers[|tiers| - 1].1.subjects
  }

  lemma {:induction false} FlatSubjects(tiers: seq<(string, Tier)>)
    ensures |Flat(tiers)| == |AllSubjects(tiers)|
    ensures forall k :: 0 <= k < |Flat(tiers)| ==> Flat(tiers)[k].subject == AllSubjects(tiers)[k]
  {
    if tiers != [] {
      FlatSubjects(tiers[..|tiers| - 1]);
    }
  }

  /** No two positions of the tier map hold subjects with the same id. */
  ghost predicate UniqueIds(tiers: seq<(string, Tier)>) {
    var f := Flat(tiers);
    forall a, b :: 0 <= a < b < |f| ==> f[a].subject.id != f[b].subject.id
  }

  /** Where the subjects of the t-th tier start in Flat. */
  function Offset(tiers: seq<(string, Tier)>, t: nat): nat
    requires t <= |tiers|
  {
    |Flat(tiers[..t])|
  }

  lemma {:induction false} FlatPrefix(tiers: seq<(string, Tier)>, m: nat)
    requires m <= |tiers|
    ensures Flat(tiers[..m]) <= Flat(tiers)
    decreases |tiers|
  {
    if m < |tiers| {
      var n := |tiers| - 1;
      assert tiers[..n][..m] == tiers[..m];
      FlatPrefix(tiers[..n], m);
    } else {
      assert tiers[..m] == tiers;
    }
  }

  /** Flat lists the j-th subject of tier t at position Offset(t) + j. */
  lemma FlatAt(tiers: seq<(string, Tier)>, t: int, j: int)
    requires ValidLoc(tiers, t, j)
    ensures Offset(tiers, t) + j < Offset(tiers, t + 1) <= |Flat(tiers)|
    ensures Flat(tiers)[Offset(tiers, t) + j] == Placed(tiers[t].0, tiers[t].1, SubjectAt(tiers, t, j))
  {
    FlatPrefix(tiers, t + 1);
    assert tiers[..t + 1][..t] == tiers[..t];
  }

  lemma {:induction false} OffsetMonotone(tiers: seq<(string, Tier)>, t: nat, u: nat)
    requires t <= u <= |tiers|
    ensures Offset(tiers, t) <= Offset(tiers, u)
  {
    assert tiers[..u][..t] == tiers[..t];
    FlatPrefix(tiers[..u], t);
  }

  /** UniqueIds, read positionally: two positions holding the same id are one. */
  lemma UniqueIdsAt(tiers: seq<(string, Tier)>, t: int, j: int, u: int, k: int)
    requires UniqueIds(tiers)
    requires ValidLoc(tiers, t, j) && ValidLoc(tiers, u, k)
    requires SubjectAt(tiers, t, j).id == SubjectAt(tiers, u, k).id
    ensures t == u && j == k
  {
    FlatAt(tiers, t, j);
    FlatAt(tiers, u, k);
    if t < u {
      OffsetMonotone(tiers, t + 1, u);
    } else if u < t {
      OffsetMonotone(tiers, u + 1, t);
    }
  }

  /** Every element of Flat is the subject at some position (t, j), listed at
      Offset(t) + j with that position's tier. */
  lemma {:induction false} FlatMember(tiers: seq<(string, Tier)>, k: int)
    requires 0 <= k < |Flat(tiers)|
    ensures exists t, j :: ValidLoc(tiers, t, j) && k == Offset(tiers, t) + j
              && Flat(tiers)[k] == Placed(tiers[t].0, tiers[t].1, SubjectAt(tiers, t, j))
  {
    var n := |tiers| - 1;
    var init := tiers[..n];
    if k < |Flat(init)| {
      FlatMember(init, k);
      var t, j :| ValidLoc(init, t, j) && k == Offset(init, t) + j
        && Flat(init)[k] == Placed(init[t].0, init[t].1, SubjectAt(init, t, j));
      assert tiers[..t] == init[..t];
      assert ValidLoc(tiers, t, j) && k == Offset(tiers, t) + j;
    } else {
      var j := k - |Flat(init)|;
      assert ValidLoc(tiers, n, j) && k == Offset(tiers, n) + j;
    }
  }

  /** No two positions of the tier map hold subjects with the same id. */
  ghost predicate UniqueAt(tiers: seq<(string, Tier)>) {
    forall t, j, u, k ::
      (ValidLoc(tiers, t, j) && ValidLoc(tiers, u, k) && SubjectAt(tiers, t, j).id == SubjectAt(tiers, u, k).id)
      ==> t == u && j == k
  }

  /** The positional reading implies UniqueIds (UniqueIdsAt is the converse). */
  lemma UniqueAtIds(tiers: seq<(string, Tier)>)
    requires UniqueAt(tiers)
    ensures UniqueIds(tiers)
  {
    var f := Flat(tiers);
    forall a, b | 0 <= a < b < |f| ensures f[a].subject.id != f[b].subject.id {
      FlatMember(tiers, a);
      FlatMember(tiers, b);
    }
  }

  /** With distinct tier names, entries of Flat that share a tier name share the tier. */
  lemma NameDeterminesTier(tiers: TierMap, a: int, b: int)
    requires 0 <= a < |Flat(tiers)| && 0 <= b < |Flat(tiers)|
    requires Flat(tiers)[a].tierName == Flat(tiers)[b].tierName
    ensures Flat(tiers)[a].tier == Flat(tiers)[b].tier
  {
    FlatMember(tiers, a);
    FlatMember(tiers, b);
  }
}
