/** The schema-3.0 data file of exportData and handleImportFile (app.js:660-803):
    how the tier map is split into overlays of catalog subjects, full
    definitions of custom subjects and the custom tiers, and how an imported
    file is checked before anything is replaced. The JSON text itself, the
    download and the file reader are not modelled; the document is a value. */
module DataFile {
  import opened Common
  import opened Model

  // ---------------------------------------------------------------------
  // The document
  // ---------------------------------------------------------------------

  /** The customisations of a catalog subject; a field is absent (None) when the
      subject has nothing to say there. */
  datatype Overlay = Overlay(goal: Option<string>, resources: Option<seq<Resource>>,
                             projects: Option<seq<Project>>)

  /** The full definition of a custom subject, with the name of its tier. */
  datatype CustomSubjectDef = CustomSubjectDef(name: string, tier: string,
                                               prereq: seq<string>, coreq: seq<string>, soft: seq<string>,
                                               summary: string, goal: Option<string>,
                                               resources: seq<Resource>, projects: seq<Project>)

  datatype TierDef = TierDef(category: string, order: int)

  /** The three maps exportData fills. */
  datatype ExportMaps = ExportMaps(overlays: map<string, Overlay>,
                                   customSubjects: map<string, CustomSubjectDef>,
                                   customTiers: map<string, TierDef>)

  const NoMaps: ExportMaps := ExportMaps(map[], map[], map[])

  /** A data file. Every field is optional, as in a file read from disk; an
      exported file leaves out version and the empty maps. */
  datatype DataDoc = DataDoc(schema: Option<string>, version: Option<string>,
                             exportDate: Option<string>, lastModified: Option<string>,
                             progress: Option<ProgressMap>,
                             overlays: Option<map<string, Overlay>>,
                             customSubjects: Option<map<string, CustomSubjectDef>>,
                             customTiers: Option<map<string, TierDef>>,
                             theme: Option<string>)

  const CurrentSchema: string := "3.0"

  // ---------------------------------------------------------------------
  // One subject's contribution (the body of the inner export loop)
  // ---------------------------------------------------------------------

  /** `subject.goal || null`. */
  function GoalOrNull(goal: Option<string>): (r: Option<string>)
    ensures r.Some? <==> Truthy(goal)
    ensures r.Some? ==> r == goal
  {
    if Truthy(goal) then goal else None
  }

  function CustomDefOf(tierName: string, s: Subject): (d: CustomSubjectDef)
    ensures d.tier == tierName && d.name == s.name && d.goal == GoalOrNull(s.goal)
    ensures d.prereq == s.prereq && d.coreq == s.coreq && d.soft == s.soft
    ensures d.summary == s.summary && d.resources == s.resources && d.projects == s.projects
  {
    CustomSubjectDef(s.name, tierName, s.prereq, s.coreq, s.soft, s.summary,
                     GoalOrNull(s.goal), s.resources, s.projects)
  }

  /** `{category: tierData.category || 'custom', order: tierData.order || 999}`;
      an order of 0 is falsy and becomes 999 too. */
  function TierDefOf(t: Tier): (d: TierDef)
    ensures d.category != ""
    ensures d.category == (if t.category == "" then "custom" else t.category)
    ensures d.order == (if t.order.None? || t.order.value == 0 then 999 else t.order.value)
  {
    TierDef(if t.category == "" then "custom" else t.category,
            if t.order.Some? && t.order.value != 0 then t.order.value else 999)
  }

  /** The overlay of a catalog subject, or None when `Object.keys(overlay)` is empty. */
  function OverlayOf(s: Subject): (r: Option<Overlay>)
    ensures r.Some? <==> Truthy(s.goal) || s.resources != [] || s.projects != []
    ensures r.Some? ==> r.value.goal == GoalOrNull(s.goal)
    ensures r.Some? ==> (r.value.resources.Some? <==> s.resources != [])
    ensures r.Some? && r.value.resources.Some? ==> r.value.resources.value == s.resources
    ensures r.Some? ==> (r.value.projects.Some? <==> s.projects != [])
    ensures r.Some? && r.value.projects.Some? ==> r.value.projects.value == s.projects
  {
    var goal := GoalOrNull(s.goal);
    var resources := if s.resources != [] then Some(s.resources) else None;
    var projects := if s.projects != [] then Some(s.projects) else None;
    if goal.None? && resources.None? && projects.None? then None
    else Some(Overlay(goal, resources, projects))
  }

  function ExportStep(acc: ExportMaps, p: Placed): ExportMaps {
    var s := p.subject;
    if s.isCustom then
      var tiers := if IsCustomTier(p.tier) then acc.customTiers[p.tierName := TierDefOf(p.tier)]
                   else acc.customTiers;
      acc.(customSubjects := acc.customSubjects[s.id := CustomDefOf(p.tierName, s)],
           customTiers := tiers)
    else
      match OverlayOf(s)
      case None => acc
      case Some(o) => acc.(overlays := acc.overlays[s.id := o])
  }

  /** The maps after the nested loops have visited ps in order. */
  function ExportFold(ps: seq<Placed>): ExportMaps {
    if ps == [] then NoMaps
    else ExportStep(ExportFold(ps[..|ps| - 1]), ps[|ps| - 1])
  }

  /** One more visit is one more step of the fold. */
  lemma ExportFoldNext(ps: seq<Placed>, p: Placed)
    ensures ExportFold(ps + [p]) == ExportStep(ExportFold(ps), p)
  {
    assert (ps + [p])[..|ps|] == ps;
  }

  /** The export maps of a tier map. */
  function ExportMapsOf(tiers: seq<(string, Tier)>): ExportMaps {
    ExportFold(Flat(tiers))
  }

  // ---------------------------------------------------------------------
  // What the maps hold
  // ---------------------------------------------------------------------

  ghost predicate DistinctIds(ps: seq<Placed>) {
    forall a, b :: 0 <= a < b < |ps| ==> ps[a].subject.id != ps[b].subject.id
  }

  /** A custom subject at position k. */
  predicate CustomAt(ps: seq<Placed>, k: int) {
    0 <= k < |ps| && ps[k].subject.isCustom
  }

  /** A catalog subject with an overlay at position k. */
  predicate OverlaidAt(ps: seq<Placed>, k: int) {
    0 <= k < |ps| && !ps[k].subject.isCustom && OverlayOf(ps[k].subject).Some?
  }

  /** A custom subject in a custom tier at position k. */
  predicate CustomTierAt(ps: seq<Placed>, k: int) {
    CustomAt(ps, k) && IsCustomTier(ps[k].tier)
  }

  /** The keys of the three maps: customSubjects holds exactly the ids of custom
      subjects, overlays exactly the ids of catalog subjects with something to
      overlay, and customTiers exactly the names of custom tiers (category
      'custom' or order at least 999) that hold a custom subject. */
  lemma {:induction false} ExportFoldKeys(ps: seq<Placed>)
    ensures forall id :: id in ExportFold(ps).customSubjects <==>
              exists k :: CustomAt(ps, k) && ps[k].subject.id == id
    ensures forall id :: id in ExportFold(ps).overlays <==>
              exists k :: OverlaidAt(ps, k) && ps[k].subject.id == id
    ensures forall name :: name in ExportFold(ps).customTiers <==>
              exists k :: CustomTierAt(ps, k) && ps[k].tierName == name
  {
    if ps != [] {
      var n := |ps| - 1;
      var init := ps[..n];
      ExportFoldKeys(init);
      forall k | 0 <= k < n ensures CustomAt(ps, k) == CustomAt(init, k)
        && OverlaidAt(ps, k) == OverlaidAt(init, k) && CustomTierAt(ps, k) == CustomTierAt(init, k)
        && ps[k] == init[k]
      {
      }
      forall id ensures id in ExportFold(ps).customSubjects <==>
                        exists k :: CustomAt(ps, k) && ps[k].subject.id == id
      {
        if id in ExportFold(ps).customSubjects && id !in ExportFold(init).customSubjects {
          assert CustomAt(ps, n) && ps[n].subject.id == id;
        }
      }
      forall id ensures id in ExportFold(ps).overlays <==>
                        exists k :: OverlaidAt(ps, k) && ps[k].subject.id == id
      {
        if id in ExportFold(ps).overlays && id !in ExportFold(init).overlays {
          assert OverlaidAt(ps, n) && ps[n].subject.id == id;
        }
      }
      forall name ensures name in ExportFold(ps).customTiers <==>
                          exists k :: CustomTierAt(ps, k) && ps[k].tierName == name
      {
        if name in ExportFold(ps).customTiers && name !in ExportFold(init).customTiers {
          assert CustomTierAt(ps, n) && ps[n].tierName == name;
        }
      }
    }
  }

  /** With distinct ids, each subject is in exactly one place: a custom subject's
      full definition, naming its tier, is in customSubjects and it has no
      overlay; a catalog subject is not in customSubjects, and has exactly its
      overlay when it has one. */
  lemma {:induction false} ExportFoldValues(ps: seq<Placed>, k: int)
    requires DistinctIds(ps) && 0 <= k < |ps|
    ensures PlacedExported(ExportFold(ps), ps[k])
  {
    var n := |ps| - 1;
    var init := ps[..n];
    var acc := ExportFold(init);
    assert ExportFold(ps) == ExportStep(acc, ps[n]);
    if k < n {
      assert PlacedExported(acc, ps[k]) by {
        assert DistinctIds(init) && init[k] == ps[k];
        ExportFoldValues(init, k);
      }
      ExportStepKeeps(acc, ps[n], ps[k]);
    } else {
      assert ps[k].subject.id !in acc.customSubjects && ps[k].subject.id !in acc.overlays by {
        ExportFoldKeys(init);
        forall j | 0 <= j < n ensures init[j].subject.id != ps[k].subject.id {
          assert init[j] == ps[j];
        }
      }
    }
  }

  /** The maps hold what the export promises for the subject of p. */
  ghost predicate PlacedExported(m: ExportMaps, p: Placed) {
    var s := p.subject;
    && (s.isCustom ==>
          && s.id in m.customSubjects
          && m.customSubjects[s.id] == CustomDefOf(p.tierName, s)
          && s.id !in m.overlays)
    && (!s.isCustom ==>
          && s.id !in m.customSubjects
          && (s.id in m.overlays <==> OverlayOf(s).Some?)
          && (s.id in m.overlays ==> m.overlays[s.id] == OverlayOf(s).value))
  }

  /** A step for another subject leaves what the maps hold for q as it was. */
  lemma ExportStepKeeps(acc: ExportMaps, p: Placed, q: Placed)
    requires p.subject.id != q.subject.id && PlacedExported(acc, q)
    ensures PlacedExported(ExportStep(acc, p), q)
  {
  }

  /** With distinct ids and with each tier name standing for one tier, a custom
      tier holding a custom subject is exported with its category (or 'custom')
      and its order (or 999). */
  lemma {:induction false} ExportFoldTier(ps: seq<Placed>, k: int)
    requires forall a, b :: 0 <= a < |ps| && 0 <= b < |ps| && ps[a].tierName == ps[b].tierName ==> ps[a].tier == ps[b].tier
    requires CustomTierAt(ps, k)
    ensures ps[k].tierName in ExportFold(ps).customTiers
    ensures ExportFold(ps).customTiers[ps[k].tierName] == TierDefOf(ps[k].tier)
  {
    var n := |ps| - 1;
    var init := ps[..n];
    if k < n {
      assert init[k] == ps[k];
      ExportFoldTier(init, k);
    }
  }

  /** The same facts for a tier map with unique subject ids. */
  lemma ExportOfTierMap(tiers: TierMap, t: int, j: int)
    requires UniqueIds(tiers) && ValidLoc(tiers, t, j)
    ensures var m, s := ExportMapsOf(tiers), SubjectAt(tiers, t, j);
            && (s.isCustom ==>
                  && s.id in m.customSubjects
                  && m.customSubjects[s.id].tier == tiers[t].0
                  && m.customSubjects[s.id] == CustomDefOf(tiers[t].0, s)
                  && s.id !in m.overlays)
            && (s.isCustom && IsCustomTier(tiers[t].1) ==>
                  tiers[t].0 in m.customTiers && m.customTiers[tiers[t].0] == TierDefOf(tiers[t].1))
            && (!s.isCustom ==>
                  && s.id !in m.customSubjects
                  && (s.id in m.overlays <==> Truthy(s.goal) || s.resources != [] || s.projects != [])
                  && (s.id in m.overlays ==> m.overlays[s.id] == OverlayOf(s).value))
  {
    var ps := Flat(tiers);
    FlatAt(tiers, t, j);
    var k := Offset(tiers, t) + j;
    ExportFoldValues(ps, k);
    forall a, b | 0 <= a < |ps| && 0 <= b < |ps| && ps[a].tierName == ps[b].tierName
      ensures ps[a].tier == ps[b].tier
    {
      NameDeterminesTier(tiers, a, b);
    }
    if SubjectAt(tiers, t, j).isCustom && IsCustomTier(tiers[t].1) {
      ExportFoldTier(ps, k);
    }
  }

  // ---------------------------------------------------------------------
  // The exported document
  // ---------------------------------------------------------------------

  /** `if (Object.keys(m).length === 0) delete exportData.key`. */
  function NonEmptyMap<V>(m: map<string, V>): (r: Option<map<string, V>>)
    ensures r.None? <==> |m| == 0
    ensures r.Some? ==> r.value == m
  {
    if |m| == 0 then None else Some(m)
  }

  /** The document exportData builds from the working state; the two timestamps
      and the page's data-theme attribute are parameters. */
  function ExportDoc(maps: ExportMaps, progress: ProgressMap, exportDate: string,
                     lastModified: string, theme: Option<string>): (d: DataDoc)
    ensures d.schema == Some(CurrentSchema) && d.version.None?
    ensures d.progress == Some(progress)
    ensures d.overlays.None? <==> |maps.overlays| == 0
    ensures d.customSubjects.None? <==> |maps.customSubjects| == 0
    ensures d.customTiers.None? <==> |maps.customTiers| == 0
    ensures d.overlays.Some? ==> d.overlays.value == maps.overlays
    ensures d.customSubjects.Some? ==> d.customSubjects.value == maps.customSubjects
    ensures d.customTiers.Some? ==> d.customTiers.value == maps.customTiers
    ensures d.theme == Some(if Truthy(theme) then theme.value else "light")
  {
    DataDoc(Some(CurrentSchema), None, Some(exportDate), Some(lastModified), Some(progress),
            NonEmptyMap(maps.overlays), NonEmptyMap(maps.customSubjects),
            NonEmptyMap(maps.customTiers),
            Some(if Truthy(theme) then theme.value else "light"))
  }

  // ---------------------------------------------------------------------
  // Checking a file before import
  // ---------------------------------------------------------------------

  datatype ImportError = MissingSchema | MissingProgress

  datatype ImportCheck =
    | Rejected(error: ImportError)
    | NeedsConfirmation(schema: string)
    | Accepted

  /** The checks handleImportFile makes before it replaces anything: a schema or
      a version must be present (truthy), progress must be present, and a
      schema other than 3.0 needs the user's confirmation. */
  function CheckImport(doc: DataDoc): (r: ImportCheck)
    ensures r == Rejected(MissingSchema) <==> !Truthy(doc.schema) && !Truthy(doc.version)
    ensures r == Rejected(MissingProgress) <==>
              (Truthy(doc.schema) || Truthy(doc.version)) && doc.progress.None?
    ensures r.NeedsConfirmation? <==>
              (Truthy(doc.schema) || Truthy(doc.version)) && doc.progress.Some?
              && (if Truthy(doc.schema) then doc.schema.value else doc.version.value) != CurrentSchema
    ensures r.NeedsConfirmation? ==>
              r.schema == (if Truthy(doc.schema) then doc.schema.value else doc.version.value)
    ensures !r.Rejected? ==> doc.progress.Some?
  {
    if !Truthy(doc.schema) && !Truthy(doc.version) then Rejected(MissingSchema)
    else if doc.progress.None? then Rejected(MissingProgress)
    else
      var schema := if Truthy(doc.schema) then doc.schema.value else doc.version.value;
      if schema != CurrentSchema then NeedsConfirmation(schema) else Accepted
  }

  /** A file exportData wrote passes every check without a question. */
  lemma ExportedDocAccepted(maps: ExportMaps, progress: ProgressMap, exportDate: string,
                            lastModified: string, theme: Option<string>)
    ensures CheckImport(ExportDoc(maps, progress, exportDate, lastModified, theme)) == Accepted
    ensures ExportDoc(maps, progress, exportDate, lastModified, theme).progress == Some(progress)
  {
  }
}
