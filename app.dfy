/** The working state of app.js and the operations that edit it in place. The
    globals are the fields of one object; each operation is a method that
    performs the source's steps on those fields and is proved to end in the
    state (and report the outcome) that the matching function of module
    Actions computes from the old state, so every property proved there holds
    for the method. Form fields are parameters, confirm() answers are boolean
    parameters (read only where the source would ask), each alert() is an
    outcome value, and the clock reading is a parameter. */
module App {
  import opened Common
  import opened Model
  import opened Utils
  import opened Ids
  import opened Edits
  import opened DataFile
  import opened Actions

  class AppState {
    var subjects: TierMap
    var subjectProgress: ProgressMap
    var currentEditingSubject: Option<string>
    /** 'new' while a project is being created, otherwise `${subjectId}-${index}`. */
    var currentEditingProject: Option<string>
    /** 'subject' or 'project'. */
    var currentResourceContext: Option<string>
    var tempProjectResources: seq<Resource>
    /** The data-theme attribute of the page. */
    var theme: Option<string>

    /** The globals as one value. */
    function Data(): AppData
      reads this
    {
      AppData(subjects, subjectProgress, currentEditingSubject, currentEditingProject,
              currentResourceContext, tempProjectResources, theme)
    }

    /** The state once the catalog, the saved progress and the theme are loaded. */
    constructor (subjects0: TierMap, progress0: ProgressMap, theme0: Option<string>)
      ensures Data() == AppData(subjects0, progress0, None, None, None, [], theme0)
    {
      subjects := subjects0;
      subjectProgress := progress0;
      currentEditingSubject := None;
      currentEditingProject := None;
      currentResourceContext := None;
      tempProjectResources := [];
      theme := theme0;
    }

    // -------------------------------------------------------------------
    // saveNewSubject (app.js:883-964)
    // -------------------------------------------------------------------

    /** The part of saveNewSubject that changes the state: the subject goes to
        the end of its tier (created when missing) and its progress starts 'empty'. */
    method AddSubject(category: string, subject: Subject)
      modifies this
      ensures Data() == old(Data()).(subjects := AppendSubject(old(subjects), category, subject),
                                    progress := old(subjectProgress)[subject.id := ProgressEmpty])
    {
      subjects := AppendSubject(subjects, category, subject);
      subjectProgress := subjectProgress[subject.id := ProgressEmpty];
    }

    /** Puts a changed copy of the subject at tier t, position j in its place. */
    method ReplaceSubject(t: int, j: int, subject: Subject)
      requires ValidLoc(subjects, t, j)
      modifies this
      ensures Data() == old(Data()).(subjects := SetSubjectAt(old(subjects), t, j, subject))
    {
      subjects := SetSubjectAt(subjects, t, j, subject);
    }

    /** Takes the subject at tier t, position j out of the catalog. */
    method RemoveSubject(t: int, j: int)
      requires ValidLoc(subjects, t, j)
      modifies this
      ensures Data() == old(Data()).(subjects := RemoveSubjectAt(old(subjects), t, j))
    {
      subjects := RemoveSubjectAt(subjects, t, j);
    }

    method SaveNewSubject(form: SubjectForm) returns (outcome: NewSubjectOutcome)
      modifies this
      ensures (outcome, Data()) == Actions.SaveNewSubject(old(Data()), form)
    {
      var name := Trim(form.name);
      if name == "" {
        return MissingName;
      }
      if form.category == "" {
        return MissingCategory;
      }
      var id := Slugify(name);
      var taken := IdExists(subjects, id);
      if taken {
        return DuplicateId;
      }
      var newSubject := NewSubjectOf(id, name, form);
      AddSubject(form.category, newSubject);
      return Created(id);
    }

    // -------------------------------------------------------------------
    // deleteCustomSubject (app.js:332-387)
    // -------------------------------------------------------------------

    method DeleteCustomSubject(confirmDependents: bool, confirmDelete: bool) returns (outcome: DeleteOutcome)
      modifies this
      ensures (outcome, Data()) == Actions.DeleteCustomSubject(old(Data()), confirmDependents, confirmDelete)
    {
      if !Truthy(currentEditingSubject) {
        return NoSelection;
      }
      var id := currentEditingSubject.value;
      var subject := FindSubject(subjects, id);
      if subject.None? {
        return NotFound;
      }
      if !subject.value.isCustom {
        return NotCustom;
      }
      var dependencies := FindDependentSubjects(subjects, id);
      if |dependencies| > 0 && !confirmDependents {
        return KeptForDependents;
      }
      if !confirmDelete {
        return Kept;
      }
      var tierInfo := FindSubjectAndTier(subjects, id);
      if tierInfo.Some? {
        var t := TierIndex(subjects, tierInfo.value.tierName);
        RemoveSubject(t, tierInfo.value.index);
      }
      subjectProgress := subjectProgress - {id};
      currentEditingSubject := None;
      return Deleted;
    }

    // -------------------------------------------------------------------
    // saveSubjectDetail (app.js:106-135)
    // -------------------------------------------------------------------

    method SaveSubjectDetail(summaryField: string, goalField: string) returns (saved: bool)
      modifies this
      ensures (saved, Data()) == Actions.SaveSubjectDetail(old(Data()), summaryField, goalField)
    {
      if !Truthy(currentEditingSubject) {
        return false;
      }
      var id := currentEditingSubject.value;
      var subject := FindSubject(subjects, id);
      if subject.None? {
        return false;
      }
      // the object findSubject returned is the one at this position
      var p := Locate(subjects, id).value;
      ReplaceSubject(p.0, p.1, WithDetail(subject.value, summaryField, goalField));
      currentEditingSubject := None;
      return true;
    }

    // -------------------------------------------------------------------
    // addResource, saveResource, removeResource (app.js:142-222)
    // -------------------------------------------------------------------

    /** addResource(type) opens the resource form for a subject or a project. */
    method AddResource(context: string)
      modifies this
      ensures Data() == old(Data()).(resourceContext := Some(context))
    {
      currentResourceContext := Some(context);
    }

    method SaveResource(textField: string, urlField: string) returns (outcome: ResourceOutcome)
      modifies this
      ensures (outcome, Data()) == Actions.SaveResource(old(Data()), textField, urlField)
    {
      var text := Trim(textField);
      if text == "" {
        return EmptyTitle;
      }
      var resource := MakeResource(textField, urlField);
      if currentResourceContext == Some("subject") && Truthy(currentEditingSubject) {
        var subject := FindSubject(subjects, currentEditingSubject.value);
        if subject.None? {
          return TargetMissing;
        }
        var p := Locate(subjects, currentEditingSubject.value).value;
        var s := subject.value;
        ReplaceSubject(p.0, p.1, s.(resources := s.resources + [resource]));
        outcome := AddedToSubject;
      } else if currentResourceContext == Some("project") && Truthy(currentEditingProject) {
        if currentEditingProject.value == "new" {
          tempProjectResources := tempProjectResources + [resource];
          outcome := AddedToNewProject;
        } else {
          var q := EditedProject(Data());
          if q.None? {
            return TargetMissing;
          }
          var s := SubjectAt(subjects, q.value.0, q.value.1);
          var rs := s.projects[q.value.2].resources + [resource];
          ReplaceSubject(q.value.0, q.value.1, WithProjectResources(s, q.value.2, rs));
          outcome := AddedToProject;
        }
      } else {
        outcome := NoTarget;
      }
      currentResourceContext := None;
    }

    method RemoveResource(index: int, kind: string, confirmed: bool) returns (removed: bool)
      modifies this
      ensures (removed, Data()) == Actions.RemoveResource(old(Data()), index, kind, confirmed)
    {
      if !confirmed {
        return false;
      }
      if kind == "subject" && Truthy(currentEditingSubject) {
        var subject := FindSubject(subjects, currentEditingSubject.value);
        if subject.None? {
          return false;
        }
        var p := Locate(subjects, currentEditingSubject.value).value;
        var s := subject.value;
        ReplaceSubject(p.0, p.1, s.(resources := SpliceOne(s.resources, Some(index))));
        return true;
      } else if kind == "project" && Truthy(currentEditingProject) {
        if currentEditingProject.value == "new" {
          tempProjectResources := SpliceOne(tempProjectResources, Some(index));
          return true;
        }
        var q := EditedProject(Data());
        if q.None? {
          return false;
        }
        var s := SubjectAt(subjects, q.value.0, q.value.1);
        var rs := SpliceOne(s.projects[q.value.2].resources, Some(index));
        ReplaceSubject(q.value.0, q.value.1, WithProjectResources(s, q.value.2, rs));
        return true;
      }
      return false;
    }

    // -------------------------------------------------------------------
    // addProject, editProject, saveProjectDetail, deleteCurrentProject
    // (app.js:229-255, 398-448)
    // -------------------------------------------------------------------

    /** addProject() starts an unsaved project with no resources gathered yet. */
    method AddProject() returns (started: bool)
      modifies this
      ensures started <==> Truthy(old(currentEditingSubject))
      ensures started ==> Data() == old(Data()).(editingProject := Some("new"), tempResources := [])
      ensures !started ==> Data() == old(Data())
    {
      if !Truthy(currentEditingSubject) {
        return false;
      }
      currentEditingProject := Some("new");
      tempProjectResources := [];
      return true;
    }

    /** editProject(subjectId, projectIndex) opens a project; the key it stores
        reads back as the index whatever dashes the subject id contains. */
    method EditProject(subjectId: string, projectIndex: nat)
      modifies this
      ensures Data() == old(Data()).(editingSubject := Some(subjectId),
                                     editingProject := Some(ProjectKey(subjectId, projectIndex)))
      ensures ParseProjectIndex(currentEditingProject.value) == Some(projectIndex)
    {
      currentEditingSubject := Some(subjectId);
      currentEditingProject := Some(ProjectKey(subjectId, projectIndex));
      ProjectKeyRoundTrip(subjectId, projectIndex);
    }

    /** Stores the subject with its saved project and closes the project form;
        a new project also empties the list of resources gathered for it. */
    method StoreProject(t: int, j: int, subject: Subject, clearTemp: bool)
      requires ValidLoc(subjects, t, j)
      modifies this
      ensures Data() == old(Data()).(subjects := SetSubjectAt(old(subjects), t, j, subject),
                                     tempResources := if clearTemp then [] else old(tempProjectResources),
                                     editingProject := None)
    {
      subjects := SetSubjectAt(subjects, t, j, subject);
      if clearTemp {
        tempProjectResources := [];
      }
      currentEditingProject := None;
    }

    method SaveProjectDetail(nameField: string, goalField: string, now: nat) returns (outcome: ProjectOutcome)
      modifies this
      ensures (outcome, Data()) == Actions.SaveProjectDetail(old(Data()), nameField, goalField, now)
    {
      ghost var d0 := Data();
      if !Truthy(currentEditingProject) {
        return NoProject;
      }
      var name := Trim(nameField);
      var goal := Trim(goalField);
      if name == "" {
        return NoProjectName;
      }
      if goal == "" {
        return NoProjectGoal;
      }
      if currentEditingSubject.None? {
        return SubjectOrProjectMissing;
      }
      var id := currentEditingSubject.value;
      var subject := FindSubject(subjects, id);
      if subject.None? {
        return SubjectOrProjectMissing;
      }
      var p := Locate(subjects, id).value;
      assert EditedSubject(d0) == Some(p);
      var s := subject.value;
      if currentEditingProject.value == "new" {
        var project := Project(NewProjectId(id, now), name, goal, tempProjectResources, NotStarted);
        StoreProject(p.0, p.1, s.(projects := s.projects + [project]), true);
        outcome := ProjectCreated;
      } else {
        var projectIndex := ParseProjectIndex(currentEditingProject.value);
        if projectIndex.None? || projectIndex.value >= |s.projects| {
          return SubjectOrProjectMissing;
        }
        var i := projectIndex.value;
        assert EditedProject(d0) == Some((p.0, p.1, i));
        var project := s.projects[i].(name := name, goal := goal);
        StoreProject(p.0, p.1, s.(projects := s.projects[i := project]), false);
        outcome := ProjectUpdated;
      }
    }

    method DeleteCurrentProject(confirmed: bool) returns (deleted: bool)
      modifies this
      ensures (deleted, Data()) == Actions.DeleteCurrentProject(old(Data()), confirmed)
    {
      if !Truthy(currentEditingProject) || !confirmed {
        return false;
      }
      var projectIndex := ParseProjectIndex(currentEditingProject.value);
      if currentEditingSubject.None? {
        return false;
      }
      var id := currentEditingSubject.value;
      var subject := FindSubject(subjects, id);
      if subject.None? {
        return false;
      }
      var p := Locate(subjects, id).value;
      var s := subject.value;
      var start: Option<int> := if projectIndex.Some? then Some(projectIndex.value as int) else None;
      ReplaceSubject(p.0, p.1, s.(projects := SpliceOne(s.projects, start)));
      currentEditingProject := None;
      return true;
    }

    // -------------------------------------------------------------------
    // exportData (app.js:660-729) and handleImportFile (app.js:736-803)
    // -------------------------------------------------------------------

    /** Builds the export document; the two timestamps are parameters. The
        document is the one ExportDoc describes, and it passes the import checks
        without asking to confirm its schema. */
    method ExportData(exportDate: string, lastModified: string) returns (doc: DataDoc)
      ensures doc == ExportDoc(ExportMapsOf(subjects), subjectProgress, exportDate, lastModified, theme)
      ensures CheckImport(doc) == Accepted
    {
      var maps := ExportLoops(subjects);
      var themeAttribute := if Truthy(theme) then theme.value else "light";
      doc := DataDoc(Some(CurrentSchema), None, Some(exportDate), Some(lastModified), Some(subjectProgress),
                     Some(maps.overlays), Some(maps.customSubjects), Some(maps.customTiers),
                     Some(themeAttribute));
      // clean up empty objects
      if |maps.overlays| == 0 {
        doc := doc.(overlays := None);
      }
      if |maps.customSubjects| == 0 {
        doc := doc.(customSubjects := None);
      }
      if |maps.customTiers| == 0 {
        doc := doc.(customTiers := None);
      }
      ExportedDocAccepted(maps, subjectProgress, exportDate, lastModified, theme);
    }

    method HandleImportFile(doc: DataDoc, confirmSchema: bool, confirmReplace: bool,
                            catalog: Option<TierMap>, merge: (TierMap, DataDoc) -> Option<TierMap>)
      returns (outcome: ImportOutcome)
      modifies this
      ensures (outcome, Data()) == Actions.HandleImportFile(old(Data()), doc, confirmSchema, confirmReplace, catalog, merge)
    {
      if !Truthy(doc.schema) && !Truthy(doc.version) {
        return Invalid(MissingSchema);
      }
      if doc.progress.None? {
        return Invalid(MissingProgress);
      }
      var schema := if Truthy(doc.schema) then doc.schema.value else doc.version.value;
      if schema != CurrentSchema && !confirmSchema {
        return Declined;
      }
      if !confirmReplace {
        return Declined;
      }
      if catalog.None? {
        return ImportFailed;
      }
      subjectProgress := doc.progress.value;
      var merged := merge(catalog.value, doc);
      if merged.None? {
        return ImportFailed;
      }
      subjects := merged.value;
      if Truthy(doc.theme) {
        theme := doc.theme;
      }
      return Imported;
    }
  }

  /** One visit of the inner loop of exportData: a custom subject and its
      tier go into customSubjects and customTiers, a catalog subject with
      user content into overlays. */
  method ExportSubject(acc: ExportMaps, tierName: string, tierData: Tier, subject: Subject)
    returns (maps: ExportMaps)
    ensures maps == ExportStep(acc, Placed(tierName, tierData, subject))
  {
    maps := acc;
    if subject.isCustom {
      maps := maps.(customSubjects := maps.customSubjects[subject.id := CustomSubjectDef(
        subject.name, tierName, subject.prereq, subject.coreq, subject.soft, subject.summary,
        GoalOrNull(subject.goal), subject.resources, subject.projects)]);
      if (tierData.order.Some? && tierData.order.value >= 999) || tierData.category == "custom" {
        maps := maps.(customTiers := maps.customTiers[tierName := TierDef(
          if tierData.category != "" then tierData.category else "custom",
          if tierData.order.Some? && tierData.order.value != 0 then tierData.order.value else 999)]);
      }
    } else {
      var goal: Option<string> := None;
      var resources: Option<seq<Resource>> := None;
      var projects: Option<seq<Project>> := None;
      if Truthy(subject.goal) {
        goal := subject.goal;
      }
      if |subject.resources| > 0 {
        resources := Some(subject.resources);
      }
      if |subject.projects| > 0 {
        projects := Some(subject.projects);
      }
      if goal.Some? || resources.Some? || projects.Some? {
        maps := maps.(overlays := maps.overlays[subject.id := Overlay(goal, resources, projects)]);
      }
    }
  }

  /** The nested loops of exportData over every tier and every subject. */
  method ExportLoops(subjects: TierMap) returns (maps: ExportMaps)
    ensures maps == ExportMapsOf(subjects)
  {
    maps := NoMaps;
    for i := 0 to |subjects|
      invariant maps == ExportFold(Flat(subjects[..i]))
    {
      var (tierName, tierData) := subjects[i];
      ghost var before := Flat(subjects[..i]);
      assert before + PlacedIn(tierName, tierData, tierData.subjects[..0]) == before;
      for j := 0 to |tierData.subjects|
        invariant maps == ExportFold(before + PlacedIn(tierName, tierData, tierData.subjects[..j]))
      {
        ghost var seen := PlacedIn(tierName, tierData, tierData.subjects[..j]);
        ghost var here := Placed(tierName, tierData, tierData.subjects[j]);
        PlacedInNext(tierName, tierData, tierData.subjects, j);
        assert before + (seen + [here]) == (before + seen) + [here];
        ExportFoldNext(before + seen, here);
        maps := ExportSubject(maps, tierName, tierData, tierData.subjects[j]);
      }
      assert tierData.subjects[..|tierData.subjects|] == tierData.subjects;
      assert subjects[..i + 1][..i] == subjects[..i];
    }
    assert subjects[..|subjects|] == subjects;
  }
}
