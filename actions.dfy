/** What each app.js operation does to the application's globals, as a function
    from their old values (and the form fields, confirm() answers and clock
    reading the operation reads) to an outcome and their new values. The class
    in module App performs the same steps in place and is proved to agree with
    these functions; the lemmas here state what the operations promise. */
module Actions {
  import opened Common
  import opened Model
  import opened Utils
  import opened Ids
  import opened Edits
  import opened DataFile

  /** The globals `subjects`, `subjectProgress`, `currentEditingSubject`,
      `currentEditingProject` ('new' or `${subjectId}-${index}`),
      `currentResourceContext` ('subject' or 'project'), `tempProjectResources`,
      and the page's data-theme attribute. */
  datatype AppData = AppData(subjects: TierMap, progress: ProgressMap,
                             editingSubject: Option<string>, editingProject: Option<string>,
                             resourceContext: Option<string>, tempResources: seq<Resource>,
                             theme: Option<string>)

  /** The fields of the create-subject form, as typed. */
  datatype SubjectForm = SubjectForm(name: string, category: string, prereq: string, coreq: string,
                                     soft: string, summary: string, goal: string)

  datatype NewSubjectOutcome = MissingName | MissingCategory | DuplicateId | Created(id: string)
  datatype DeleteOutcome = NoSelection | NotFound | NotCustom | KeptForDependents | Kept | Deleted
  datatype ResourceOutcome = EmptyTitle | TargetMissing | AddedToSubject | AddedToNewProject
                           | AddedToProject | NoTarget
  datatype ProjectOutcome = NoProject | NoProjectName | NoProjectGoal | SubjectOrProjectMissing
                          | ProjectCreated | ProjectUpdated
  /** ImportFailed is the 'Failed to import data' alert of the catch block. */
  datatype ImportOutcome = Invalid(error: ImportError) | Declined | Imported | ImportFailed

  // ---------------------------------------------------------------------
  // Values built from form fields
  // ---------------------------------------------------------------------

  /** The record saveNewSubject creates: marked custom, with no resources and no
      projects, the three dependency fields parsed as comma lists, the trimmed
      summary, and the trimmed goal or null. */
  function NewSubjectOf(id: string, name: string, f: SubjectForm): (s: Subject)
    ensures s.id == id && s.name == name && s.isCustom
    ensures s.resources == [] && s.projects == []
    ensures s.prereq == ParseIdList(f.prereq) && s.coreq == ParseIdList(f.coreq)
    ensures s.soft == ParseIdList(f.soft)
    ensures s.summary == Trim(f.summary)
    ensures Truthy(s.goal) <==> Trim(f.goal) != ""
  {
    Subject(id, name, Trim(f.summary), OrNull(Trim(f.goal)),
            ParseIdList(f.prereq), ParseIdList(f.coreq), ParseIdList(f.soft), [], [], true)
  }

  /** The resource saveResource builds: a link exactly when the trimmed url is
      non-empty, and the url is present exactly for a link. */
  function MakeResource(textField: string, urlField: string): (r: Resource)
    ensures r.value == Trim(textField)
    ensures r.kind == Link <==> Trim(urlField) != ""
    ensures r.url.Some? <==> r.kind == Link
    ensures r.url.Some? ==> r.url.value == Trim(urlField) && r.url.value != ""
  {
    var url := Trim(urlField);
    Resource(if url != "" then Link else Text, Trim(textField), if url != "" then Some(url) else None)
  }

  /** The subject after saveSubjectDetail: a custom subject takes the trimmed
      summary and a catalog subject keeps its own; the goal becomes the trimmed
      goal, or null when that is empty. Nothing else changes. */
  function WithDetail(s: Subject, summaryField: string, goalField: string): (r: Subject)
    ensures r.id == s.id && r.name == s.name && r.isCustom == s.isCustom
    ensures r.prereq == s.prereq && r.coreq == s.coreq && r.soft == s.soft
    ensures r.resources == s.resources && r.projects == s.projects
    ensures r.summary == (if s.isCustom then Trim(summaryField) else s.summary)
    ensures r.goal.None? <==> Trim(goalField) == ""
    ensures r.goal.Some? ==> r.goal.value == Trim(goalField)
  {
    var summary := if s.isCustom then Trim(summaryField) else s.summary;
    var goal := Trim(goalField);
    s.(summary := summary, goal := if goal != "" then Some(goal) else None)
  }

  /** The subject with the resources of its i-th project replaced. */
  function WithProjectResources(s: Subject, i: nat, rs: seq<Resource>): Subject
    requires i < |s.projects|
  {
    s.(projects := s.projects[i := s.projects[i].(resources := rs)])
  }

  lemma WithProjectResourcesOnly(s: Subject, i: nat, rs: seq<Resource>)
    requires i < |s.projects|
    ensures var now := WithProjectResources(s, i, rs);
            && |now.projects| == |s.projects|
            && now.projects[i] == s.projects[i].(resources := rs)
            && (forall k :: 0 <= k < |s.projects| && k != i ==> now.projects[k] == s.projects[k])
            && now == s.(projects := now.projects)
  {
  }

  // ---------------------------------------------------------------------
  // The subject and project being edited
  // ---------------------------------------------------------------------

  /** Where findSubject(currentEditingSubject) is, if anywhere. */
  function EditedSubject(d: AppData): (r: Option<(nat, nat)>)
    ensures r.Some? ==> d.editingSubject.Some? && ValidLoc(d.subjects, r.value.0, r.value.1)
                        && SubjectAt(d.subjects, r.value.0, r.value.1).id == d.editingSubject.value
    ensures r.None? <==> d.editingSubject.None? || !HasId(d.subjects, d.editingSubject.value)
  {
    if d.editingSubject.None? then None else Locate(d.subjects, d.editingSubject.value)
  }

  /** The project the key `${subjectId}-${index}` names: the open subject, and an
      index parsed back with parseInt(key.split('-').pop()) that is in range. */
  function EditedProject(d: AppData): (r: Option<(nat, nat, nat)>)
    requires d.editingProject.Some?
    ensures r.Some? ==> EditedSubject(d) == Some((r.value.0, r.value.1))
                        && ParseProjectIndex(d.editingProject.value) == Some(r.value.2)
                        && r.value.2 < |SubjectAt(d.subjects, r.value.0, r.value.1).projects|
    ensures r.None? <==> (EditedSubject(d).None?
                        || ParseProjectIndex(d.editingProject.value).None?
                        || ParseProjectIndex(d.editingProject.value).value
                           >= |SubjectAt(d.subjects, EditedSubject(d).value.0, EditedSubject(d).value.1).projects|)
  {
    match EditedSubject(d)
    case None => None
    case Some(p) =>
      match ParseProjectIndex(d.editingProject.value)
      case None => None
      case Some(i) =>
        if i < |SubjectAt(d.subjects, p.0, p.1).projects| then Some((p.0, p.1, i)) else None
  }

  // ---------------------------------------------------------------------
  // saveNewSubject (app.js:883-964)
  // ---------------------------------------------------------------------

  function SaveNewSubject(d: AppData, f: SubjectForm): (NewSubjectOutcome, AppData) {
    var name := Trim(f.name);
    if name == "" then (MissingName, d)
    else if f.category == "" then (MissingCategory, d)
    else
      var id := Slugify(name);
      if Locate(d.subjects, id).Some? then (DuplicateId, d)
      else
        (Created(id), d.(subjects := AppendSubject(d.subjects, f.category, NewSubjectOf(id, name, f)),
                         progress := d.progress[id := ProgressEmpty]))
  }

  /** A blank name, a missing category or an id some tier already holds is
      reported, and then nothing changes. */
  lemma SaveNewSubjectRejects(d: AppData, f: SubjectForm)
    ensures var (o, e) := SaveNewSubject(d, f);
            && (o == MissingName <==> Trim(f.name) == "")
            && (o == MissingCategory <==> Trim(f.name) != "" && f.category == "")
            && (o == DuplicateId <==> Trim(f.name) != "" && f.category != "" && HasId(d.subjects, Slugify(Trim(f.name))))
            && (!o.Created? ==> e == d)
  {
  }

  /** A created subject has the slug of the trimmed name as its id; it is the
      subject findSubject now finds, marked custom, with no resources and no
      projects, appended to the chosen tier (AppendSubjectPlacement says where).
      The new id's progress is 'empty', ids stay unique, and nothing else changes. */
  lemma SaveNewSubjectCreates(d: AppData, f: SubjectForm)
    requires Trim(f.name) != "" && f.category != "" && !HasId(d.subjects, Slugify(Trim(f.name)))
    ensures SaveNewSubject(d, f).0 == Created(Slugify(Trim(f.name)))
    ensures var id := Slugify(Trim(f.name));
            var e := SaveNewSubject(d, f).1;
            var s := NewSubjectOf(id, Trim(f.name), f);
            && IsSlug(id)
            && Found(e.subjects, id) == Some(s)
            && s.isCustom && s.resources == [] && s.projects == []
            && e.subjects == AppendSubject(d.subjects, f.category, s)
            && e.progress == d.progress[id := ProgressEmpty]
            && (UniqueIds(d.subjects) ==> UniqueIds(e.subjects))
            && e.(subjects := d.subjects, progress := d.progress) == d
  {
    var name := Trim(f.name);
    var id := Slugify(name);
    var s := NewSubjectOf(id, name, f);
    var e := d.(subjects := AppendSubject(d.subjects, f.category, s), progress := d.progress[id := ProgressEmpty]);
    assert SaveNewSubject(d, f) == (Created(id), e);
    SlugifyIsSlug(name);
    AppendSubjectFound(d.subjects, f.category, s);
    if UniqueIds(d.subjects) {
      AppendSubjectKeepsUniqueIds(d.subjects, f.category, s);
    }
  }

  /** The scenario of a user creating "Category Theory" under a tier "Advanced
      Math" that does not exist yet: the id is "category-theory", the subject is
      custom, the tier is created with category 'custom', and the progress is
      'empty'. */
  lemma CategoryTheoryScenario(d: AppData, prereq: string, coreq: string, soft: string,
                               summary: string, goal: string)
    requires TierIndex(d.subjects, "Advanced Math") == -1
    requires !HasId(d.subjects, "category-theory")
    ensures var f := SubjectForm("Category Theory", "Advanced Math", prereq, coreq, soft, summary, goal);
            var e := SaveNewSubject(d, f).1;
            && SaveNewSubject(d, f).0 == Created("category-theory")
            && Found(e.subjects, "category-theory").Some?
            && Found(e.subjects, "category-theory").value.isCustom
            && e.subjects[|d.subjects|] == ("Advanced Math", Tier("custom", None, [Found(e.subjects, "category-theory").value]))
            && e.progress["category-theory"] == "empty"
  {
    var name := "Category Theory";
    var f := SubjectForm(name, "Advanced Math", prereq, coreq, soft, summary, goal);
    TrimOfTrimmed(name);
    SlugOfCategoryTheory();
    assert Slugify(Trim(f.name)) == "category-theory";
    SaveNewSubjectCreates(d, f);
    var s := NewSubjectOf("category-theory", name, f);
    AppendSubjectPlacement(d.subjects, "Advanced Math", s);
    assert AppendSubject(d.subjects, "Advanced Math", s)[|d.subjects|].0 == "Advanced Math";
  }

  // ---------------------------------------------------------------------
  // deleteCustomSubject (app.js:332-387)
  // ---------------------------------------------------------------------

  /** The dependents warning is asked only when some subject depends on the one
      being deleted; closeSubjectDetail clears the selection. */
  function DeleteCustomSubject(d: AppData, confirmDependents: bool, confirmDelete: bool): (DeleteOutcome, AppData) {
    if !Truthy(d.editingSubject) then (NoSelection, d)
    else
      var id := d.editingSubject.value;
      match Locate(d.subjects, id)
      case None => (NotFound, d)
      case Some(p) =>
        if !SubjectAt(d.subjects, p.0, p.1).isCustom then (NotCustom, d)
        else if FilterDependents(AllSubjects(d.subjects), id) != [] && !confirmDependents then (KeptForDependents, d)
        else if !confirmDelete then (Kept, d)
        else
          (Deleted, d.(subjects := RemoveSubjectAt(d.subjects, p.0, p.1), progress := d.progress - {id},
                       editingSubject := None))
  }

  /** A catalog subject is never deleted, and nothing changes unless the subject
      is deleted. */
  lemma DeleteKeepsCatalogSubjects(d: AppData, confirmDependents: bool, confirmDelete: bool)
    ensures var (o, e) := DeleteCustomSubject(d, confirmDependents, confirmDelete);
            && (o == NotCustom <==>
                  Truthy(d.editingSubject) && HasId(d.subjects, d.editingSubject.value)
                  && !Found(d.subjects, d.editingSubject.value).value.isCustom)
            && (o == Deleted ==> Found(d.subjects, d.editingSubject.value).value.isCustom)
            && (o != Deleted ==> e == d)
  {
  }

  /** The state after a confirmed delete. */
  lemma DeletedState(d: AppData, confirmDependents: bool, confirmDelete: bool)
    requires DeleteCustomSubject(d, confirmDependents, confirmDelete).0 == Deleted
    ensures d.editingSubject.Some? && Locate(d.subjects, d.editingSubject.value).Some?
    ensures var id := d.editingSubject.value;
            var p := Locate(d.subjects, id).value;
            DeleteCustomSubject(d, confirmDependents, confirmDelete).1
            == d.(subjects := RemoveSubjectAt(d.subjects, p.0, p.1), progress := d.progress - {id},
                  editingSubject := None)
  {
  }

  /** Deleting a custom subject removes it from its tier and its id from the
      progress map (with unique ids, the id is then nowhere in the map). Its tier
      goes exactly when it is now empty and has category 'custom' or order at
      least 999; every other tier, and every other subject, is still there. */
  lemma DeleteCascades(d: AppData, confirmDependents: bool, confirmDelete: bool)
    requires DeleteCustomSubject(d, confirmDependents, confirmDelete).0 == Deleted
    ensures var (o, e) := DeleteCustomSubject(d, confirmDependents, confirmDelete);
            var id := d.editingSubject.value;
            var p := Locate(d.subjects, id).value;
            var tier := d.subjects[p.0];
            && e.progress == d.progress - {id}
            && id !in e.progress
            && (TierIndex(e.subjects, tier.0) == -1 <==>
                  |tier.1.subjects| == 1 && (tier.1.category == "custom" ||
                                             (tier.1.order.Some? && tier.1.order.value >= 999)))
            && (forall k :: 0 <= k < |d.subjects| && k != p.0 ==> d.subjects[k] in e.subjects)
            && (forall u, k :: ValidLoc(d.subjects, u, k) && (u, k) != (p.0, p.1) ==>
                  exists u1, k1 :: ValidLoc(e.subjects, u1, k1) && SubjectAt(e.subjects, u1, k1) == SubjectAt(d.subjects, u, k))
            && (UniqueIds(d.subjects) ==> !HasId(e.subjects, id) && UniqueIds(e.subjects))
  {
    DeletedState(d, confirmDependents, confirmDelete);
    var e := DeleteCustomSubject(d, confirmDependents, confirmDelete).1;
    var id := d.editingSubject.value;
    var p := Locate(d.subjects, id).value;
    RemoveSubjectTiers(d.subjects, p.0, p.1);
    forall u, k | ValidLoc(d.subjects, u, k) && (u, k) != (p.0, p.1)
      ensures exists u1, k1 :: ValidLoc(e.subjects, u1, k1) && SubjectAt(e.subjects, u1, k1) == SubjectAt(d.subjects, u, k)
    {
      RemoveSubjectKeeps(d.subjects, p.0, p.1, u, k);
      var u1 := if Prunes(d.subjects, p.0, p.1) && u > p.0 then u - 1 else u;
      var k1 := if u == p.0 && k > p.1 then k - 1 else k;
      assert ValidLoc(e.subjects, u1, k1);
    }
    if UniqueIds(d.subjects) {
      RemoveSubjectDropsId(d.subjects, p.0, p.1);
    }
  }

  // ---------------------------------------------------------------------
  // saveSubjectDetail (app.js:106-135)
  // ---------------------------------------------------------------------

  function SaveSubjectDetail(d: AppData, summaryField: string, goalField: string): (bool, AppData) {
    if !Truthy(d.editingSubject) then (false, d)
    else
      match EditedSubject(d)
      case None => (false, d)
      case Some(p) =>
        var s := WithDetail(SubjectAt(d.subjects, p.0, p.1), summaryField, goalField);
        (true, d.(subjects := SetSubjectAt(d.subjects, p.0, p.1, s), editingSubject := None))
  }

  /** Saving the detail form edits exactly the subject being edited: findSubject
      then finds it with the new summary (custom subjects only) and goal, no
      other subject or tier changes, and the form closes. */
  lemma SaveSubjectDetailEdits(d: AppData, summaryField: string, goalField: string)
    ensures var (saved, e) := SaveSubjectDetail(d, summaryField, goalField);
            && (saved <==> Truthy(d.editingSubject) && HasId(d.subjects, d.editingSubject.value))
            && (!saved ==> e == d)
            && (saved ==>
                  var id := d.editingSubject.value;
                  var p := Locate(d.subjects, id).value;
                  && Found(e.subjects, id) == Some(WithDetail(Found(d.subjects, id).value, summaryField, goalField))
                  && OnlySubjectReplaced(d.subjects, e.subjects, p.0, p.1)
                  && e == d.(subjects := e.subjects, editingSubject := None))
  {
    var (saved, e) := SaveSubjectDetail(d, summaryField, goalField);
    if saved {
      var id := d.editingSubject.value;
      var p := Locate(d.subjects, id).value;
      var s := WithDetail(Found(d.subjects, id).value, summaryField, goalField);
      SetFoundSubject(d.subjects, id, s);
      SetSubjectAtOnly(d.subjects, p.0, p.1, s);
    }
  }

  // ---------------------------------------------------------------------
  // addResource, saveResource, removeResource (app.js:142-222)
  // ---------------------------------------------------------------------

  /** A blank title is refused with the form left open; a subject or project that
      cannot be found leaves the form open too; otherwise the form closes. */
  function SaveResource(d: AppData, textField: string, urlField: string): (ResourceOutcome, AppData) {
    if Trim(textField) == "" then (EmptyTitle, d)
    else
      var r := MakeResource(textField, urlField);
      if d.resourceContext == Some("subject") && Truthy(d.editingSubject) then
        match EditedSubject(d)
        case None => (TargetMissing, d)
        case Some(p) =>
          var s := SubjectAt(d.subjects, p.0, p.1);
          (AddedToSubject, d.(subjects := SetSubjectAt(d.subjects, p.0, p.1, s.(resources := s.resources + [r])),
                              resourceContext := None))
      else if d.resourceContext == Some("project") && Truthy(d.editingProject) then
        if d.editingProject.value == "new" then
          (AddedToNewProject, d.(tempResources := d.tempResources + [r], resourceContext := None))
        else
          match EditedProject(d)
          case None => (TargetMissing, d)
          case Some(q) =>
            var s := SubjectAt(d.subjects, q.0, q.1);
            var rs := s.projects[q.2].resources + [r];
            (AddedToProject, d.(subjects := SetSubjectAt(d.subjects, q.0, q.1, WithProjectResources(s, q.2, rs)),
                                resourceContext := None))
      else (NoTarget, d.(resourceContext := None))
  }

  /** A blank title changes nothing, and neither does a subject or project that
      cannot be found; a resource for the project being created goes after the
      pending ones. */
  lemma SaveResourceRefusals(d: AppData, textField: string, urlField: string, o: ResourceOutcome, e: AppData)
    requires SaveResource(d, textField, urlField) == (o, e)
    ensures o == EmptyTitle <==> Trim(textField) == ""
    ensures o == EmptyTitle || o == TargetMissing ==> e == d
    ensures o == AddedToNewProject ==>
              e.tempResources == d.tempResources + [MakeResource(textField, urlField)]
              && e.subjects == d.subjects && e.progress == d.progress
  {
    if Trim(textField) != "" {
      if d.resourceContext == Some("subject") && Truthy(d.editingSubject) {
        if EditedSubject(d).None? {
          assert o == TargetMissing && e == d;
        } else {
          assert o == AddedToSubject;
        }
      } else if d.resourceContext == Some("project") && Truthy(d.editingProject) {
        if d.editingProject.value == "new" {
          assert o == AddedToNewProject;
        } else if EditedProject(d).None? {
          assert o == TargetMissing && e == d;
        } else {
          assert o == AddedToProject;
        }
      } else {
        assert o == NoTarget;
      }
    }
  }

  /** A resource added to the open subject goes after its existing resources,
      which stay as they were, and findSubject finds the subject with the longer
      list; nothing else changes. */
  lemma SaveResourceAppends(d: AppData, textField: string, urlField: string, e: AppData)
    requires SaveResource(d, textField, urlField) == (AddedToSubject, e)
    ensures d.editingSubject.Some? && HasId(d.subjects, d.editingSubject.value)
            && HasId(e.subjects, d.editingSubject.value)
    ensures var id := d.editingSubject.value;
            var old_ := Found(d.subjects, id).value;
            var now := Found(e.subjects, id).value;
            && |now.resources| == |old_.resources| + 1
            && now.resources[..|old_.resources|] == old_.resources
            && now.resources[|old_.resources|] == MakeResource(textField, urlField)
            && now == old_.(resources := now.resources)
    ensures var p := Locate(d.subjects, d.editingSubject.value).value;
            && OnlySubjectReplaced(d.subjects, e.subjects, p.0, p.1)
            && e == d.(subjects := e.subjects, resourceContext := None)
  {
    assert Trim(textField) != "";
    assert d.resourceContext == Some("subject") && Truthy(d.editingSubject);
    var id := d.editingSubject.value;
    var p := EditedSubject(d).value;
    var s := SubjectAt(d.subjects, p.0, p.1);
    var r := MakeResource(textField, urlField);
    assert e.subjects == SetSubjectAt(d.subjects, p.0, p.1, s.(resources := s.resources + [r]));
    assert Found(d.subjects, id) == Some(s);
    SetFoundSubject(d.subjects, id, s.(resources := s.resources + [r]));
    SetSubjectAtOnly(d.subjects, p.0, p.1, s.(resources := s.resources + [r]));
  }

  /** A resource for a stored project goes after that project's resources, and
      the subject's other projects and fields and every other subject stay as
      they were; a resource for
      the project being created goes after the pending ones and the subjects are
      untouched. */
  lemma SaveResourceAppendsToProject(d: AppData, textField: string, urlField: string, o: ResourceOutcome, e: AppData)
    requires SaveResource(d, textField, urlField) == (o, e)
    requires o == AddedToProject || o == AddedToNewProject
    ensures d.resourceContext == Some("project") && d.editingProject.Some? && e.resourceContext.None?
    ensures o == AddedToNewProject <==> d.editingProject == Some("new")
    ensures o == AddedToNewProject ==>
              e == d.(tempResources := d.tempResources + [MakeResource(textField, urlField)], resourceContext := None)
    ensures o == AddedToProject ==>
              && d.editingSubject.Some? && HasId(d.subjects, d.editingSubject.value)
              && HasId(e.subjects, d.editingSubject.value)
              && ParseProjectIndex(d.editingProject.value).Some?
    ensures o == AddedToProject ==>
              var id := d.editingSubject.value;
              var i := ParseProjectIndex(d.editingProject.value).value;
              var old_ := Found(d.subjects, id).value;
              var now := Found(e.subjects, id).value;
              && i < |old_.projects| && |now.projects| == |old_.projects|
              && now.projects[i].resources == old_.projects[i].resources + [MakeResource(textField, urlField)]
              && now.projects[i] == old_.projects[i].(resources := now.projects[i].resources)
              && (forall k :: 0 <= k < |old_.projects| && k != i ==> now.projects[k] == old_.projects[k])
              && now == old_.(projects := now.projects)
    ensures o == AddedToProject ==>
              var p := Locate(d.subjects, d.editingSubject.value).value;
              && OnlySubjectReplaced(d.subjects, e.subjects, p.0, p.1)
              && e == d.(subjects := e.subjects, resourceContext := None)
  {
    assert Trim(textField) != "";
    assert !(d.resourceContext == Some("subject") && Truthy(d.editingSubject));
    assert d.resourceContext == Some("project") && Truthy(d.editingProject);
    if o == AddedToProject {
      var id := d.editingSubject.value;
      var q := EditedProject(d).value;
      var s := SubjectAt(d.subjects, q.0, q.1);
      var r := MakeResource(textField, urlField);
      var s' := WithProjectResources(s, q.2, s.projects[q.2].resources + [r]);
      assert e == d.(subjects := SetSubjectAt(d.subjects, q.0, q.1, s'), resourceContext := None);
      assert Found(d.subjects, id) == Some(s);
      SetFoundSubject(d.subjects, id, s');
      SetSubjectAtOnly(d.subjects, q.0, q.1, s');
      WithProjectResourcesOnly(s, q.2, s.projects[q.2].resources + [r]);
    }
  }

  /** Removes one resource after confirmation; splice's reading of an index out
      of range is kept. */
  function RemoveResource(d: AppData, index: int, kind: string, confirmed: bool): (bool, AppData) {
    if !confirmed then (false, d)
    else if kind == "subject" && Truthy(d.editingSubject) then
      match EditedSubject(d)
      case None => (false, d)
      case Some(p) =>
        var s := SubjectAt(d.subjects, p.0, p.1);
        (true, d.(subjects := SetSubjectAt(d.subjects, p.0, p.1, s.(resources := SpliceOne(s.resources, Some(index))))))
    else if kind == "project" && Truthy(d.editingProject) then
      if d.editingProject.value == "new" then
        (true, d.(tempResources := SpliceOne(d.tempResources, Some(index))))
      else
        match EditedProject(d)
        case None => (false, d)
        case Some(q) =>
          var s := SubjectAt(d.subjects, q.0, q.1);
          var rs := SpliceOne(s.projects[q.2].resources, Some(index));
          (true, d.(subjects := SetSubjectAt(d.subjects, q.0, q.1, WithProjectResources(s, q.2, rs))))
    else (false, d)
  }

  /** Without confirmation nothing changes; removing the i-th resource of the open
      subject leaves the others in order, findSubject finds the shorter list,
      and nothing else in the state changes. */
  lemma RemoveResourceRemoves(d: AppData, index: int, kind: string, confirmed: bool)
    ensures var (removed, e) := RemoveResource(d, index, kind, confirmed);
            && (!confirmed ==> !removed)
            && (!removed ==> e == d)
            && (removed && kind == "subject" ==>
                  var id := d.editingSubject.value;
                  var rs := Found(d.subjects, id).value.resources;
                  var now := Found(e.subjects, id).value;
                  && HasId(d.subjects, id) && HasId(e.subjects, id)
                  && (0 <= index < |rs| ==>
                        && |now.resources| == |rs| - 1
                        && (forall k :: 0 <= k < |rs| - 1 ==> now.resources[k] == rs[if k < index then k else k + 1])
                        && multiset(now.resources) + multiset{rs[index]} == multiset(rs))
                  && now == Found(d.subjects, id).value.(resources := now.resources)
                  && var p := Locate(d.subjects, id).value;
                  && OnlySubjectReplaced(d.subjects, e.subjects, p.0, p.1)
                  && e == d.(subjects := e.subjects))
  {
    var (removed, e) := RemoveResource(d, index, kind, confirmed);
    if removed && kind == "subject" {
      var id := d.editingSubject.value;
      var p := Locate(d.subjects, id).value;
      var s := Found(d.subjects, id).value;
      SetFoundSubject(d.subjects, id, s.(resources := SpliceOne(s.resources, Some(index))));
      SetSubjectAtOnly(d.subjects, p.0, p.1, s.(resources := SpliceOne(s.resources, Some(index))));
      if 0 <= index < |s.resources| {
        SpliceOneAt(s.resources, index);
      }
    }
  }

  /** Removing a project's resource: for the project being created the pending
      list is spliced; for a stored project only that project's list changes,
      losing the i-th resource and keeping the rest in order, and nothing else
      in the state does. */
  lemma RemoveResourceFromProject(d: AppData, index: int, confirmed: bool, removed: bool, e: AppData)
    requires RemoveResource(d, index, "project", confirmed) == (removed, e)
    ensures removed <==> confirmed && Truthy(d.editingProject)
                         && (d.editingProject.value == "new" || EditedProject(d).Some?)
    ensures removed && d.editingProject == Some("new") ==>
              e == d.(tempResources := SpliceOne(d.tempResources, Some(index)))
    ensures removed && d.editingProject != Some("new") ==>
              && d.editingSubject.Some? && HasId(d.subjects, d.editingSubject.value)
              && HasId(e.subjects, d.editingSubject.value)
              && ParseProjectIndex(d.editingProject.value).Some?
    ensures removed && d.editingProject != Some("new") ==>
              var id := d.editingSubject.value;
              var i := ParseProjectIndex(d.editingProject.value).value;
              var old_ := Found(d.subjects, id).value;
              var now := Found(e.subjects, id).value;
              var rs := old_.projects[i].resources;
              && i < |old_.projects| && |now.projects| == |old_.projects|
              && now.projects[i].resources == SpliceOne(rs, Some(index))
              && (0 <= index < |rs| ==>
                    && |now.projects[i].resources| == |rs| - 1
                    && (forall k :: 0 <= k < |rs| - 1 ==>
                          now.projects[i].resources[k] == rs[if k < index then k else k + 1]))
              && now.projects[i] == old_.projects[i].(resources := now.projects[i].resources)
              && (forall k :: 0 <= k < |old_.projects| && k != i ==> now.projects[k] == old_.projects[k])
              && now == old_.(projects := now.projects)
    ensures removed && d.editingProject != Some("new") ==>
              var p := Locate(d.subjects, d.editingSubject.value).value;
              && OnlySubjectReplaced(d.subjects, e.subjects, p.0, p.1)
              && e == d.(subjects := e.subjects)
  {
    if removed && d.editingProject != Some("new") {
      var id := d.editingSubject.value;
      var q := EditedProject(d).value;
      var s := SubjectAt(d.subjects, q.0, q.1);
      var rs := s.projects[q.2].resources;
      var s' := WithProjectResources(s, q.2, SpliceOne(rs, Some(index)));
      assert e == d.(subjects := SetSubjectAt(d.subjects, q.0, q.1, s'));
      assert Found(d.subjects, id) == Some(s);
      SetFoundSubject(d.subjects, id, s');
      SetSubjectAtOnly(d.subjects, q.0, q.1, s');
      WithProjectResourcesOnly(s, q.2, SpliceOne(rs, Some(index)));
      if 0 <= index < |rs| {
        SpliceOneAt(rs, index);
      }
    }
  }

  // ---------------------------------------------------------------------
  // saveProjectDetail, deleteCurrentProject (app.js:398-448)
  // ---------------------------------------------------------------------

  /** A new project (with the resources gathered so far, status not-started, the
      clock reading in its id) is appended to the open subject, or the project
      the key names gets the new name and goal; the form then closes. */
  function SaveProjectDetail(d: AppData, nameField: string, goalField: string, now: nat): (ProjectOutcome, AppData) {
    if !Truthy(d.editingProject) then (NoProject, d)
    else
      var name, goal := Trim(nameField), Trim(goalField);
      if name == "" then (NoProjectName, d)
      else if goal == "" then (NoProjectGoal, d)
      else
        match EditedSubject(d)
        case None => (SubjectOrProjectMissing, d)
        case Some(p) =>
          var s := SubjectAt(d.subjects, p.0, p.1);
          if d.editingProject.value == "new" then
            var project := Project(NewProjectId(d.editingSubject.value, now), name, goal, d.tempResources, NotStarted);
            (ProjectCreated, d.(subjects := SetSubjectAt(d.subjects, p.0, p.1, s.(projects := s.projects + [project])),
                                tempResources := [], editingProject := None))
          else
            match EditedProject(d)
            case None => (SubjectOrProjectMissing, d)
            case Some(q) =>
              var pr := s.projects[q.2].(name := name, goal := goal);
              (ProjectUpdated, d.(subjects := SetSubjectAt(d.subjects, p.0, p.1, s.(projects := s.projects[q.2 := pr])),
                                  editingProject := None))
  }

  /** No open project, a blank name or a blank goal, or a subject or project
      that cannot be found, changes nothing. */
  lemma SaveProjectDetailRefusals(d: AppData, nameField: string, goalField: string, now: nat,
                                  o: ProjectOutcome, e: AppData)
    requires SaveProjectDetail(d, nameField, goalField, now) == (o, e)
    ensures o == NoProject <==> !Truthy(d.editingProject)
    ensures o == NoProjectName <==> Truthy(d.editingProject) && Trim(nameField) == ""
    ensures o == NoProjectGoal <==> Truthy(d.editingProject) && Trim(nameField) != "" && Trim(goalField) == ""
    ensures o != ProjectCreated && o != ProjectUpdated ==> e == d
  {
    if Truthy(d.editingProject) && Trim(nameField) != "" && Trim(goalField) != "" {
      if EditedSubject(d).None? {
        assert o == SubjectOrProjectMissing && e == d;
      } else if d.editingProject.value == "new" {
        assert o == ProjectCreated;
      } else if EditedProject(d).None? {
        assert o == SubjectOrProjectMissing && e == d;
      } else {
        assert o == ProjectUpdated;
      }
    }
  }

  /** A new project is the last project of the open subject, carries the
      resources gathered for it and starts not-started; the earlier projects,
      the rest of the subject and every other subject stay as they were, the
      pending list empties and the form closes. */
  lemma SaveProjectDetailCreates(d: AppData, nameField: string, goalField: string, now: nat, e: AppData)
    requires SaveProjectDetail(d, nameField, goalField, now) == (ProjectCreated, e)
    ensures var id := d.editingSubject.value;
            var was := Found(d.subjects, id).value;
            var cur := Found(e.subjects, id).value;
            && HasId(d.subjects, id) && HasId(e.subjects, id)
            && cur == was.(projects := cur.projects)
            && |cur.projects| == |was.projects| + 1 && cur.projects[..|was.projects|] == was.projects
            && cur.projects[|was.projects|]
               == Project(NewProjectId(id, now), Trim(nameField), Trim(goalField), d.tempResources, NotStarted)
    ensures var p := Locate(d.subjects, d.editingSubject.value).value;
            && OnlySubjectReplaced(d.subjects, e.subjects, p.0, p.1)
            && e == d.(subjects := e.subjects, tempResources := [], editingProject := None)
  {
    assert Truthy(d.editingProject) && Trim(nameField) != "" && Trim(goalField) != "";
    assert d.editingProject.value == "new";
    var id := d.editingSubject.value;
    var p := EditedSubject(d).value;
    var s := SubjectAt(d.subjects, p.0, p.1);
    var project := Project(NewProjectId(id, now), Trim(nameField), Trim(goalField), d.tempResources, NotStarted);
    assert e.subjects == SetSubjectAt(d.subjects, p.0, p.1, s.(projects := s.projects + [project]));
    assert Found(d.subjects, id) == Some(s);
    SetFoundSubject(d.subjects, id, s.(projects := s.projects + [project]));
    SetSubjectAtOnly(d.subjects, p.0, p.1, s.(projects := s.projects + [project]));
  }

  /** An edited project takes the trimmed name and goal and keeps its id,
      resources and status; every other project and subject stays as it was,
      and the form closes. */
  lemma SaveProjectDetailUpdates(d: AppData, nameField: string, goalField: string, now: nat, e: AppData)
    requires SaveProjectDetail(d, nameField, goalField, now) == (ProjectUpdated, e)
    ensures var id := d.editingSubject.value;
            var i := ParseProjectIndex(d.editingProject.value).value;
            var was := Found(d.subjects, id).value;
            var cur := Found(e.subjects, id).value;
            && HasId(d.subjects, id) && HasId(e.subjects, id)
            && i < |was.projects| && cur == was.(projects := cur.projects)
            && cur.projects == was.projects[i := was.projects[i].(name := Trim(nameField), goal := Trim(goalField))]
    ensures var p := Locate(d.subjects, d.editingSubject.value).value;
            && OnlySubjectReplaced(d.subjects, e.subjects, p.0, p.1)
            && e == d.(subjects := e.subjects, editingProject := None)
  {
    assert Truthy(d.editingProject) && Trim(nameField) != "" && Trim(goalField) != "";
    assert d.editingProject.value != "new";
    var id := d.editingSubject.value;
    var p := EditedSubject(d).value;
    var q := EditedProject(d).value;
    var s := SubjectAt(d.subjects, p.0, p.1);
    var pr := s.projects[q.2].(name := Trim(nameField), goal := Trim(goalField));
    assert e.subjects == SetSubjectAt(d.subjects, p.0, p.1, s.(projects := s.projects[q.2 := pr]));
    assert Found(d.subjects, id) == Some(s);
    SetFoundSubject(d.subjects, id, s.(projects := s.projects[q.2 := pr]));
    SetSubjectAtOnly(d.subjects, p.0, p.1, s.(projects := s.projects[q.2 := pr]));
  }

  /** Deletes the project the key names, after confirmation. parseInt of a key
      without an index ('new') is NaN, and splice(NaN, 1) removes the first
      project. */
  function DeleteCurrentProject(d: AppData, confirmed: bool): (bool, AppData) {
    if !Truthy(d.editingProject) || !confirmed then (false, d)
    else
      match EditedSubject(d)
      case None => (false, d)
      case Some(p) =>
        var s := SubjectAt(d.subjects, p.0, p.1);
        var i := ParseProjectIndex(d.editingProject.value);
        var start: Option<int> := if i.Some? then Some(i.value as int) else None;
        (true, d.(subjects := SetSubjectAt(d.subjects, p.0, p.1, s.(projects := SpliceOne(s.projects, start))),
                  editingProject := None))
  }

  /** A key written by editProject deletes exactly the project it was written
      for, whatever dashes the subject id contains, and the form closes;
      nothing else changes. */
  lemma DeleteCurrentProjectByKey(d: AppData, index: nat)
    requires d.editingSubject.Some? && d.editingProject == Some(ProjectKey(d.editingSubject.value, index))
    requires Found(d.subjects, d.editingSubject.value).Some?
    requires index < |Found(d.subjects, d.editingSubject.value).value.projects|
    ensures var (deleted, e) := DeleteCurrentProject(d, true);
            var id := d.editingSubject.value;
            var ps := Found(d.subjects, id).value.projects;
            && deleted
            && Found(e.subjects, id) == Some(Found(d.subjects, id).value.(projects := ps[..index] + ps[index + 1..]))
    ensures var e := DeleteCurrentProject(d, true).1;
            var p := Locate(d.subjects, d.editingSubject.value).value;
            && OnlySubjectReplaced(d.subjects, e.subjects, p.0, p.1)
            && e == d.(subjects := e.subjects, editingProject := None)
  {
    var id := d.editingSubject.value;
    ProjectKeyRoundTrip(id, index);
    assert ProjectKey(id, index) != "";
    var s := Found(d.subjects, id).value;
    var p := Locate(d.subjects, id).value;
    var s' := s.(projects := SpliceOne(s.projects, Some(index as int)));
    assert EditedSubject(d) == Some(p) && SubjectAt(d.subjects, p.0, p.1) == s;
    assert DeleteCurrentProject(d, true)
           == (true, d.(subjects := SetSubjectAt(d.subjects, p.0, p.1, s'), editingProject := None));
    SetFoundSubject(d.subjects, id, s');
    SetSubjectAtOnly(d.subjects, p.0, p.1, s');
  }

  // ---------------------------------------------------------------------
  // handleImportFile (app.js:736-803)
  // ---------------------------------------------------------------------

  /** After the checks and the two confirmations, the catalog is loaded (None:
      loadCatalog threw), the progress map becomes the file's, and the tier map is
      rebuilt by merge from the catalog and the file (None: mergeCatalogWithUserData
      threw); a truthy theme is applied. A throw lands in the catch block, which
      only alerts, so a failed merge leaves the new progress beside the old tier map. */
  function HandleImportFile(d: AppData, doc: DataDoc, confirmSchema: bool, confirmReplace: bool,
                            catalog: Option<TierMap>, merge: (TierMap, DataDoc) -> Option<TierMap>): (ImportOutcome, AppData)
  {
    var c := CheckImport(doc);
    if c.Rejected? then (Invalid(c.error), d)
    else if c.NeedsConfirmation? && !confirmSchema then (Declined, d)
    else if !confirmReplace then (Declined, d)
    else if catalog.None? then (ImportFailed, d)
    else
      var d1 := d.(progress := doc.progress.value);
      match merge(catalog.value, doc)
      case None => (ImportFailed, d1)
      case Some(tiers) =>
        (Imported, d1.(subjects := tiers, theme := if Truthy(doc.theme) then doc.theme else d.theme))
  }

  /** A file missing both schema and version, or missing progress, is rejected and
      nothing changes; a schema other than 3.0 is imported only when the user
      confirms it; on import the progress map is exactly the file's, the tier
      map is the merge's, a truthy theme in the file is applied, and nothing
      else changes. */
  lemma ImportValidatesFirst(d: AppData, doc: DataDoc, confirmSchema: bool, confirmReplace: bool,
                             catalog: Option<TierMap>, merge: (TierMap, DataDoc) -> Option<TierMap>)
    ensures var (o, e) := HandleImportFile(d, doc, confirmSchema, confirmReplace, catalog, merge);
            && (o == Invalid(MissingSchema) <==> !Truthy(doc.schema) && !Truthy(doc.version))
            && (o == Invalid(MissingProgress) <==> (Truthy(doc.schema) || Truthy(doc.version)) && doc.progress.None?)
            && (o != Imported && o != ImportFailed ==> e == d)
            && (o == Imported && CheckImport(doc).NeedsConfirmation? ==> confirmSchema)
            && (o == Imported ==>
                  && confirmReplace && catalog.Some? && Some(e.progress) == doc.progress
                  && Some(e.subjects) == merge(catalog.value, doc))
            && (o == Imported && Truthy(doc.theme) ==> e.theme == doc.theme)
            && (o == Imported && !Truthy(doc.theme) ==> e.theme == d.theme)
            && (o == Imported ==> e == d.(subjects := e.subjects, progress := e.progress, theme := e.theme))
  {
  }

  /** The import is not atomic: when the merge throws, the progress map has
      already been replaced by the file's while the tier map is still the old
      one; when the catalog fails to load, nothing changes. */
  lemma ImportFailureKeepsNewProgress(d: AppData, doc: DataDoc, confirmSchema: bool, confirmReplace: bool,
                                      catalog: Option<TierMap>, merge: (TierMap, DataDoc) -> Option<TierMap>)
    ensures var (o, e) := HandleImportFile(d, doc, confirmSchema, confirmReplace, catalog, merge);
            && (o == ImportFailed <==>
                  && !CheckImport(doc).Rejected? && confirmReplace
                  && (CheckImport(doc).NeedsConfirmation? ==> confirmSchema)
                  && (catalog.None? || merge(catalog.value, doc).None?))
            && (o == ImportFailed && catalog.None? ==> e == d)
            && (o == ImportFailed && catalog.Some? ==>
                  Some(e.progress) == doc.progress && e == d.(progress := e.progress))
  {
  }

  /** Importing a file exportData wrote needs no schema confirmation, and brings
      back the progress map it was written from. */
  lemma ImportOfExport(d: AppData, exportDate: string, lastModified: string, catalog: TierMap,
                       merge: (TierMap, DataDoc) -> Option<TierMap>, confirmSchema: bool)
    requires merge(catalog, ExportDoc(ExportMapsOf(d.subjects), d.progress, exportDate, lastModified, d.theme)).Some?
    ensures var doc := ExportDoc(ExportMapsOf(d.subjects), d.progress, exportDate, lastModified, d.theme);
            var (o, e) := HandleImportFile(d, doc, confirmSchema, true, Some(catalog), merge);
            && o == Imported && e.progress == d.progress
  {
    ExportedDocAccepted(ExportMapsOf(d.subjects), d.progress, exportDate, lastModified, d.theme);
  }
}
