# Learning tracker: user-data bookkeeping, modelled in Dafny

This project models how the learning tracker keeps a user's data in its browser pages.
The data is a map of named tiers. Each tier holds subjects, and each subject carries
prerequisites, a goal, resources and projects. A progress map records how far along
each subject is. The model covers:

- **app.js**: the editing operations on that working state. These create and delete
  custom subjects, edit a subject's detail, add and remove resources and projects, and
  export the data to a schema-3.0 document or import one. The page-level globals
  (`subjects`, `subjectProgress`, `currentEditingSubject`, `currentEditingProject`,
  `currentResourceContext`, `tempProjectResources`, the theme) are the fields of the
  class `App.AppState`. Each of its methods is proved equal to a function in `Actions`
  over the value `AppData`, and the lemmas beside those functions state what each edit
  does.
- **js/utils.js**: lookups over the tier map (`findSubject`, `findSubjectAndTier`,
  `findSubjectById`, `findDependentSubjects`, `getAllSubjectIds`). These are loop
  methods proved against the specification functions `Locate`, `FilterDependents` and
  `AllSubjects`.
- **auth.js**: the class `GitHubAuth`. Its fields and its `localStorage` keys are a
  `Session` value inside `Auth.GitHubAuth`. The network answer of `fetchUserInfo` is a
  parameter.
- **js/filters.js**: the filter rules of `applyFilters` and the autocomplete of
  `setupAutocomplete`. The autocomplete is the class `Filters.Autocomplete`, holding the
  input text, the suggestions shown, the `active` flag and `selectedIndex`.

Module layout:

| file | module | contents |
|---|---|---|
| common.dfy | `Common` | `Option`; `String.prototype.trim`; ASCII lower-casing; `includes`; `lastIndexOf`; `split`/`join`; `parseInt` |
| model.dfy | `Model` | subjects, tiers, resources, projects; the tier map in `Object.entries` order |
| utils.dfy | `Utils` | js/utils.js |
| ids.dfy | `Ids` | the subject id made from a name; comma-separated id lists; project keys |
| edits.dfy | `Edits` | edits of the tier map: replace, append, remove; `Array.prototype.splice` with count 1 |
| datafile.dfy | `DataFile` | the export document and the checks on an imported one |
| actions.dfy | `Actions` | the app.js operations as functions on `AppData`, and their lemmas |
| app.dfy | `App` | the class `AppState`, and the loops of `exportData` |
| auth.dfy | `Auth` | auth.js |
| filters.dfy | `Filters` | js/filters.js |

## Model

| member | source | states |
|---|---|---|
| Utils.Locate | js/utils.js:11-17 | where the first subject with the id is, in tier order then list order; None exactly when no tier holds the id |
| Utils.FindSubject | js/utils.js:11-17 | the loop returns the first subject whose id matches, scanning tiers in order; None iff no tier holds the id |
| Utils.IdExists | app.js:907-912 | the duplicate-id loop of saveNewSubject reports true iff some tier holds a subject with the id |
| Utils.FindSubjectAndTier | js/utils.js:24-32 | returns the tier name, that tier's data, the index in the tier and the subject, all agreeing with the first match; None iff the id is absent |
| Utils.FindSubjectById | js/utils.js:40-46 | the same first match as findSubject; None iff the id is absent |
| Utils.FindDependentSubjects | js/utils.js:53-69 | the result equals the subjects, in tier order, that name the id in prereq, coreq or soft; a subject is in it iff it is a subject of the map that depends on the id |
| Utils.FilterDependentsMembers | js/utils.js:53-69 | membership in the dependents list is exactly "is a subject and lists the id" |
| Utils.FilterDependentsCount | js/utils.js:53-69 | each dependent subject occurs in the result as often as in the tier map, and other subjects never occur |
| Utils.GetAllSubjectIds | js/utils.js:75-88 | one (id, name) entry per subject, in tier order, so its length is the subject count |
| Utils.AllSubjectsConcat | js/utils.js:75-88 | the subjects of two tier lists placed one after the other are the two subject lists concatenated |
| Model.FlatSubjects | app.js:674-675 | the nested export loops visit exactly the subjects of the map, in the same order |
| Model.FlatAt | app.js:674-675 | the subject at tier t, index j is visited at position offset(t)+j, with its tier name and tier data |
| Model.UniqueAtIds | app.js:906-912 | the positional reading of "no id occurs twice" implies the one the duplicate check of saveNewSubject keeps |
| Model.NameDeterminesTier | app.js:674 | two visits under the same tier name see the same tier data, because tier names are distinct keys |
| Ids.SlugifyIsSlug | app.js:904 | the generated id uses only [a-z0-9-], has no "--" and no '-' at either end |
| Ids.SlugOfCategoryTheory | app.js:904 | the name "Category Theory" gives the id "category-theory" |
| Ids.SlugifyOfWords | app.js:904 | two lower-case alphanumeric words separated by a space give the words joined by '-' |
| Ids.SlugifyOfSlug | app.js:904 | an id that is already a slug is its own id |
| Ids.SlugifyIdempotent | app.js:904 | generating an id from a generated id changes nothing |
| Ids.ReplaceRunsShape | app.js:904 | replacing every run of characters outside [a-z0-9] by one '-' leaves only [a-z0-9-] with no "--", and empty iff the input is empty |
| Ids.ParseIdListItems | app.js:915-917 | no parsed id is empty, padded with white space or holds a comma, and a blank field gives no ids |
| Ids.ParseIdListOfJoin | app.js:915-917 | parsing ids joined by commas gives the ids back, for any list of non-empty trimmed comma-free ids |
| Ids.ParseIdListAppend | app.js:915-917 | parsing "a,b" gives the ids of a followed by the ids of b |
| Ids.ParseIdListPieces | app.js:915-917 | the outer trim and the blank-field shortcut do not change the result of split, trim each, drop empties |
| Ids.TrimAllConcat | app.js:915-917 | trimming each piece of two lists placed one after the other is the two trimmed lists concatenated |
| Ids.NonEmptyConcat | app.js:915-917 | dropping empty pieces distributes over concatenation |
| Ids.ProjectKeyRoundTrip | app.js:255 | parseInt(key.split('-').pop()) recovers the project index from `${subjectId}-${index}` even when the subject id contains dashes |
| Ids.NewKeyHasNoIndex | app.js:440 | the key "new" parses to NaN (None), not to an index, so deleteCurrentProject then splices at 0 |
| Edits.SetSubjectAt | app.js:112-124 | replacing the subject at (t, j) keeps every tier name, category, order and list length, and every other subject |
| Edits.SetFoundSubject | app.js:108 | after the subject findSubject finds is replaced by one with the same id, findSubject finds the new one at the same place |
| Edits.SetSubjectKeepsUniqueIds | app.js:108-126 | replacing a subject by one with the same id keeps ids unique |
| Edits.AppendSubject | app.js:933-945 | a new subject goes at the end of the named tier's list; a tier that does not exist is first created at the end with category 'custom' and no order |
| Edits.AppendSubjectPlacement | app.js:933-945 | after the append, the named tier ends with the subject; an existing tier keeps its category and order and grows by one; every other tier and every old subject stays where it was |
| Edits.AppendSubjectFound | app.js:945 | a subject with a new id is found by findSubject after the append |
| Edits.AppendSubjectKeepsUniqueIds | app.js:906-945 | appending a subject whose id no tier holds keeps ids unique |
| Edits.RemoveSubjectAt | app.js:359-367 | the subject is spliced out of its tier, and the tier itself is deleted iff it becomes empty and has category 'custom' or order >= 999 |
| Edits.RemoveSubjectFrom | app.js:359-367 | every subject after the removal was a different subject before it, under the same tier name |
| Edits.RemoveSubjectKeeps | app.js:359-367 | every other subject survives the removal, at a position the lemma names |
| Edits.RemoveSubjectTiers | app.js:363-367 | the tier disappears iff it held only this subject and was custom; every other tier survives unchanged |
| Edits.RemoveSubjectDropsId | app.js:359-371 | with unique ids, the id is no longer found and ids stay unique |
| Edits.SpliceOne | app.js:204 | splice(i, 1): for a valid start one element goes and the rest close up; a start at or past the end changes nothing; a negative start counts from the end; NaN counts as 0 |
| Edits.SpliceOneAt | app.js:204 | removing a valid index i keeps the earlier elements in place, moves the later ones down by one, and the multiset loses exactly that element |
| Actions.NewSubjectOf | app.js:919-931 | the new subject has the derived id and the trimmed name, is custom, has no resources or projects, carries the parsed id lists and summary, and has a goal iff the goal field is not blank |
| Actions.MakeResource | app.js:155-169 | the resource's value is the trimmed title; it is a link with the trimmed url iff the url field is not blank |
| Actions.WithDetail | app.js:111-124 | only summary (custom subjects only) and goal change; a blank goal becomes null |
| Actions.EditedSubject | app.js:107-109 | where findSubject(currentEditingSubject) is; None iff nothing is being edited or the id is absent |
| Actions.EditedProject | app.js:185-187 | the project the key names: the open subject and a parsed index that is in range; None exactly when one of those fails |
| Actions.SaveNewSubjectRejects | app.js:893-912 | a blank name, a missing category or an id already held is reported as such, and then nothing changes |
| Actions.SaveNewSubjectCreates | app.js:903-948 | otherwise the subject is created under a slug id, findSubject finds it, its tier gets it at the end, progress becomes 'empty', ids stay unique and nothing else changes |
| Actions.CategoryTheoryScenario | app.js:883-948 | "Category Theory" in the new tier "Advanced Math" gives the custom subject 'category-theory', alone in a new last tier of category 'custom', with progress 'empty' |
| Actions.DeleteKeepsCatalogSubjects | app.js:332-356 | a catalog subject is refused and never deleted, and nothing changes unless the subject is deleted |
| Actions.DeleteCascades | app.js:358-371 | a deletion drops the progress entry; it removes the tier iff the tier held only this subject and was custom; every other tier and every other subject survives; with unique ids the id is gone |
| Actions.SaveSubjectDetailEdits | app.js:106-135 | it saves iff a subject is being edited and is found; findSubject then finds it with the new summary and goal; every other subject stays in place, every tier keeps its name, category, order and length, and the only other change is that no subject is open any more |
| Actions.SaveResourceRefusals | app.js:154-197 | a blank title is refused; a refused or unfound target changes nothing |
| Actions.SaveResourceAppends | app.js:171-177 | a resource for the open subject goes after its resources, which stay as they were; nothing else in the subject changes, every other subject and tier stays as it was, and the only other change is that the resource context closes |
| Actions.SaveResourceAppendsToProject | app.js:178-194 | a resource for the project being created goes after the pending ones and the subjects stay untouched; one for a stored project goes after that project's resources, the other projects and fields stay as they were, every other subject and tier stays, and the only other change is that the resource context closes |
| Actions.RemoveResourceRemoves | app.js:199-206 | without confirmation nothing changes; from the open subject, the i-th resource goes and the rest keep their order; nothing else in that subject, no other subject or tier, and no other global changes |
| Actions.RemoveResourceFromProject | app.js:207-221 | it removes iff confirmed with a project open that is "new" or found; the pending list or the stored project's list loses its i-th entry; for a stored project no other project, subject, tier or global changes |
| Actions.SaveProjectDetailRefusals | app.js:398-409 | no open project, a blank name or a blank goal is reported as such; every refusal changes nothing |
| Actions.SaveProjectDetailCreates | app.js:410-421 | a new project with the pending resources, status not-started and the clock in its id goes after the subject's projects; nothing else in the subject changes, every other subject and tier stays, and the only other changes are that the pending list is cleared and the project form closes |
| Actions.SaveProjectDetailUpdates | app.js:422-429 | the project the key names gets the new name and goal; every other project, subject and tier stays, and the only other change is that the project form closes |
| Actions.DeleteCurrentProjectByKey | app.js:437-448 | a key written by editProject deletes exactly that project, whatever dashes the subject id has; every other subject and tier stays, and the only other change is that the project form closes |
| Actions.ImportValidatesFirst | app.js:743-789 | a document missing schema and version, or missing progress, is reported as such; only Imported and ImportFailed change anything; Imported needs the replace confirmation, the schema confirmation when the schema is not 3.0, a catalog, and a merge result, which it installs together with the document's progress; a truthy document theme replaces the theme, any other leaves it; nothing else changes |
| Actions.ImportFailureKeepsNewProgress | app.js:768-797 | after a failed catalog load nothing has changed; after a failed merge the document's progress has already replaced the old one while the subjects are the old ones |
| Actions.ImportOfExport | app.js:660-789 | importing a document exported from a state, with a merge that succeeds, is accepted without confirmation and restores the progress map |
| App.AppState.SaveNewSubject | app.js:883-964 | the new state and outcome are those of Actions.SaveNewSubject |
| App.AppState.DeleteCustomSubject | app.js:332-387 | the new state and outcome are those of Actions.DeleteCustomSubject, using the findDependentSubjects and findSubjectAndTier loops |
| App.AppState.SaveSubjectDetail | app.js:106-135 | the new state is that of Actions.SaveSubjectDetail |
| App.AppState.AddResource | app.js:142-147 | only the resource context changes |
| App.AppState.SaveResource | app.js:154-197 | the new state and outcome are those of Actions.SaveResource |
| App.AppState.RemoveResource | app.js:199-222 | the new state is that of Actions.RemoveResource |
| App.AppState.AddProject | app.js:229-249 | with a subject open, it starts a new project and clears the pending resources; otherwise nothing changes |
| App.AppState.EditProject | app.js:251-258 | it opens the subject and the key `${subjectId}-${index}`, which parses back to the index |
| App.AppState.SaveProjectDetail | app.js:398-435 | the new state and outcome are those of Actions.SaveProjectDetail |
| App.AppState.DeleteCurrentProject | app.js:437-448 | the new state is that of Actions.DeleteCurrentProject |
| App.ExportSubject | app.js:676-707 | one inner-loop visit: a custom subject (and its custom tier) or a catalog subject's non-empty overlay is recorded |
| App.ExportLoops | app.js:674-709 | the nested loops build exactly the maps of the fold over all subjects in order |
| App.AppState.ExportData | app.js:660-714 | the document carries schema 3.0, the progress, the three maps (omitted when empty) and the theme, and the import check accepts it |
| App.AppState.HandleImportFile | app.js:736-803 | the new state and outcome are those of Actions.HandleImportFile |
| DataFile.ExportFoldKeys | app.js:674-714 | customSubjects holds exactly the custom subjects' ids, overlays exactly the ids of catalog subjects with a goal, resources or projects, customTiers exactly the custom tiers holding a custom subject |
| DataFile.ExportFoldValues | app.js:676-707 | with distinct ids, each subject's entry is its full definition (custom) or its overlay (catalog) |
| DataFile.ExportFoldTier | app.js:691-696 | a custom tier holding a custom subject is exported with its category (or 'custom') and its order (or 999) |
| DataFile.ExportOfTierMap | app.js:674-709 | for each subject of a tier map with unique ids: what the export records for it, under its own tier name |
| DataFile.OverlayOf | app.js:699-706 | an overlay exists iff the subject has a goal, resources or projects, and holds exactly those |
| DataFile.TierDefOf | app.js:692-695 | category defaults to 'custom' and a missing or zero order to 999 |
| DataFile.ExportDoc | app.js:662-714 | schema 3.0, the progress, each map present iff not empty, the theme or 'light' |
| DataFile.CheckImport | app.js:746-762 | rejects a document without schema and version, then one without progress; asks for confirmation, naming the schema, iff it is not 3.0 |
| DataFile.ExportedDocAccepted | app.js:746-762 | an exported document passes the import check without confirmation |
| Auth.Load | auth.js:19-22 | the token and username are read back from storage, null when absent |
| Auth.SaveThenLoad | auth.js:25-32 | after saving, a truthy token or username loads back; a falsy one keeps what storage held; other keys are untouched |
| Auth.ClearedForgetsEverything | auth.js:35-41 | clearing drops both fields and all three keys, leaves every other key, and loads back as signed out |
| Auth.SetTokenPersists | auth.js:81-84 | a non-empty token set is authenticated and loads back |
| Auth.FetchWithoutToken | auth.js:105-108 | without a token nothing is requested and nothing changes |
| Auth.FetchOutcomes | auth.js:110-134 | a 401 clears the session; another HTTP error or a network error changes nothing; a success stores and saves the login |
| Auth.OwnerCheckDecides | auth.js:138-152 | signed out is not the owner; a known username is compared case-insensitively without a request; "owner" means the username equals the repo owner ignoring case; without a username it requests `/user`, and a returned login answers exactly whether it equals the repo owner ignoring case, while a user without a login is the TypeError of `this.username.toLowerCase()` |
| Auth.OwnerCheckFailedFetch | auth.js:144-148 | a failed user fetch answers "not the owner" |
| Auth.RejectedTokenIsNotOwner | auth.js:155-158 | a token rejected with 401 is invalid, signs out, and is then not the owner |
| Auth.CallbackAccepts | auth.js:60-78 | as written: the code is returned iff the given state equals the stored one, null included; the state key is then removed and nothing else changes; a refusal changes nothing |
| Auth.CallbackAfterLogin | auth.js:44-78 | after login stores a state, exactly that state is accepted, and only once |
| Auth.AsWrittenAcceptsMissingState | auth.js:62-64 | with no login started and no state given, the callback returns the code |
| Auth.CallbackNeedsLoginState | auth.js:44-78 | with the intended guard: after login exactly the stored state is accepted, once |
| Auth.CallbackWithoutLogin | auth.js:62-64 | with the intended guard: without a stored state every callback is refused and nothing changes |
| Auth.GitHubAuth.constructor | auth.js:5-16 | the client id and repo owner are kept and the credentials are loaded |
| Auth.GitHubAuth.LoadAuthData | auth.js:19-22 | the new session is Load of the storage |
| Auth.GitHubAuth.SaveAuthData | auth.js:25-32 | the new session is Saved of the old one |
| Auth.GitHubAuth.ClearAuthData | auth.js:35-41 | the new session is Cleared of the old one |
| Auth.GitHubAuth.Login | auth.js:44-57 | the given state is stored under github_auth_state |
| Auth.GitHubAuth.HandleCallback | auth.js:60-78 | result and new session are those of Callback, the guard as written |
| Auth.GitHubAuth.SetToken | auth.js:81-84 | the new session is WithToken of the old one |
| Auth.GitHubAuth.FetchUserInfo | auth.js:105-135 | result and new session are those of Fetch |
| Auth.GitHubAuth.IsOwner | auth.js:138-152 | answer, new session and whether /user was requested are those of OwnerCheck |
| Auth.GitHubAuth.ValidateToken | auth.js:155-158 | valid iff the user fetch succeeds, with its session effect |
| Filters.ReadFilters | js/filters.js:11-13 | a missing or blank control reads as '' for search and 'all' for status and category |
| Filters.StatusFilterSelects | js/filters.js:21-24 | 'all' selects every card; any other value selects exactly the cards whose progress it is named after |
| Filters.UnknownSubjectIsGeneral | js/filters.js:27-28 | a card whose subject is not in the map has category 'general' |
| Filters.KnownSubjectCategory | js/filters.js:27-28 | a card's category is the category of the tier where findSubjectAndTier finds it |
| Filters.BlankFiltersShowEverything | js/filters.js:11-39 | with every control blank, every card is shown |
| Filters.LongerSearchNarrows | js/filters.js:31 | a card shown for a longer search term is shown for any prefix of it |
| Filters.HideCard | js/filters.js:35-39 | a card is hidden iff it fails the search, status or category test |
| Filters.HideTier | js/filters.js:43-46 | a tier is hidden iff all of its cards are hidden |
| Filters.ApplyFilters | js/filters.js:10-47 | each card is hidden iff it is not shown, and each tier iff none of its cards is shown |
| Filters.CurrentTerm | js/filters.js:60-62 | the term is trimmed and holds no comma |
| Filters.CurrentTermIsLastItem | js/filters.js:60-62 | the term is the trimmed last comma-separated piece of the input |
| Filters.FilterMatchesMembers | js/filters.js:69-72 | an entry is kept iff its id or name contains the term, ignoring ASCII case |
| Filters.FilterMatchesAppend | js/filters.js:69-72 | the filter keeps the original order |
| Filters.Suggestions | js/filters.js:69-73 | at most ten, a prefix of the matches, and all of them when there are at most ten |
| Filters.SuggestionsMatch | js/filters.js:69-73 | every suggestion is a subject entry that matches the term |
| Filters.SuggestedWhenEarly | js/filters.js:69-73 | a match with fewer than ten matches before it is suggested |
| Filters.InsertChoice | js/filters.js:93-99 | the text ends with ", " and keeps everything up to the last comma |
| Filters.ChoiceClearsTerm | js/filters.js:93-99 | after a choice the current term is empty |
| Filters.ChoiceAddsItem | js/filters.js:93-99 | the parsed id list after a choice is the ids before the last comma followed by the chosen id |
| Filters.ArrowDownIndex | js/filters.js:110-113 | the selection moves down one, stopping at the last suggestion |
| Filters.ArrowUpIndex | js/filters.js:114-117 | the selection moves up one, stopping at the first suggestion |
| Filters.Autocomplete.constructor | js/filters.js:54-57 | nothing is shown and nothing is selected |
| Filters.Autocomplete.OnInput | js/filters.js:59-104 | the list is active iff the term is not blank and has a match; then it shows the suggestions and clears the selection; otherwise the old list and selection stay |
| Filters.Autocomplete.Choose | js/filters.js:92-101 | the input becomes InsertChoice of the chosen id and the list closes |
| Filters.Autocomplete.OnKey | js/filters.js:106-123 | an inactive or empty list ignores keys; arrows move the selection within bounds; Enter with a selection chooses it; Escape closes the list |
| Filters.Autocomplete.OnOutsideClick | js/filters.js:133-137 | the list closes and nothing else changes |
| Common.Trim | app.js:884-890 | String.prototype.trim: the result has no white space at either end |
| Common.TrimCutsWhitespace | app.js:884-890 | the input is white space, then the trimmed text, then white space |
| Common.TrimOfTrimmed | app.js:884-890 | trimming trimmed text changes nothing |
| Common.LastIndexOf | js/filters.js:61 | the last index of the character, or -1 when it does not occur |
| Common.SplitJoin | app.js:915 | splitting a comma join of comma-free pieces gives the pieces back |
| Common.JoinSplit | app.js:915 | joining the pieces of a split gives the text back |
| Common.SplitConcat | app.js:915 | splitting "a,b" gives the pieces of a followed by the pieces of b |
| Common.ContainsAt | js/filters.js:31 | String.prototype.includes holds iff the term occurs at some position |
| Common.ParseInt | app.js:185 | NaN (None) iff the text does not start with a digit; otherwise the value of the leading digits |
| Common.ParseNatToString | app.js:185 | parseInt reads back the decimal form of any natural number |

## Left out

- Rendering, the DOM and `alert`/`confirm` dialogs. Each confirmation is a boolean parameter. Each alert is a distinct outcome value (`NewSubjectOutcome`, `DeleteOutcome`, `ResourceOutcome`, `ProjectOutcome`, `ImportOutcome`).
- Persistence and sync: `saveSubjects`, `saveProgress`, `saveTheme`, `saveDataToGitHub`, `render` and the modal helpers. The stored copy is not modelled; the working state is. The one exception is `localStorage` in auth.js, whose map is the `storage` field of `Auth.Session`.
- Reading a file and `JSON.parse`: the imported document is the datatype `DataFile.DataDoc`, with absent members as `None`.
- `loadCatalog` and `mergeCatalogWithUserData` are not part of this model. The catalog is a parameter (None when loading it fails), and the merge is a function parameter returning `Option` (None when it throws).
- Actions.ImportOfExport: proves that the exported document is accepted and restores the progress map. It does not prove that the subjects come back, because the merge is a parameter.
- `getSubjectProgress` (js/state.js) is not part of this model; each card's progress is the field `Filters.Card.progress`.
- Filters.Card: the page's cards are given as a sequence per tier; the DOM that groups them by tier and supplies their text content is not modelled.
- Auth.UserResponse: `fetch` is a parameter; `HttpError(status)` stands for any response that is not ok, `NetworkError` for a thrown request or JSON error.
- Async behaviour and interleaving: every operation runs to completion in one step.
- Clocks and randomness: the `Date.now()` reading in a new project id is the parameter `now`; the random login state is the parameter of `Login`; `exportDate` and `lastModified` are parameters.
- `removeProject`, `viewProject`, `resetAllData`, `logout`, `getViewMode`, `getRedirectUri`, `generateRandomState` and the modal open/close helpers are not modelled: they only combine modelled edits with page effects, or are I/O.
- Common.Lower: ASCII letters only; `toLowerCase` also lower-cases letters outside ASCII.
- Common.ParseInt: reads only leading decimal digits. `parseInt` also skips leading white space and takes a sign; neither can occur in the keys the app writes.
- Edits.AppendSubject: always adds a new tier at the end. JavaScript lists integer-like keys (a tier named "2024", say) first in `Object.entries`/`Object.values`. In the source such a tier is visited first by the export loops, `getAllSubjectIds` and the duplicate check; the model visits it last.
- Edits.AppendSubject: creates a tier with category 'custom' and no order, as app.js:937-942 does, so a tier created this way has no order; it is still pruned once empty because its category is 'custom', and the export writes its order as 999 (app.js:694).
- Actions.HandleImportFile: not atomic: when the merge fails, the new progress map has already replaced the old one (app.js:772-776), and the model keeps that order.
- Optional arrays (`prereq`, `coreq`, `soft`, `resources`, `projects`) are sequences, with a missing array as `[]`. Every modelled use site but one ends in the same state for the two (`|| []`, `&& length > 0`, splice on an empty list).
- Actions.DeleteCurrentProject: when the open subject has no `projects` array at all, app.js:442 returns before `closeProjectDetail`, so `currentEditingProject` stays set; the model, which has `[]` there, splices nothing and clears it, as the source does for an empty array.

## Findings

| source | as written | input that shows it | evidently intended | confidence | as-written member | corrected member |
|---|---|---|---|---|---|---|
| auth.js:62-64 | `if (state !== savedState)` throws only when the two differ, and both may be null | no login was started (no github_auth_state in storage) and the callback carries no `state` parameter: null !== null is false, so the code is accepted and returned | refuse any callback unless this browser stored a state at login and the callback carries exactly it (the CSRF check of section 10.12 of RFC 6749) | not executed | Auth.AsWrittenAcceptsMissingState | Auth.CallbackWithoutLogin |
