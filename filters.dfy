/** Search, filters and autocomplete (js/filters.js). The DOM reads of
    applyFilters become parameters: the three filter controls, and the cards
    of the page grouped by the tier element that holds them, each with its
    text and its progress value. The autocomplete closure of
    setupAutocomplete becomes a class whose fields are the input's value, the
    suggestion list shown, whether that list is active, and selectedIndex. */
module Filters {
  import opened Common
  import opened Model
  import opened Utils
  import opened Ids

  // ---------------------------------------------------------------------
  // applyFilters
  // ---------------------------------------------------------------------

  /** The filter controls as applyFilters reads them: the lower-cased search
      text, and the status and category selections ('all' when blank). */
  datatype FilterState = FilterState(searchTerm: string, statusFilter: string, categoryFilter: string)

  /** A subject card: its data-id, its text content and the progress value
      getSubjectProgress reports for it. */
  datatype Card = Card(id: string, text: string, progress: string)

  /** `input?.value.toLowerCase() || ''` and `select?.value || 'all'`, with
      None for a control missing from the page. */
  function ReadFilters(search: Option<string>, status: Option<string>, category: Option<string>): (r: FilterState)
    ensures r.searchTerm == "" <==> !Truthy(search)
    ensures search.Some? ==> |r.searchTerm| == |search.value|
    ensures r.statusFilter != "" && r.categoryFilter != ""
    ensures Truthy(status) ==> r.statusFilter == status.value
    ensures Truthy(category) ==> r.categoryFilter == category.value
  {
    FilterState(if search.Some? then Lower(search.value) else "",
                if Truthy(status) then status.value else "all",
                if Truthy(category) then category.value else "all")
  }

  /** statusMatch: 'all', or the filter named after the card's progress. */
  predicate StatusMatch(statusFilter: string, progress: string) {
    || statusFilter == "all"
    || (statusFilter == "not-started" && progress == ProgressEmpty)
    || (statusFilter == "in-progress" && progress == ProgressPartial)
    || (statusFilter == "completed" && progress == ProgressComplete)
  }

  /** The status filter that selects a progress value, if any. */
  function StatusFilterOf(progress: string): Option<string> {
    if progress == ProgressEmpty then Some("not-started")
    else if progress == ProgressPartial then Some("in-progress")
    else if progress == ProgressComplete then Some("completed")
    else None
  }

  /** 'all' selects every card; any other filter value selects exactly the
      cards whose progress it is named after, so an unknown filter value or an
      unknown progress value selects nothing but under 'all'. */
  lemma StatusFilterSelects(statusFilter: string, progress: string)
    ensures StatusMatch(statusFilter, progress)
            <==> statusFilter == "all" || StatusFilterOf(progress) == Some(statusFilter)
  {
  }

  /** The category a card is filed under: its tier's category, or 'general'
      for an id findSubjectAndTier does not find. */
  function CardCategory(subjects: seq<(string, Tier)>, id: string): string {
    match Locate(subjects, id)
    case None => "general"
    case Some(p) => subjects[p.0].1.category
  }

  /** A subject that is not in the tier map counts as 'general'. */
  lemma UnknownSubjectIsGeneral(subjects: seq<(string, Tier)>, id: string)
    requires !HasId(subjects, id)
    ensures CardCategory(subjects, id) == "general"
  {
  }

  /** A subject that is in the tier map is filed under the category of the
      first tier holding its id. */
  lemma KnownSubjectCategory(subjects: seq<(string, Tier)>, id: string, t: int, j: int)
    requires IsFirstMatch(subjects, id, t, j)
    ensures CardCategory(subjects, id) == subjects[t].1.category
  {
    var p := Locate(subjects, id).value;
    FirstMatchUnique(subjects, id, t, j, p.0, p.1);
  }

  /** Whether applyFilters leaves a card visible. */
  predicate CardShown(subjects: seq<(string, Tier)>, f: FilterState, card: Card) {
    && (f.searchTerm == "" || Contains(Lower(card.text), f.searchTerm))
    && StatusMatch(f.statusFilter, card.progress)
    && (f.categoryFilter == "all" || CardCategory(subjects, card.id) == f.categoryFilter)
  }

  /** With every control blank or missing, every card is shown. */
  lemma BlankFiltersShowEverything(subjects: seq<(string, Tier)>, search: Option<string>,
                                   status: Option<string>, category: Option<string>, card: Card)
    requires !Truthy(search) && !Truthy(status) && !Truthy(category)
    ensures CardShown(subjects, ReadFilters(search, status, category), card)
  {
  }

  /** A card hidden by a search term stays hidden when the term is extended:
      typing more characters only narrows the result. */
  lemma LongerSearchNarrows(subjects: seq<(string, Tier)>, f: FilterState, more: string, card: Card)
    requires CardShown(subjects, f.(searchTerm := f.searchTerm + more), card)
    ensures CardShown(subjects, f, card)
  {
    var text := Lower(card.text);
    var w := f.searchTerm + more;
    if w != "" && f.searchTerm != "" {
      ContainsAt(text, w);
      var i :| OccursAt(text, w, i);
      assert text[i..i + |f.searchTerm|] == w[..|f.searchTerm|] == f.searchTerm;
      assert OccursAt(text, f.searchTerm, i);
      ContainsAt(text, f.searchTerm);
    }
  }

  /** The first forEach callback of applyFilters: whether one card is hidden. */
  method HideCard(subjects: TierMap, f: FilterState, card: Card) returns (hidden: bool)
    ensures hidden <==> !CardShown(subjects, f, card)
  {
    var text := Lower(card.text);
    var statusMatch := StatusMatch(f.statusFilter, card.progress);
    var subjectInfo := FindSubjectAndTier(subjects, card.id);
    var category := if subjectInfo.Some? then subjectInfo.value.tierData.category else "general";
    assert category == CardCategory(subjects, card.id);
    var matchesSearch := f.searchTerm == "" || Contains(text, f.searchTerm);
    var matchesCategory := f.categoryFilter == "all" || category == f.categoryFilter;
    hidden := !(matchesSearch && statusMatch && matchesCategory);
  }

  /** The second forEach callback: a tier is hidden when none of its cards is
      visible. */
  method HideTier(cardHidden: seq<bool>) returns (hidden: bool)
    ensures hidden <==> forall k :: 0 <= k < |cardHidden| ==> cardHidden[k]
  {
    var visibleCards := 0;
    for k := 0 to |cardHidden|
      invariant visibleCards == 0 <==> forall m :: 0 <= m < k ==> cardHidden[m]
    {
      if !cardHidden[k] {
        visibleCards := visibleCards + 1;
      }
    }
    hidden := visibleCards == 0;
  }

  /** applyFilters: every card is hidden or shown by the three filters, then
      every tier element with no visible card is hidden. `page[t]` holds the
      cards of the t-th tier element. */
  method ApplyFilters(subjects: TierMap, f: FilterState, page: seq<seq<Card>>)
    returns (cardHidden: seq<seq<bool>>, tierHidden: seq<bool>)
    ensures |cardHidden| == |page| && |tierHidden| == |page|
    ensures forall t :: 0 <= t < |page| ==> |cardHidden[t]| == |page[t]|
    ensures forall t, k :: 0 <= t < |page| && 0 <= k < |page[t]| ==>
              (cardHidden[t][k] <==> !CardShown(subjects, f, page[t][k]))
    ensures forall t :: 0 <= t < |page| ==>
              (tierHidden[t] <==> forall k :: 0 <= k < |page[t]| ==> !CardShown(subjects, f, page[t][k]))
  {
    cardHidden := [];
    for t := 0 to |page|
      invariant |cardHidden| == t
      invariant forall u :: 0 <= u < t ==> |cardHidden[u]| == |page[u]|
      invariant forall u, k :: 0 <= u < t && 0 <= k < |page[u]| ==>
                  (cardHidden[u][k] <==> !CardShown(subjects, f, page[u][k]))
    {
      var row: seq<bool> := [];
      for k := 0 to |page[t]|
        invariant |row| == k
        invariant forall m :: 0 <= m < k ==> (row[m] <==> !CardShown(subjects, f, page[t][m]))
      {
        var hidden := HideCard(subjects, f, page[t][k]);
        row := row + [hidden];
      }
      cardHidden := cardHidden + [row];
    }
    tierHidden := [];
    for t := 0 to |page|
      invariant |tierHidden| == t
      invariant forall u :: 0 <= u < t ==>
                  (tierHidden[u] <==> forall k :: 0 <= k < |page[u]| ==> cardHidden[u][k])
    {
      var hidden := HideTier(cardHidden[t]);
      tierHidden := tierHidden + [hidden];
    }
  }

  // ---------------------------------------------------------------------
  // Autocomplete: the term being typed, the suggestions, the insertion
  // ---------------------------------------------------------------------

  /** `value.substring(lastComma + 1)`, or the whole value when it holds no
      comma. */
  function AfterLastComma(value: string): (r: string)
    ensures ',' !in r
  {
    var lastComma := LastIndexOf(value, ',');
    if lastComma >= 0 then
      var r := value[lastComma + 1..];
      assert forall i :: 0 <= i < |r| ==> r[i] == value[lastComma + 1 + i];
      r
    else value
  }

  /** The term under the cursor: the trimmed text after the last comma, or the
      whole value trimmed when there is no comma. */
  function CurrentTerm(value: string): (r: string)
    ensures IsTrimmed(r) && ',' !in r
  {
    TrimKeepsAbsent(AfterLastComma(value), ',');
    Trim(AfterLastComma(value))
  }

  /** The current term is the last item the comma-separated field parser
      would read from the value. */
  lemma CurrentTermIsLastItem(value: string)
    ensures var pieces := Split(value, ',');
            CurrentTerm(value) == Trim(pieces[|pieces| - 1])
  {
    LastPiece(value, ',');
    AfterLastCommaSlice(value);
  }

  lemma AfterLastCommaSlice(value: string)
    ensures AfterLastComma(value) == value[LastIndexOf(value, ',') + 1..]
  {
    if LastIndexOf(value, ',') < 0 {
      assert value[0..] == value;
    }
  }

  /** An entry of the suggestion source: getAllSubjectIds yields these. */
  predicate Matches(item: IdName, term: string) {
    Contains(Lower(item.id), Lower(term)) || Contains(Lower(item.name), Lower(term))
  }

  /** `allSubjects.filter(...)`: the entries whose id or name contains the
      term, case-insensitively, in their original order. */
  function FilterMatches(items: seq<IdName>, term: string): (r: seq<IdName>)
    ensures |r| <= |items|
  {
    if items == [] then []
    else if Matches(items[0], term) then [items[0]] + FilterMatches(items[1..], term)
    else FilterMatches(items[1..], term)
  }

  /** The filter keeps exactly the matching entries. */
  lemma {:induction false} FilterMatchesMembers(items: seq<IdName>, term: string)
    ensures forall x :: x in FilterMatches(items, term) <==> x in items && Matches(x, term)
    decreases |items|
  {
    if items != [] {
      FilterMatchesMembers(items[1..], term);
      assert items == [items[0]] + items[1..];
    }
  }

  /** Filtering keeps order: it distributes over concatenation. */
  lemma {:induction false} FilterMatchesAppend(a: seq<IdName>, b: seq<IdName>, term: string)
    ensures FilterMatches(a + b, term) == FilterMatches(a, term) + FilterMatches(b, term)
    decreases |a|
  {
    if a != [] {
      assert (a + b)[0] == a[0] && (a + b)[1..] == a[1..] + b;
      FilterMatchesAppend(a[1..], b, term);
    } else {
      assert a + b == b;
    }
  }

  /** `.slice(0, 10)`: the first ten matches. */
  function Suggestions(items: seq<IdName>, term: string): (r: seq<IdName>)
    ensures |r| <= 10
    ensures r <= FilterMatches(items, term)
    ensures |FilterMatches(items, term)| <= 10 ==> r == FilterMatches(items, term)
  {
    var m := FilterMatches(items, term);
    if |m| <= 10 then m else m[..10]
  }

  /** Every suggestion comes from the list and matches the term. */
  lemma SuggestionsMatch(items: seq<IdName>, term: string)
    ensures forall x :: x in Suggestions(items, term) ==> x in items && Matches(x, term)
  {
    FilterMatchesMembers(items, term);
    var r, m := Suggestions(items, term), FilterMatches(items, term);
    forall x | x in r ensures x in m {
      var i :| 0 <= i < |r| && r[i] == x;
      assert m[i] == x;
    }
  }

  /** A matching entry is suggested whenever fewer than ten matches precede it. */
  lemma SuggestedWhenEarly(items: seq<IdName>, term: string, k: int)
    requires 0 <= k < |items| && Matches(items[k], term)
    requires |FilterMatches(items[..k], term)| < 10
    ensures items[k] in Suggestions(items, term)
  {
    assert items == items[..k] + [items[k]] + items[k + 1..];
    FilterMatchesAppend(items[..k] + [items[k]], items[k + 1..], term);
    FilterMatchesAppend(items[..k], [items[k]], term);
    var before := FilterMatches(items[..k], term);
    assert FilterMatches([items[k]], term) == [items[k]];
    assert FilterMatches(items, term)[|before|] == items[k];
  }

  /** The click handler: keep the value through its last comma and append
      `' ' + id + ', '`, or replace the whole value by `id + ', '`. */
  function InsertChoice(value: string, id: string): (r: string)
    ensures |r| >= 2 && r[|r| - 2..] == ", "
    ensures LastIndexOf(value, ',') >= 0 ==> value[..LastIndexOf(value, ',') + 1] <= r
  {
    var lastComma := LastIndexOf(value, ',');
    if lastComma >= 0 then value[..lastComma + 1] + " " + id + ", " else id + ", "
  }

  /** After a choice the term under the cursor is empty. */
  lemma ChoiceClearsTerm(value: string, id: string)
    ensures CurrentTerm(InsertChoice(value, id)) == ""
  {
    var r := InsertChoice(value, id);
    assert r[|r| - 2] == ',' && r[|r| - 1] == ' ';
    var k := LastIndexOf(r, ',');
    assert k == |r| - 2;
    assert r[k + 1..] == " ";
    assert TrimStart(" ") == "";
  }

  lemma ChoiceTailPieces(pad: string, id: string)
    requires AllWhitespace(pad) && ',' !in id
    ensures Split(pad + id + ", ", ',') == [pad + id, " "]
  {
    var x := pad + id;
    WhitespaceHasNoComma(pad);
    assert ',' !in x;
    assert pad + id + ", " == x + [','] + " ";
    SplitConcat(x, ',', " ");
    SplitWithoutSeparator(x, ',');
    SplitWithoutSeparator(" ", ',');
  }

  lemma ChoiceTailTrimmed(pad: string, id: string)
    requires AllWhitespace(pad) && IsTrimmed(id)
    ensures TrimAll([pad + id, " "]) == [id, ""]
  {
    TrimAllPair(pad + id, " ");
    TrimPadFront(pad, id);
    TrimOfTrimmed(id);
    TrimOfSpace();
  }

  lemma TrimAllPair(a: string, b: string)
    ensures TrimAll([a, b]) == [Trim(a), Trim(b)]
  {
    assert [a, b][1..] == [b];
    assert [b][1..] == [];
  }

  lemma TrimOfSpace()
    ensures Trim(" ") == ""
  {
    TrimPadBack("", " ");
  }

  lemma NonEmptyDropsBlank(id: string)
    requires id != ""
    ensures NonEmpty([id, ""]) == [id]
  {
    assert [id, ""][1..] == [""];
    assert NonEmpty([""]) == [];
  }

  /** The text a choice appends holds the chosen id as its only item. */
  lemma ChoiceTailItems(pad: string, id: string)
    requires AllWhitespace(pad) && IsListItem(id)
    ensures NonEmpty(TrimAll(Split(pad + id + ", ", ','))) == [id]
  {
    ChoiceTailPieces(pad, id);
    ChoiceTailTrimmed(pad, id);
    NonEmptyDropsBlank(id);
  }

  /** After a comma, a choice keeps the text before it and puts the id in a
      new piece of its own. */
  lemma InsertAfterComma(value: string, id: string, k: int)
    requires k == LastIndexOf(value, ',') && k >= 0
    ensures InsertChoice(value, id) == value[..k] + [','] + (" " + id + ", ")
  {
    assert value[..k + 1] == value[..k] + [','];
    AppendAssoc4(value[..k + 1], " ", id, ", ");
  }

  lemma AppendAssoc4(h: string, x: string, y: string, z: string)
    ensures h + x + y + z == h + (x + y + z)
  {
  }

  lemma ChoiceAfterComma(value: string, id: string, k: int)
    requires IsListItem(id) && k == LastIndexOf(value, ',') && k >= 0
    ensures ParseIdList(InsertChoice(value, id)) == ParseIdList(value[..k]) + [id]
  {
    var tail := " " + id + ", ";
    InsertAfterComma(value, id, k);
    ParseIdListAppend(value[..k], tail);
    assert ParseIdList(tail) == [id] by {
      ParseIdListPieces(tail);
      ChoiceTailItems(" ", id);
    }
  }

  lemma ChoiceWithoutComma(value: string, id: string)
    requires IsListItem(id) && LastIndexOf(value, ',') < 0
    ensures ParseIdList(InsertChoice(value, id)) == [id]
  {
    var r := InsertChoice(value, id);
    assert r == "" + id + ", ";
    ParseIdListPieces(r);
    ChoiceTailItems("", id);
  }

  /** Choosing a suggestion keeps the items before the last comma and adds the
      chosen id as the last item of the field. */
  lemma ChoiceAddsItem(value: string, id: string)
    requires IsListItem(id)
    ensures var k := LastIndexOf(value, ',');
            ParseIdList(InsertChoice(value, id))
            == (if k >= 0 then ParseIdList(value[..k]) else []) + [id]
  {
    var k := LastIndexOf(value, ',');
    if k >= 0 {
      ChoiceAfterComma(value, id, k);
    } else {
      ChoiceWithoutComma(value, id);
    }
  }

  // ---------------------------------------------------------------------
  // Autocomplete: the keyboard selection
  // ---------------------------------------------------------------------

  /** `Math.min(selectedIndex + 1, n - 1)`. */
  function ArrowDownIndex(i: int, n: int): (r: int)
    requires n >= 1 && -1 <= i < n
    ensures 0 <= r < n
    ensures r == i + 1 || (r == i && i == n - 1)
  {
    if i + 1 < n - 1 then i + 1 else n - 1
  }

  /** `Math.max(selectedIndex - 1, 0)`. */
  function ArrowUpIndex(i: int, n: int): (r: int)
    requires n >= 1 && -1 <= i < n
    ensures 0 <= r < n
    ensures r == i - 1 || (r == 0 && i <= 0)
  {
    if i - 1 > 0 then i - 1 else 0
  }

  datatype Key = ArrowDown | ArrowUp | Enter | Escape | OtherKey

  /** One autocomplete-enabled input and its suggestion container. */
  class Autocomplete {
    /** The input's text. */
    var value: string
    /** The suggestions last rendered into the container. */
    var shown: seq<IdName>
    /** Whether the container carries the 'active' class. */
    var active: bool
    var selectedIndex: int

    ghost predicate Valid()
      reads this
    {
      |shown| <= 10 && -1 <= selectedIndex < |shown|
      && (active ==> shown != [])
    }

    constructor (value0: string)
      ensures value == value0 && shown == [] && !active && selectedIndex == -1
      ensures Valid()
    {
      value := value0;
      shown := [];
      active := false;
      selectedIndex := -1;
    }

    /** The 'input' handler: an empty term deactivates the container; so does
        a term nothing matches; otherwise the first ten matches are shown and
        the selection is reset. The old list stays rendered when inactive. */
    method OnInput(typed: string, subjects: TierMap)
      requires Valid()
      modifies this
      ensures Valid()
      ensures value == typed
      ensures var m := Suggestions(IdNames(AllSubjects(subjects)), CurrentTerm(typed));
              active <==> CurrentTerm(typed) != "" && m != []
      ensures active ==> shown == Suggestions(IdNames(AllSubjects(subjects)), CurrentTerm(typed))
                         && selectedIndex == -1
      ensures !active ==> shown == old(shown) && selectedIndex == old(selectedIndex)
    {
      value := typed;
      var currentTerm := CurrentTerm(typed);
      if |currentTerm| < 1 {
        active := false;
        return;
      }
      var allSubjects := GetAllSubjectIds(subjects);
      var matches := Suggestions(allSubjects, currentTerm);
      if |matches| == 0 {
        active := false;
        return;
      }
      shown := matches;
      active := true;
      selectedIndex := -1;
    }

    /** A click on a suggestion: the chosen id replaces the current term. */
    method Choose(id: string)
      requires Valid()
      modifies this
      ensures Valid()
      ensures value == InsertChoice(old(value), id)
      ensures !active && shown == old(shown) && selectedIndex == old(selectedIndex)
    {
      value := InsertChoice(value, id);
      active := false;
    }

    /** The 'keydown' handler; keys do nothing while the container is inactive
        or empty. */
    method OnKey(key: Key)
      requires Valid()
      modifies this
      ensures Valid()
      ensures shown == old(shown)
      ensures !old(active) || old(shown) == [] ==> unchanged(this)
      ensures old(active) && old(shown) != [] ==>
        match key
        case ArrowDown =>
          && selectedIndex == ArrowDownIndex(old(selectedIndex), |shown|)
          && value == old(value) && active
        case ArrowUp =>
          && selectedIndex == ArrowUpIndex(old(selectedIndex), |shown|)
          && selectedIndex >= 0 && value == old(value) && active
        case Enter =>
          if old(selectedIndex) >= 0 then
            && value == InsertChoice(old(value), shown[old(selectedIndex)].id)
            && !active && selectedIndex == old(selectedIndex)
          else unchanged(this)
        case Escape => !active && value == old(value) && selectedIndex == old(selectedIndex)
        case OtherKey => unchanged(this)
    {
      if !active || |shown| == 0 {
        return;
      }
      match key
      case ArrowDown =>
        selectedIndex := ArrowDownIndex(selectedIndex, |shown|);
      case ArrowUp =>
        selectedIndex := ArrowUpIndex(selectedIndex, |shown|);
      case Enter =>
        if selectedIndex >= 0 {
          Choose(shown[selectedIndex].id);
        }
      case Escape =>
        active := false;
      case OtherKey =>
    }

    /** A click outside the input and the container closes the suggestions. */
    method OnOutsideClick()
      requires Valid()
      modifies this
      ensures Valid()
      ensures !active && value == old(value) && shown == old(shown)
              && selectedIndex == old(selectedIndex)
    {
      active := false;
    }
  }
}
