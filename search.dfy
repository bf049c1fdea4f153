/** The cross-entity search view (src/components/search.tsx): a
    case-insensitive substring query over notes, tasks and events, ANDed
    with a type filter and a category filter, ranked by relevance. */
module Search {
  import opened Text
  import opened Arrays

  /** One searchable record. `kind` is "note", "task" or "event"; tasks and
      events carry no tags, which the query treats like an empty tag list.
      `relevance` is the record's fixed score in hundredths (0.95 is 95). */
  datatype Item = Item(
    id: int,
    kind: string,
    title: string,
    content: string,
    category: string,
    tags: seq<string>,
    relevance: int)

  /** The text predicate of `matchesQuery`; the empty query matches every
      item. */
  predicate MatchesQuery(item: Item, query: string)
    ensures query == "" ==> MatchesQuery(item, query)
  {
    EmptyTermMatches(item.title, item.content, item.tags);
    TextMatches(item.title, item.content, item.tags, query)
  }

  /** The type filter: "all" or the item's own kind. */
  predicate MatchesFilter(item: Item, selectedFilter: string)
  {
    selectedFilter == "all" || item.kind == selectedFilter
  }

  /** The category filter: "All" (capital A) or the item's own category. */
  predicate MatchesCategory(item: Item, selectedCategory: string)
  {
    selectedCategory == "All" || item.category == selectedCategory
  }

  /** All three tests of the filter callback; an empty query with both
      filters open keeps every item. */
  predicate Keep(item: Item, query: string, selectedFilter: string, selectedCategory: string)
    ensures query == "" && selectedFilter == "all" && selectedCategory == "All"
            ==> Keep(item, query, selectedFilter, selectedCategory)
  {
    MatchesQuery(item, query) && MatchesFilter(item, selectedFilter)
    && MatchesCategory(item, selectedCategory)
  }

  /** The comparator `(a, b) => b.relevance - a.relevance` sorts by this
      key ascending, that is by relevance descending. */
  function RelevanceRank(item: Item): int
  {
    -item.relevance
  }

  /** The filtering half of `performSearch`. */
  function Matching(items: seq<Item>, query: string, selectedFilter: string, selectedCategory: string): seq<Item>
  {
    Filter(item => Keep(item, query, selectedFilter, selectedCategory), items)
  }

  /** `performSearch`: filter, then stable sort by descending relevance. */
  function PerformSearch(items: seq<Item>, query: string, selectedFilter: string, selectedCategory: string): (r: seq<Item>)
    ensures |r| <= |items|
  {
    var m := Matching(items, query, selectedFilter, selectedCategory);
    SortByPermutes(m, RelevanceRank);
    assert |SortBy(m, RelevanceRank)| == |multiset(m)|;
    SortBy(m, RelevanceRank)
  }

  /** Search is exact: each record occurs in the results as often as in
      the input when it satisfies the three predicates, and never otherwise. */
  lemma {:induction false} SearchCount(items: seq<Item>, query: string, selectedFilter: string, selectedCategory: string, item: Item)
    ensures multiset(PerformSearch(items, query, selectedFilter, selectedCategory))[item]
         == if Keep(item, query, selectedFilter, selectedCategory) then multiset(items)[item] else 0
  {
    var m := Matching(items, query, selectedFilter, selectedCategory);
    SortByPermutes(m, RelevanceRank);
    FilterCount(item => Keep(item, query, selectedFilter, selectedCategory), items, item);
  }

  /** Results are in non-increasing relevance. */
  lemma {:induction false} SearchRanked(items: seq<Item>, query: string, selectedFilter: string, selectedCategory: string)
    ensures var r := PerformSearch(items, query, selectedFilter, selectedCategory);
            forall i, j :: 0 <= i < j < |r| ==> r[i].relevance >= r[j].relevance
  {
    var m := Matching(items, query, selectedFilter, selectedCategory);
    SortBySorted(m, RelevanceRank);
    var r := SortBy(m, RelevanceRank);
    forall i, j | 0 <= i < j < |r|
      ensures r[i].relevance >= r[j].relevance
    {
      assert RelevanceRank(r[i]) <= RelevanceRank(r[j]);
    }
  }

  /** Records of equal relevance keep their input order (the sort is stable). */
  lemma {:induction false} SearchStable(items: seq<Item>, query: string, selectedFilter: string, selectedCategory: string, v: int)
    ensures WithKey(PerformSearch(items, query, selectedFilter, selectedCategory), RelevanceRank, -v)
         == WithKey(Matching(items, query, selectedFilter, selectedCategory), RelevanceRank, -v)
  {
    SortByStable(Matching(items, query, selectedFilter, selectedCategory), RelevanceRank, -v);
  }

  /** Every result satisfies all three predicates; in particular a type
      filter other than "all" admits only its own kind and a category other
      than "All" only its own category. */
  lemma ResultsMatch(items: seq<Item>, query: string, selectedFilter: string, selectedCategory: string, item: Item)
    requires item in PerformSearch(items, query, selectedFilter, selectedCategory)
    ensures MatchesQuery(item, query)
    ensures selectedFilter != "all" ==> item.kind == selectedFilter
    ensures selectedCategory != "All" ==> item.category == selectedCategory
  {
    SearchCount(items, query, selectedFilter, selectedCategory, item);
  }

  /** An input item is found exactly when it satisfies all three predicates. */
  lemma FoundIff(items: seq<Item>, query: string, selectedFilter: string, selectedCategory: string, item: Item)
    ensures item in PerformSearch(items, query, selectedFilter, selectedCategory)
        <==> item in items && Keep(item, query, selectedFilter, selectedCategory)
  {
    SearchCount(items, query, selectedFilter, selectedCategory, item);
  }

  /** The empty query with both filters open returns every item. */
  lemma EmptyQueryKeepsAll(items: seq<Item>)
    ensures multiset(PerformSearch(items, "", "all", "All")) == multiset(items)
  {
    var r := PerformSearch(items, "", "all", "All");
    forall item
      ensures multiset(r)[item] == multiset(items)[item]
    {
      SearchCount(items, "", "all", "All", item);
      EmptyTermMatches(item.title, item.content, item.tags);
    }
  }

  /** The icon a result is drawn with. */
  datatype Icon = FileTextIcon | CheckSquareIcon | CalendarIcon | SearchIcon

  /** The colour scheme of a result's badge. */
  datatype Tint = BlueTint | GreenTint | OrangeTint | GrayTint

  predicate IsKnownKind(kind: string)
  {
    kind == "note" || kind == "task" || kind == "event"
  }

  /** `getItemIcon`. */
  function ItemIcon(kind: string): (r: Icon)
    ensures r == SearchIcon <==> !IsKnownKind(kind)
  {
    match kind
    case "note" => FileTextIcon
    case "task" => CheckSquareIcon
    case "event" => CalendarIcon
    case _ => SearchIcon
  }

  /** `getItemColor`. */
  function ItemColor(kind: string): (r: Tint)
    ensures r == GrayTint <==> !IsKnownKind(kind)
  {
    match kind
    case "note" => BlueTint
    case "task" => GreenTint
    case "event" => OrangeTint
    case _ => GrayTint
  }

  /** The icon and the tint pick the same branch for every kind. */
  lemma IconAndTintAgree(kind: string)
    ensures (ItemIcon(kind) == FileTextIcon) == (ItemColor(kind) == BlueTint)
    ensures (ItemIcon(kind) == CheckSquareIcon) == (ItemColor(kind) == GreenTint)
    ensures (ItemIcon(kind) == CalendarIcon) == (ItemColor(kind) == OrangeTint)
  {
  }

  /** The state of the search view. The pending 300 ms timer is
      `timerArmed`; it fires through `FireTimer`. */
  class SearchView {
    const items: seq<Item>
    var query: string
    var selectedFilter: string
    var selectedCategory: string
    var results: seq<Item>
    var isSearching: bool
    var hasSearched: bool
    var timerArmed: bool

    /** A timer is armed only for a non-blank query and only while
        "searching" is shown; results exist only after a search ran, and
        once no search is pending they are the search of the current
        query and filters. */
    ghost predicate Valid()
      reads this
    {
      && (timerArmed ==> !Blank(query) && isSearching)
      && (!hasSearched ==> results == [])
      && (hasSearched ==> !Blank(query))
      && (hasSearched && !timerArmed ==> results == PerformSearch(items, query, selectedFilter, selectedCategory))
    }

    /** The view as mounted: empty query, both filters open. */
    constructor (items: seq<Item>)
      ensures Valid()
      ensures this.items == items && query == "" && selectedFilter == "all" && selectedCategory == "All"
      ensures results == [] && !isSearching && !hasSearched && !timerArmed
    {
      this.items := items;
      query, selectedFilter, selectedCategory := "", "all", "All";
      results, isSearching, hasSearched, timerArmed := [], false, false, false;
    }

    /** The effect that runs after the query or a filter changed: the old
        timer is cancelled, and a non-blank query arms a new one while a
        blank one clears the results at once. */
    method RunEffect()
      modifies this
      ensures query == old(query)
      ensures selectedFilter == old(selectedFilter) && selectedCategory == old(selectedCategory)
      ensures !Blank(query) ==> timerArmed && isSearching
                                     && results == old(results) && hasSearched == old(hasSearched)
      ensures Blank(query) ==> !timerArmed && results == [] && !hasSearched
                                     && isSearching == old(isSearching)
    {
      if Trim(query) != "" {
        isSearching := true;
        timerArmed := true;
      } else {
        results := [];
        hasSearched := false;
        timerArmed := false;
      }
    }

    /** Typing in the box or picking a quick search (`setSearchQuery`). */
    method SetQuery(q: string)
      requires Valid()
      modifies this
      ensures Valid()
      ensures query == q && selectedFilter == old(selectedFilter) && selectedCategory == old(selectedCategory)
      ensures q == old(query) ==>
        results == old(results) && isSearching == old(isSearching)
        && hasSearched == old(hasSearched) && timerArmed == old(timerArmed)
      ensures q != old(query) && Blank(q) ==>
        results == [] && !hasSearched && !timerArmed
        && isSearching == old(isSearching)
      ensures q != old(query) && !Blank(q) ==>
        timerArmed && isSearching
        && results == old(results) && hasSearched == old(hasSearched)
    {
      if q != query {
        query := q;
        RunEffect();
      }
    }

    /** Picking a type tab. */
    method SetFilter(f: string)
      requires Valid()
      modifies this
      ensures Valid()
      ensures selectedFilter == f && query == old(query) && selectedCategory == old(selectedCategory)
      ensures f == old(selectedFilter) ==>
        results == old(results) && isSearching == old(isSearching)
        && hasSearched == old(hasSearched) && timerArmed == old(timerArmed)
      ensures f != old(selectedFilter) && Blank(query) ==>
        results == [] && !hasSearched && !timerArmed
        && isSearching == old(isSearching)
      ensures f != old(selectedFilter) && !Blank(query) ==>
        timerArmed && isSearching
        && results == old(results) && hasSearched == old(hasSearched)
    {
      if f != selectedFilter {
        selectedFilter := f;
        RunEffect();
      }
    }

    /** Picking a category. */
    method SetCategory(c: string)
      requires Valid()
      modifies this
      ensures Valid()
      ensures selectedCategory == c && query == old(query) && selectedFilter == old(selectedFilter)
      ensures c == old(selectedCategory) ==>
        results == old(results) && isSearching == old(isSearching)
        && hasSearched == old(hasSearched) && timerArmed == old(timerArmed)
      ensures c != old(selectedCategory) && Blank(query) ==>
        results == [] && !hasSearched && !timerArmed
        && isSearching == old(isSearching)
      ensures c != old(selectedCategory) && !Blank(query) ==>
        timerArmed && isSearching
        && results == old(results) && hasSearched == old(hasSearched)
    {
      if c != selectedCategory {
        selectedCategory := c;
        RunEffect();
      }
    }

    /** The debounce timer fires: the search runs with the current query
        and filters. Without an armed timer nothing happens. */
    method FireTimer()
      requires Valid()
      modifies this
      ensures Valid()
      ensures old(timerArmed) ==> results == PerformSearch(items, query, selectedFilter, selectedCategory)
                                   && hasSearched && !isSearching && !timerArmed
      ensures !old(timerArmed) ==> results == old(results) && hasSearched == old(hasSearched)
                                    && isSearching == old(isSearching) && !timerArmed
      ensures query == old(query) && selectedFilter == old(selectedFilter) && selectedCategory == old(selectedCategory)
    {
      if timerArmed {
        results := PerformSearch(items, query, selectedFilter, selectedCategory);
        isSearching := false;
        hasSearched := true;
        timerArmed := false;
      }
    }

    /** `clearSearch`: empties the query and the results. */
    method ClearSearch()
      requires Valid()
      modifies this
      ensures Valid()
      ensures query == "" && results == [] && !hasSearched && !timerArmed
      ensures isSearching == old(isSearching)
      ensures selectedFilter == old(selectedFilter) && selectedCategory == old(selectedCategory)
    {
      var changed := query != "";
      query, results, hasSearched := "", [], false;
      if changed {
        RunEffect();
      }
    }
  }
}
