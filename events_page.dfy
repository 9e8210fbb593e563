/**
 * The events listing page: `uniqueLocations`, the choices of the location
 * filter, and `filteredAndSortedEvents`, the events shown for the current
 * search query, filters and sort option.
 */
module EventsPage {
  import opened Seqs
  import opened Text
  import opened EventModel

  // ---- uniqueLocations ----

  function LocationOf(e: EventRecord): string {
    e.location
  }

  /** The mapped locations are exactly the events' locations. */
  lemma LocationsMembers(events: seq<EventRecord>)
    ensures forall x :: x in Map(events, LocationOf) <==> exists i :: 0 <= i < |events| && events[i].location == x
  {
    var locations := Map(events, LocationOf);
    forall x | x in locations ensures exists i :: 0 <= i < |events| && events[i].location == x {
      var i :| 0 <= i < |locations| && locations[i] == x;
      assert events[i].location == x;
    }
    forall x | exists i :: 0 <= i < |events| && events[i].location == x ensures x in locations {
      var i :| 0 <= i < |events| && events[i].location == x;
      assert locations[i] == x;
    }
  }

  /**
   * `Array.from(new Set(events.map(e => e.location))).sort()`: every location
   * once, in the code-unit order of the default `sort`.
   */
  function UniqueLocations(events: seq<EventRecord>): (r: seq<string>)
    ensures NoDuplicates(r)
    ensures forall i, j :: 0 <= i < j < |r| ==> LexLe(r[i], r[j])
    ensures forall x :: x in r <==> exists i :: 0 <= i < |events| && events[i].location == x
  {
    LexLeTotalPreorder();
    var distinct := Dedup(Map(events, LocationOf));
    var r := Sort(distinct, LexLe);
    PermutationKeepsNoDuplicates(distinct, r);
    PermutationMembers(distinct, r);
    LocationsMembers(events);
    r
  }

  /** Sorted and duplicate-free: the locations strictly increase in the code-unit order. */
  lemma UniqueLocationsIncrease(events: seq<EventRecord>)
    ensures var r := UniqueLocations(events);
      forall i, j :: 0 <= i < j < |r| ==> LexLe(r[i], r[j]) && !LexLe(r[j], r[i])
  {
    var r := UniqueLocations(events);
    forall i, j | 0 <= i < j < |r| ensures !LexLe(r[j], r[i]) {
      if LexLe(r[j], r[i]) {
        LexLeAntisymmetric(r[i], r[j]);
      }
    }
  }

  // ---- filteredAndSortedEvents ----

  datatype SortOption = Newest | Oldest | TitleAsc | TitleDesc

  /** `tags.some(tag => tag.toLowerCase().includes(query))`. */
  predicate SomeTagHas(tags: seq<string>, query: string) {
    exists i :: 0 <= i < |tags| && Contains(Lower(tags[i]), query)
  }

  /** The search test, for the lower-cased query `query`. */
  predicate SearchHit(e: EventRecord, query: string) {
    || Contains(Lower(e.title), query)
    || Contains(Lower(e.description), query)
    || Contains(Lower(e.location), query)
    || SomeTagHas(e.tags, query)
  }

  function Searched(query: string): EventRecord -> bool {
    (e: EventRecord) => SearchHit(e, query)
  }

  function WithMode(mode: string): EventRecord -> bool {
    (e: EventRecord) => e.mode == mode
  }

  function AtLocation(location: string): EventRecord -> bool {
    (e: EventRecord) => e.location == location
  }

  /** An event the page shows: it passes every filter that is switched on. */
  predicate Shown(e: EventRecord, searchQuery: string, filterMode: string, filterLocation: string) {
    && (|Trim(searchQuery)| > 0 ==> SearchHit(e, Lower(searchQuery)))
    && (filterMode != "all" ==> e.mode == filterMode)
    && (filterLocation != "all" ==> e.location == filterLocation)
  }

  function SearchPasses(searchQuery: string): EventRecord -> bool {
    (e: EventRecord) => |Trim(searchQuery)| > 0 ==> SearchHit(e, Lower(searchQuery))
  }

  function ModePasses(filterMode: string): EventRecord -> bool {
    (e: EventRecord) => filterMode != "all" ==> e.mode == filterMode
  }

  function LocationPasses(filterLocation: string): EventRecord -> bool {
    (e: EventRecord) => filterLocation != "all" ==> e.location == filterLocation
  }

  /** `Shown` as a test, built from the three stages. */
  function ShownBy(searchQuery: string, filterMode: string, filterLocation: string): EventRecord -> bool {
    Both(Both(SearchPasses(searchQuery), ModePasses(filterMode)), LocationPasses(filterLocation))
  }

  /**
   * What each option's comparator means as an order: `Order(o)(a, b)` when
   * the comparator does not put `b` strictly before `a`. `collate` is
   * `localeCompare` as a total preorder on titles.
   */
  function Order(sortBy: SortOption, collate: (string, string) -> bool): (EventRecord, EventRecord) -> bool {
    match sortBy
    case Newest => (a: EventRecord, b: EventRecord) => a.createdAt >= b.createdAt
    case Oldest => (a: EventRecord, b: EventRecord) => a.createdAt <= b.createdAt
    case TitleAsc => (a: EventRecord, b: EventRecord) => collate(a.title, b.title)
    case TitleDesc => (a: EventRecord, b: EventRecord) => collate(b.title, a.title)
  }

  lemma OrderTotalPreorder(sortBy: SortOption, collate: (string, string) -> bool)
    requires TotalPreorder(collate)
    ensures TotalPreorder(Order(sortBy, collate))
  {
    var le := Order(sortBy, collate);
    if sortBy == TitleAsc || sortBy == TitleDesc {
      forall a: EventRecord, b: EventRecord, c: EventRecord | le(a, b) && le(b, c) ensures le(a, c) {
        if sortBy == TitleAsc {
          assert collate(a.title, b.title) && collate(b.title, c.title);
        } else {
          assert collate(c.title, b.title) && collate(b.title, a.title);
        }
      }
      forall a: EventRecord, b: EventRecord ensures le(a, b) || le(b, a) {
        assert collate(a.title, b.title) || collate(b.title, a.title);
      }
    }
  }

  /** What each sort option's order says about the positions of a sorted list. */
  lemma SortedMeaning(s: seq<EventRecord>, sortBy: SortOption, collate: (string, string) -> bool)
    requires SortedBy(s, Order(sortBy, collate))
    ensures sortBy == Newest ==> forall i, j :: 0 <= i < j < |s| ==> s[i].createdAt >= s[j].createdAt
    ensures sortBy == Oldest ==> forall i, j :: 0 <= i < j < |s| ==> s[i].createdAt <= s[j].createdAt
    ensures sortBy == TitleAsc ==> forall i, j :: 0 <= i < j < |s| ==> collate(s[i].title, s[j].title)
    ensures sortBy == TitleDesc ==> forall i, j :: 0 <= i < j < |s| ==> collate(s[j].title, s[i].title)
  {
    var le := Order(sortBy, collate);
    assert forall i, j :: 0 <= i < j < |s| ==> le(s[i], s[j]);
  }

  /** A query that is blank after trimming switches the search off: with the other filters off, everything is shown. */
  lemma BlankQueryShowsAll(events: seq<EventRecord>, searchQuery: string)
    requires Blank(searchQuery)
    ensures Filter(events, ShownBy(searchQuery, "all", "all")) == events
  {
    BlankTest(searchQuery);
    FilterAll(events, ShownBy(searchQuery, "all", "all"));
  }

  /** The events shown are the subsequence of `events` that passes every active filter. */
  lemma ShownSubsequence(events: seq<EventRecord>, searchQuery: string, filterMode: string, filterLocation: string)
    ensures var shown := Filter(events, ShownBy(searchQuery, filterMode, filterLocation));
      && IsSubsequence(shown, events)
      && |shown| <= |events|
      && forall e :: e in shown <==> e in events && Shown(e, searchQuery, filterMode, filterLocation)
  {
    var p := ShownBy(searchQuery, filterMode, filterLocation);
    FilterIsSubsequence(events, p);
    FilterMembers(events, p);
  }

  /**
   * `filteredAndSortedEvents`: a copy of `events`, narrowed by each active
   * filter in turn, then sorted by the chosen comparator. The result is a
   * permutation of the shown subsequence, in the chosen order.
   */
  method FilteredAndSorted(events: seq<EventRecord>, searchQuery: string, sortBy: SortOption, filterMode: string,
                           filterLocation: string, collate: (string, string) -> bool) returns (filtered: seq<EventRecord>)
    requires TotalPreorder(collate)
    ensures multiset(filtered) == multiset(Filter(events, ShownBy(searchQuery, filterMode, filterLocation)))
    ensures sortBy == Newest ==> forall i, j :: 0 <= i < j < |filtered| ==> filtered[i].createdAt >= filtered[j].createdAt
    ensures sortBy == Oldest ==> forall i, j :: 0 <= i < j < |filtered| ==> filtered[i].createdAt <= filtered[j].createdAt
    ensures sortBy == TitleAsc ==> forall i, j :: 0 <= i < j < |filtered| ==> collate(filtered[i].title, filtered[j].title)
    ensures sortBy == TitleDesc ==> forall i, j :: 0 <= i < j < |filtered| ==> collate(filtered[j].title, filtered[i].title)
  {
    var search, mode, location := SearchPasses(searchQuery), ModePasses(filterMode), LocationPasses(filterLocation);
    filtered := events;
    if |Trim(searchQuery)| > 0 {
      var query := Lower(searchQuery);
      filtered := Filter(filtered, Searched(query));
      FilterSame(events, Searched(query), search);
    } else {
      FilterAll(events, search);
    }
    ghost var searched := filtered;
    if filterMode != "all" {
      filtered := Filter(filtered, WithMode(filterMode));
      FilterSame(searched, WithMode(filterMode), mode);
    } else {
      FilterAll(searched, mode);
    }
    ghost var moded := filtered;
    if filterLocation != "all" {
      filtered := Filter(filtered, AtLocation(filterLocation));
      FilterSame(moded, AtLocation(filterLocation), location);
    } else {
      FilterAll(moded, location);
    }
    FilterFilter(events, search, mode, Both(search, mode));
    FilterFilter(events, Both(search, mode), location, ShownBy(searchQuery, filterMode, filterLocation));
    OrderTotalPreorder(sortBy, collate);
    filtered := Sort(filtered, Order(sortBy, collate));
    SortedMeaning(filtered, sortBy, collate);
  }
}
