/** The library page (src/pages/Home.tsx): the search-and-status filter over the collection
    and what the page shows for it. */
module Home {
  import opened Wrappers
  import opened Types
  import opened Seqs
  import opened JsString

  /** The status filter: 'All' or one status. */
  datatype StatusFilter = All | Only(status: Status)

  /** An item is shown when its lowered title includes the lowered query and its status passes the filter. */
  predicate Matches(item: Series, query: string, filter: StatusFilter) {
    Includes(Lower(item.title), Lower(query)) && (filter.All? || item.status == filter.status)
  }

  /** filteredSeries. */
  function FilterSeries(series: seq<Series>, query: string, filter: StatusFilter): (r: seq<Series>)
    ensures |r| <= |series|
  {
    Filter(series, (x: Series) => Matches(x, query, filter))
  }

  /** The items the filter hides. */
  function HiddenSeries(series: seq<Series>, query: string, filter: StatusFilter): (r: seq<Series>)
    ensures |r| <= |series|
  {
    Filter(series, (x: Series) => !Matches(x, query, filter))
  }

  /** The result is an order-preserving selection of the collection, holding exactly the matching
      items, each as often as the collection holds it: shown and hidden items together are the collection. */
  lemma FilterSeriesSpec(series: seq<Series>, query: string, filter: StatusFilter)
    ensures IsSubsequence(FilterSeries(series, query, filter), series)
    ensures forall x :: x in FilterSeries(series, query, filter) <==>
      x in series && Includes(Lower(x.title), Lower(query)) && (filter.All? || x.status == filter.status)
    ensures forall x :: x in HiddenSeries(series, query, filter) <==> x in series && !Matches(x, query, filter)
    ensures multiset(FilterSeries(series, query, filter)) + multiset(HiddenSeries(series, query, filter))
      == multiset(series)
  {
    var q := (x: Series) => !Matches(x, query, filter);
    FilterPartition(series, (x: Series) => Matches(x, query, filter), q);
    forall x ensures x in HiddenSeries(series, query, filter) <==> x in series && q(x) {
      FilterMembership(series, q, x);
    }
    var p := (x: Series) => Matches(x, query, filter);
    FilterIsSubsequence(series, p);
    forall x ensures x in FilterSeries(series, query, filter) <==> x in series && p(x) {
      FilterMembership(series, p, x);
    }
  }

  /** With an empty query and the 'All' filter every item is shown, in collection order. */
  lemma FilterSeriesShowsAll(series: seq<Series>)
    ensures FilterSeries(series, "", All) == series
  {
    forall i | 0 <= i < |series| ensures Matches(series[i], "", All) {
      IncludesEmpty(Lower(series[i].title));
    }
    FilterAll(series, (x: Series) => Matches(x, "", All));
  }

  /** The search ignores the letter case of the query: queries equal after lowering give the same result. */
  lemma FilterSeriesIgnoresQueryCase(series: seq<Series>, q1: string, q2: string, filter: StatusFilter)
    requires Lower(q1) == Lower(q2)
    ensures FilterSeries(series, q1, filter) == FilterSeries(series, q2, filter)
  {
    FilterCongruent(series, (x: Series) => Matches(x, q1, filter), (x: Series) => Matches(x, q2, filter));
  }

  /** Lowering the query first, in particular, changes nothing. */
  lemma FilterSeriesLoweredQuery(series: seq<Series>, query: string, filter: StatusFilter)
    ensures FilterSeries(series, Lower(query), filter) == FilterSeries(series, query, filter)
  {
    LowerIdempotent(query);
    FilterSeriesIgnoresQueryCase(series, Lower(query), query, filter);
  }

  /** The text under "No series found". */
  datatype Hint = AdjustFilters | StartTracking

  /** The empty state: its hint and whether the "Add First Series" button is there. */
  datatype EmptyState = EmptyState(hint: Hint, addFirstButton: bool)

  /** What the page shows: the spinner, or the header count with either the cards or the empty state. */
  datatype HomeView =
    | Spinner
    | Library(count: nat, cards: seq<Series>, empty: Option<EmptyState>)

  /** The page for the store's state and the two filter inputs. */
  function HomeScreen(isLoading: bool, series: seq<Series>, query: string, filter: StatusFilter): (v: HomeView)
    ensures v.Spinner? <==> isLoading
    ensures v.Library? ==> v.count == |series| && v.cards == FilterSeries(series, query, filter)
    ensures v.Library? ==> (v.empty.Some? <==> |v.cards| == 0)
    ensures v.Library? ==>
      ((v.empty.Some? && v.empty.value.addFirstButton) <==> (|series| == 0 && query == "" && filter == All))
    ensures v.Library? && v.empty.Some? ==>
      (v.empty.value.hint == StartTracking <==> v.empty.value.addFirstButton)
  {
    if isLoading then Spinner
    else
      var shown := FilterSeries(series, query, filter);
      assert query == "" && filter == All ==> shown == series by {
        if query == "" && filter == All {
          FilterSeriesShowsAll(series);
        }
      }
      Library(|series|, shown,
        if |shown| == 0 then
          Some(EmptyState(if query != "" || !filter.All? then AdjustFilters else StartTracking,
                          query == "" && filter.All?))
        else None)
  }
}
