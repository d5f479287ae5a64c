/** The state of the `App` component and the handlers that change it: the enrichment
    effect (`fetchData`), the author search and the reset. */
module App {
  import opened Wrappers
  import opened JsString
  import opened Enrichment
  import opened AuthorFilter

  /** `books`, `mergedData` (the canonical set), `filteredData` (the view) and `loading`. */
  datatype AppState = AppState(
    books: seq<Entry>,
    merged: seq<Record>,
    filtered: seq<Record>,
    loading: bool)

  /** The state before anything has been fetched. */
  const Initial: AppState := AppState([], [], [], true)

  /** `fetchData` once every lookup of the current `books` has settled: nothing happens for
      an empty list or a failed batch; otherwise both sets become the joined records and
      loading ends. */
  function FetchData(st: AppState, resps: seq<Responses>): (st': AppState)
    requires |resps| == |st.books|
    ensures st'.books == st.books
    ensures |st.books| == 0 ==> st' == st
    ensures !AllSucceed(st.books, resps) ==> st' == st
    ensures |st.books| > 0 && AllSucceed(st.books, resps) ==>
      && !st'.loading
      && st'.filtered == st'.merged
      && |st'.merged| == |st.books|
      && forall k :: 0 <= k < |st.books| ==>
           EntrySucceeds(st.books[k], resps[k]) && BuiltFrom(st'.merged[k], st.books[k], resps[k], k)
  {
    if |st.books| == 0 then st
    else
      match Join(st.books, resps)
      case None => st
      case Some(results) => st.(merged := results, filtered := results, loading := false)
  }

  /** `handleSearch(query)`: an empty query shows the canonical set again; otherwise the view
      becomes the records whose lower-cased author contains the lower-cased query, unless a
      record without author makes the filter throw, which leaves the view as it was. */
  function HandleSearch(st: AppState, query: string): (st': AppState)
    ensures st'.books == st.books && st'.merged == st.merged && st'.loading == st.loading
    ensures query == "" ==> st'.filtered == st.merged
    ensures query != "" && Authored(st.merged) ==> SelectsMatches(st'.filtered, st.merged, Lower(query))
    ensures query != "" && !Authored(st.merged) ==> st' == st
  {
    if query == "" then st.(filtered := st.merged)
    else
      match FilterByAuthor(st.merged, Lower(query))
      case None => st
      case Some(filtered) => st.(filtered := filtered)
  }

  /** `handleReset()`: the view shows the canonical set, which itself is untouched. */
  function HandleReset(st: AppState): (st': AppState)
    ensures st'.filtered == st.merged
    ensures st'.books == st.books && st'.merged == st.merged && st'.loading == st.loading
  {
    st.(filtered := st.merged)
  }

  /** The search is case-insensitive: queries equal up to case give the same state. */
  lemma SearchIgnoresCase(st: AppState, q1: string, q2: string)
    requires Lower(q1) == Lower(q2)
    ensures HandleSearch(st, q1) == HandleSearch(st, q2)
  {
    assert q1 == "" <==> q2 == "" by {
      assert |q1| == |Lower(q1)| && |q2| == |Lower(q2)|;
    }
  }

  /** Searching for `q` and for its lower-cased form is the same. */
  lemma SearchLowerCaseQuery(st: AppState, q: string)
    ensures HandleSearch(st, q) == HandleSearch(st, Lower(q))
  {
    LowerIdempotent(q);
    SearchIgnoresCase(st, q, Lower(q));
  }

  /** A non-empty search shows every copy of each matching canonical record and nothing else. */
  lemma SearchKeepsCopies(st: AppState, query: string)
    requires query != "" && Authored(st.merged)
    ensures var shown := multiset(HandleSearch(st, query).filtered);
      forall x :: shown[x] == (if Matches(x, Lower(query)) then multiset(st.merged)[x] else 0)
  {
    FilterKeepsCopies(st.merged, Lower(query));
  }

  /** An empty search is a reset. */
  lemma EmptySearchIsReset(st: AppState)
    ensures HandleSearch(st, "") == HandleReset(st)
  {
  }

  /** Over records that all have an author, a non-empty query no author contains empties the view. */
  lemma SearchWithoutMatchEmptiesView(st: AppState, query: string)
    requires query != "" && Authored(st.merged)
    requires forall k :: 0 <= k < |st.merged| ==> !Matches(st.merged[k], Lower(query))
    ensures HandleSearch(st, query).filtered == []
  {
    FilterNoMatch(st.merged, Lower(query));
  }
}
