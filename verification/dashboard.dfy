/** The page as a whole: `App` renders `Search` with its own `handleSearch` and
    `handleReset` as the callbacks. Network completions and user actions are events. */
module Dashboard {
  import opened Wrappers
  import opened Seqs
  import opened JsString
  import opened Enrichment
  import opened AuthorFilter
  import App
  import Search

  /** The state of the page: the `App` component's and the `Search` component's. */
  datatype Page = Page(app: App.AppState, search: Search.SearchState)

  datatype Event =
    | ReadingListLoaded(entries: seq<Entry>)   // `setBooks` with the fetched reading list
    | LookupsSettled(responses: seq<Responses>) // the lookups of every entry have settled
    | QueryTyped(text: string)                 // the search box now holds `text`
    | SearchClicked
    | ResetClicked

  const Initial: Page := Page(App.Initial, Search.Initial)

  /** The page starts with an empty query, the loading indicator on and no records. */
  lemma InitialPage()
    ensures Initial.search.query == ""
    ensures Initial.app.loading && Initial.app.merged == [] && Initial.app.filtered == []
    ensures Consistent(Initial.app)
  {
  }

  /** The parent's handler for one callback (`onSearch={handleSearch}`, `onReset={handleReset}`):
      only the view changes; a reset shows the canonical set, a search shows what
      `App.HandleSearch` selects for the query passed on. */
  function Dispatch(app: App.AppState, call: Search.Callback): (app': App.AppState)
    ensures app'.books == app.books && app'.merged == app.merged && app'.loading == app.loading
    ensures call.OnReset? ==> app'.filtered == app.merged
    ensures call.OnSearch? && call.query == "" ==> app'.filtered == app.merged
    ensures call.OnSearch? && call.query != "" && Authored(app.merged) ==>
      SelectsMatches(app'.filtered, app.merged, Lower(call.query))
  {
    match call
    case OnSearch(q) => App.HandleSearch(app, q)
    case OnReset => App.HandleReset(app)
  }

  /** The parent's handlers for a series of callbacks, in order. */
  function Deliver(app: App.AppState, calls: seq<Search.Callback>): (app': App.AppState)
    ensures app'.books == app.books && app'.merged == app.merged && app'.loading == app.loading
    decreases |calls|
  {
    if |calls| == 0 then app else Deliver(Dispatch(app, calls[0]), calls[1..])
  }

  /** The lookups that settle are those of the entries currently held. */
  predicate Admissible(d: Page, e: Event) {
    e.LookupsSettled? ==> |e.responses| == |d.app.books|
  }

  /** One event: `setBooks` for a loaded reading list, the `[books]` effect's `fetchData`
      once the lookups settle, typing, and the two buttons. Only a loaded list changes the
      books, only settled lookups change the canonical set and the loading flag, and only
      typing and Reset change the query. */
  function Step(d: Page, e: Event): (r: Page)
    requires Admissible(d, e)
    ensures e.ReadingListLoaded? ==> r.app.books == e.entries
    ensures !e.ReadingListLoaded? ==> r.app.books == d.app.books
    ensures !e.LookupsSettled? ==> r.app.merged == d.app.merged && r.app.loading == d.app.loading
    ensures e.ReadingListLoaded? || e.QueryTyped? ==> r.app.filtered == d.app.filtered
    ensures e.QueryTyped? ==> r.search.query == e.text
    ensures e.ResetClicked? ==> r.search.query == "" && r.app.filtered == d.app.merged
    ensures !e.QueryTyped? && !e.ResetClicked? ==> r.search == d.search
  {
    match e
    case ReadingListLoaded(entries) => d.(app := d.app.(books := entries))
    case LookupsSettled(responses) => d.(app := App.FetchData(d.app, responses))
    case QueryTyped(text) => d.(search := Search.OnChange(d.search, text))
    case SearchClicked =>
      var r := Search.HandleSearch(d.search);
      Page(Deliver(d.app, r.calls), r.state)
    case ResetClicked =>
      var r := Search.HandleReset(d.search);
      DeliverOne(d.app, Search.OnReset); // proof hint: lets the ensures about `ResetClicked` see the one reset call
      Page(Deliver(d.app, r.calls), r.state)
  }

  /** Every event of `events` is admissible in the state it meets. */
  predicate Replayable(d: Page, events: seq<Event>)
    decreases |events|
  {
    |events| == 0 || (Admissible(d, events[0]) && Replayable(Step(d, events[0]), events[1..]))
  }

  function Run(d: Page, events: seq<Event>): Page
    requires Replayable(d, events)
    decreases |events|
  {
    if |events| == 0 then d else Run(Step(d, events[0]), events[1..])
  }

  /** The view is the canonical set itself or its author filter for some lower-cased query. */
  ghost predicate ShowsSearchResult(app: App.AppState) {
    app.filtered == app.merged || exists lq :: Lower(lq) == lq && FilterByAuthor(app.merged, lq) == Some(app.filtered)
  }

  /** The invariant of the page: the view is the canonical set or one of its author
      searches, so an in-order selection of it; the canonical set is numbered 1, 2, ...;
      and nothing is held while loading. */
  ghost predicate Consistent(app: App.AppState) {
    && ShowsSearchResult(app)
    && IsSubsequence(app.filtered, app.merged)
    && (forall k :: 0 <= k < |app.merged| ==> app.merged[k].id == k + 1)
    && (app.loading ==> app.merged == [] && app.filtered == [])
  }

  /** Every handler of the parent keeps the invariant. */
  lemma DispatchKeepsConsistent(app: App.AppState, call: Search.Callback)
    requires Consistent(app)
    ensures Consistent(Dispatch(app, call))
  {
    match call
    case OnSearch(q) =>
      var app' := App.HandleSearch(app, q);
      if app'.filtered == app.merged {
        SubsequenceReflexive(app.merged);
      } else if q != "" && Authored(app.merged) {
        LowerIdempotent(q);
        assert FilterByAuthor(app.merged, Lower(q)) == Some(app'.filtered);
      }
    case OnReset =>
      SubsequenceReflexive(app.merged);
  }

  lemma {:induction false} DeliverKeepsConsistent(app: App.AppState, calls: seq<Search.Callback>)
    requires Consistent(app)
    ensures Consistent(Deliver(app, calls))
    decreases |calls|
  {
    if |calls| > 0 {
      DispatchKeepsConsistent(app, calls[0]);
      DeliverKeepsConsistent(Dispatch(app, calls[0]), calls[1..]);
    }
  }

  /** Every event keeps the invariant. */
  lemma StepKeepsConsistent(d: Page, e: Event)
    requires Consistent(d.app) && Admissible(d, e)
    ensures Consistent(Step(d, e).app)
  {
    match e
    case ReadingListLoaded(_) =>
    case LookupsSettled(responses) =>
      var app' := App.FetchData(d.app, responses);
      if app' != d.app {
        SubsequenceReflexive(app'.merged);
      }
    case QueryTyped(_) =>
    case SearchClicked =>
      DeliverKeepsConsistent(d.app, Search.HandleSearch(d.search).calls);
    case ResetClicked =>
      DeliverKeepsConsistent(d.app, Search.HandleReset(d.search).calls);
  }

  lemma {:induction false} RunKeepsConsistent(d: Page, events: seq<Event>)
    requires Consistent(d.app) && Replayable(d, events)
    ensures Consistent(Run(d, events).app)
    decreases |events|
  {
    if |events| > 0 {
      StepKeepsConsistent(d, events[0]);
      RunKeepsConsistent(Step(d, events[0]), events[1..]);
    }
  }

  /** Every state the page can reach satisfies the invariant. */
  lemma ReachableConsistent(events: seq<Event>)
    requires Replayable(Initial, events)
    ensures Consistent(Run(Initial, events).app)
  {
    assert IsSubsequence(Initial.app.filtered, Initial.app.merged);
    RunKeepsConsistent(Initial, events);
  }

  /** In a consistent state every record in view is the canonical record its id names. */
  lemma FilteredTraceable(app: App.AppState)
    requires Consistent(app)
    ensures forall x :: x in app.filtered ==> 1 <= x.id <= |app.merged| && app.merged[x.id - 1] == x
  {
    SubsequenceMembers(app.filtered, app.merged);
  }

  /** Replaying two events is stepping twice. */
  lemma RunPair(d: Page, e1: Event, e2: Event)
    requires Admissible(d, e1) && Admissible(Step(d, e1), e2)
    ensures Replayable(d, [e1, e2])
    ensures Run(d, [e1, e2]) == Step(Step(d, e1), e2)
  {
    assert [e1, e2][1..] == [e2];
    assert [e2][1..] == [];
    var d2 := Step(Step(d, e1), e2);
    assert Run(d2, []) == d2;
    assert Run(Step(d, e1), [e2]) == d2;
  }

  /** Delivering one callback is dispatching it. */
  lemma DeliverOne(app: App.AppState, call: Search.Callback)
    ensures Deliver(app, [call]) == Dispatch(app, call)
  {
    assert [call][1..] == [];
  }

  /** Searching with a whitespace-only query shows the canonical set. */
  lemma WhitespaceSearchRestores(d: Page, text: string)
    requires AllWhitespace(text)
    ensures Run(d, [QueryTyped(text), SearchClicked]).app.filtered == d.app.merged
    ensures Run(d, [QueryTyped(text), SearchClicked]).app.merged == d.app.merged
  {
    var d1 := Step(d, QueryTyped(text));
    RunPair(d, QueryTyped(text), SearchClicked);
    Search.WhitespaceQuerySearchesEmpty(d1.search);
    DeliverOne(d1.app, Search.OnSearch(""));
  }

  /** Typed queries equal up to case lead to the same page. */
  lemma TypedSearchIgnoresCase(d: Page, a: string, b: string)
    requires Lower(a) == Lower(b)
    ensures Run(d, [QueryTyped(a), SearchClicked]).app == Run(d, [QueryTyped(b), SearchClicked]).app
  {
    RunPair(d, QueryTyped(a), SearchClicked);
    RunPair(d, QueryTyped(b), SearchClicked);
    DeliverOne(d.app, Search.OnSearch(Trim(a)));
    DeliverOne(d.app, Search.OnSearch(Trim(b)));
    TrimLowerCommute(a);
    TrimLowerCommute(b);
    App.SearchIgnoresCase(d.app, Trim(a), Trim(b));
  }

  /** A non-empty search over authored records keeps every copy of each matching canonical
      record and nothing else. */
  lemma DispatchKeepsCopies(app: App.AppState, q: string)
    requires q != "" && Authored(app.merged)
    ensures var shown := multiset(Dispatch(app, Search.OnSearch(q)).filtered);
      forall x :: shown[x] == (if Matches(x, Lower(q)) then multiset(app.merged)[x] else 0)
  {
    App.SearchKeepsCopies(app, q);
  }

  /** Pressing Search with a query that is not blank shows the records whose author contains
      the trimmed, lower-cased query, each as often as in the canonical set. */
  lemma SearchClickedShowsMatches(d: Page)
    requires Trim(d.search.query) != "" && Authored(d.app.merged)
    ensures SelectsMatches(Step(d, SearchClicked).app.filtered, d.app.merged, Lower(Trim(d.search.query)))
    ensures var shown := multiset(Step(d, SearchClicked).app.filtered);
      forall x :: shown[x] == (if Matches(x, Lower(Trim(d.search.query))) then multiset(d.app.merged)[x] else 0)
  {
    DeliverOne(d.app, Search.OnSearch(Trim(d.search.query)));
    DispatchKeepsCopies(d.app, Trim(d.search.query));
  }

  /** Search leaves the typed query alone. */
  lemma SearchKeepsQuery(d: Page)
    ensures Step(d, SearchClicked).search == d.search
  {
  }

  /** Reset clears the query and shows the canonical set, which it leaves untouched. */
  lemma ResetRestores(d: Page)
    ensures Step(d, ResetClicked).search.query == ""
    ensures Step(d, ResetClicked).app.filtered == d.app.merged
    ensures Step(d, ResetClicked).app.merged == d.app.merged
  {
  }

  /** The enrichment of an empty reading list changes nothing. */
  lemma EmptyListLeavesPage(d: Page)
    requires d.app.books == []
    ensures Step(d, LookupsSettled([])) == d
  {
  }

  /** A failed batch leaves the page as it was, so the loading indicator stays on. */
  lemma FailedBatchKeepsLoading(d: Page, responses: seq<Responses>)
    requires |responses| == |d.app.books| && !AllSucceed(d.app.books, responses)
    requires d.app.loading
    ensures Step(d, LookupsSettled(responses)) == d
    ensures Step(d, LookupsSettled(responses)).app.loading
  {
  }
}
