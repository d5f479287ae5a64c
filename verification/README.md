# Books Dashboard — a Dafny model of its data layer

The Books Dashboard is a browser page that loads a user's "want to read" list from the
Open Library catalog, enriches every entry with its rating, subjects and author details,
and shows the result in a searchable table. This project models the in-memory logic on
top of the network calls and proves its properties:

- **Enrichment join** (`Enrichment`, `App.FetchData`). Each reading-list entry becomes a flat record,
  projected by position:
  - the id is the 1-based index;
  - the author is the first author name;
  - at most two subjects are kept;
  - a missing rating counts as 0;
  - a missing or empty birth date becomes `"No Data"`;
  - the top work is copied as is.

  One failed entry fails the whole batch, and then the page state does not change. An empty list
  does nothing. On success, the canonical set and the view both hold the joined records, and
  loading ends.
- **Author search** (`AuthorFilter`, `App.HandleSearch`, `App.HandleReset`). An empty query shows the
  canonical set again. A non-empty query keeps, in order, exactly the records whose lower-cased
  author name contains the lower-cased query.
- **Search box** (`Search`). It holds the typed `query`. The Search button hands the
  trimmed query to the parent. The Reset button clears the query and calls the parent's reset
  exactly once.
- **The page as a whole** (`Dashboard`, state `Page`). Events are network completions and user actions.
  The page invariant holds in every reachable state:
  - the view is the canonical set itself, or its author filter for some query, and so an in-order selection of it;
  - the canonical records are numbered 1..n;
  - nothing is held while loading.

The JavaScript string operations `trim`, `toLowerCase` and `includes` are modelled in
`JsString`. `trim` removes exactly the ECMAScript WhiteSpace and LineTerminator code points.
`includes` is proved equal to "occurs at some position".

Network lookups are inputs. Each entry comes with three `Option` results (ratings, work
detail, author search). `None` stands for a request or JSON decoding that failed. The
lookups are given as a sequence aligned with the reading list.

Behaviour of the code that is easy to miss:
- An empty-string birth date becomes `"No Data"` too, not only a missing one (`|| "No Data"`).
- A work with an empty `author_names` list gives a record whose author is `undefined`.
  Any later non-empty search then throws in `toLowerCase`, so the view is not updated.
  `App.HandleSearch` models this.
- A failed batch keeps the loading indicator on only because it was on before. The batch
  itself does not touch `loading`.

Files: `wrappers.dfy` (Option), `seqs.dfy` (prefix, subsequence), `jsstring.dfy`,
`enrichment.dfy`, `author_filter.dfy`, `app.dfy`, `search.dfy`, `dashboard.dfy`,
`scenarios.dfy` (concrete runs).

## Model

| member | source | states |
|---|---|---|
| JsString.Trim | src/components/Search.jsx:8 | the trimmed query is a slice of the typed text with no whitespace at either end, and everything removed was whitespace |
| JsString.TrimUnique | src/components/Search.jsx:8 | any slice with whitespace-only surroundings and no whitespace at its ends is the trimmed string: `Trim` is uniquely determined by that description |
| JsString.TrimIdempotent | src/components/Search.jsx:8 | trimming an already trimmed query changes nothing |
| JsString.TrimEmptyIffWhitespace | src/components/Search.jsx:8 | a query trims to `""` exactly when it is whitespace only |
| JsString.Lower | src/App.jsx:80-82 | lower-casing keeps the length and lower-cases each character in place |
| JsString.LowerIdempotent | src/App.jsx:80-82 | lower-casing a lower-cased string changes nothing |
| JsString.TrimLowerCommute | src/components/Search.jsx:8 | trimming then lower-casing equals lower-casing then trimming |
| JsString.IncludesIffOccurs | src/App.jsx:82 | `includes` holds exactly when the query occurs at some position of the author name |
| Enrichment.ProjectEntry | src/App.jsx:32-61 | an entry yields a record exactly when it has a work with an author list and all three lookups succeeded; the record satisfies `BuiltFrom`: id is position + 1, author is the first author name (absent when the list is empty), title and year copied, subjects a prefix of the work's subjects of length min(2, n) and empty when there are none, rating the average or 0, birth date the first author document's unless missing or empty (then "No Data"), top work copied with no default |
| Enrichment.BuiltFromUnique | src/App.jsx:52-61 | the field-by-field description determines the record completely |
| Enrichment.Join | src/App.jsx:32-64 | the batch yields records exactly when every entry succeeds; then there is one record per entry, in list order, record k built from entry k at position k |
| Enrichment.JoinNumbersRecords | src/App.jsx:53 | the joined records are numbered 1, 2, ..., n in order |
| Enrichment.JoinOneFailureFailsAll | src/App.jsx:64-69 | a single failing entry anywhere makes the whole batch fail |
| AuthorFilter.FilterByAuthor | src/App.jsx:81-83 | the filter throws exactly when some record has no author name; otherwise its result is an in-order subsequence of the records, every kept record matches (sound), and every matching record is kept (complete) |
| AuthorFilter.FilterKeepsCopies | src/App.jsx:81-83 | the filter keeps every copy of each matching record and no copy of any other record, so it is exact even when records repeat |
| AuthorFilter.FilterAppend | src/App.jsx:81-83 | filtering a concatenation is concatenating the filtered parts |
| AuthorFilter.FilterSingle | src/App.jsx:81-83 | a single authored record is kept exactly when it matches |
| AuthorFilter.FilterNoMatch | src/App.jsx:81-83 | when no author matches, the result is empty |
| App.FetchData | src/App.jsx:28-71 | an empty reading list or a failed batch leaves the state unchanged; on success, loading ends, the view equals the canonical set, and it has one record per entry built from that entry |
| App.HandleSearch | src/App.jsx:76-86 | only the view changes; an empty query shows the canonical set; a non-empty query shows an in-order selection of the canonical set containing every matching record and only matching records (with App.SearchKeepsCopies: each exactly as often as in the canonical set); a record without author leaves the state as it was |
| App.SearchKeepsCopies | src/App.jsx:80-84 | after a non-empty search over authored records, the view holds each matching canonical record exactly as often as the canonical set does, and no other record |
| App.HandleReset | src/App.jsx:88-90 | the view becomes the canonical set; the canonical set, books and loading flag are untouched |
| App.SearchIgnoresCase | src/App.jsx:80-82 | queries equal up to case give the same state |
| App.SearchLowerCaseQuery | src/App.jsx:80-82 | searching for `q` and for `q` lower-cased give the same state |
| App.EmptySearchIsReset | src/App.jsx:77-78 | an empty search is the same as a reset |
| App.SearchWithoutMatchEmptiesView | src/App.jsx:80-84 | over records that all have an author, a non-empty query that no author contains empties the view |
| Search.OnChange | src/components/Search.jsx:25 | typing sets the query to the text in the box |
| Search.HandleSearch | src/components/Search.jsx:6-9 | the query state is kept, and `onSearch` is called once with a trimming of the query that has no whitespace at its ends |
| Search.HandleReset | src/components/Search.jsx:11-14 | the query becomes `""` and `onReset` is called exactly once |
| Search.WhitespaceQuerySearchesEmpty | src/components/Search.jsx:8 | a whitespace-only query is handed on as `""` |
| Dashboard.InitialPage | src/App.jsx:6-9 | the page starts with loading on, no records and an empty query, and satisfies the invariant |
| Dashboard.Dispatch | src/App.jsx:131 | the callbacks are wired to the parent's handlers: only the view changes; a reset or an empty search shows the canonical set; a non-empty search over records that all have an author shows an in-order selection containing every matching record and only matching records (with Dashboard.DispatchKeepsCopies: each as often as in the canonical set) |
| Dashboard.DispatchKeepsCopies | src/App.jsx:80-84 | over records that all have an author, a non-empty search delivered to the parent keeps every copy of each matching canonical record and no other record |
| Dashboard.Step | src/App.jsx:19-70 | one event of the page: only a loaded reading list changes the books; only settled lookups change the canonical set and the loading flag; typing sets the query and changes nothing else; Search leaves the query alone; Reset clears the query and shows the canonical set |
| Dashboard.StepKeepsConsistent | src/App.jsx:64-90 | every event keeps the invariant: the view is the canonical set or its author filter for some lower-cased query, hence a subsequence of it; the canonical records are numbered 1..n; nothing is held while loading |
| Dashboard.ReachableConsistent | src/App.jsx:131 | every state reachable from the start satisfies the invariant |
| Dashboard.FilteredTraceable | src/App.jsx:53 | in such a state every record in view is the canonical record its id names |
| Dashboard.WhitespaceSearchRestores | src/App.jsx:77-78 | typing a whitespace-only query and pressing Search shows the canonical set, unchanged |
| Dashboard.SearchClickedShowsMatches | src/components/Search.jsx:6-9 | over records that all have an author, pressing Search with a query that is not blank shows, in order, exactly the canonical records whose author contains the trimmed, lower-cased query, each as often as in the canonical set |
| Dashboard.TypedSearchIgnoresCase | src/App.jsx:80-82 | typed queries equal up to case lead to the same App state (view, canonical set, books, loading) after Search |
| Dashboard.SearchKeepsQuery | src/components/Search.jsx:6-9 | pressing Search does not change the typed query |
| Dashboard.ResetRestores | src/components/Search.jsx:11-14 | pressing Reset clears the query and shows the canonical set, which stays untouched |
| Dashboard.EmptyListLeavesPage | src/App.jsx:29 | enriching an empty reading list leaves the page unchanged |
| Dashboard.FailedBatchKeepsLoading | src/App.jsx:64-70 | a failed batch leaves the page unchanged, so loading stays on |
| Scenarios.SecondLookupFailsWholeBatch | src/App.jsx:64-70 | with three entries whose second work lookup fails, nothing is merged and loading stays on |
| Scenarios.SmithQuery | src/App.jsx:80-83 | searching a canonical set of "John Smith", "Jane Doe" and "Alice Smithson" for "Smith" shows "John Smith" and "Alice Smithson" |

## Left out

- Network I/O is not modelled: the reading-list fetch, the three lookups per entry, their URLs, `res.json()` and
  `Promise.all` scheduling. Their outcomes are inputs. A lookup is `None` when it failed.
- Missing fields are collapsed. A null or missing ratings document or summary is represented as a missing average.
  A missing `docs` list and an empty one behave the same.
- A reading list without `reading_log_entries` is not modelled. It makes `books` undefined, so `books.length` rejects the promise of the asynchronous `fetchData`. Nothing catches the rejection, the page stays up, and the loading indicator stays on.
  This belongs to the reading-list fetch.
- Effect timing is simplified. Lookups are assumed to settle for the reading list currently held.
  A batch started for an earlier list and settling later is not modelled.
- Enrichment.ProjectEntry: keeps the average rating as the number to be shown. Its `toFixed(2)` text is floating-point
  formatting and is not produced. A NaN average, which is falsy in JavaScript, cannot be represented.
- JsString.Lower: lower-cases ASCII letters only. The full Unicode case mapping of `toLowerCase` is not modelled.
- JsString.Trim: works on code points. JavaScript strings are UTF-16 code units. The whitespace set is the ECMAScript one.
- Values of unexpected JSON types are not modelled. Examples are a non-array `subjects` or a non-string author name.
- `src/components/DataTable.jsx` is not part of this model. Sorting, pagination, page-size selection and CSV export
  are done there by third-party libraries.
- Rendering is not modelled: the JSX, the column definitions, the subject cell's `join(", ")`, `e.preventDefault()`
  and `console.error` logging.
