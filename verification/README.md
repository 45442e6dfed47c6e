# unfold-table: search, pagination and table state in Dafny

This project models the two pieces of logic in the unfold-table repository that do
not depend on the browser or the network:

- the two mock list endpoints, `GET /api/users` and `GET /api/users/with-tasks`. Each reads
  `limit`, `page` and `search`, keeps the users whose lower-cased name, email or
  username contains the lower-cased term, cuts out the requested page and answers
  with a `{success, data, meta}` envelope. On failure it answers with a 500 envelope.
- the `DataTable` component reduced to its state machine over
  `(currentPage, pageSize, searchQuery, debouncedSearch)` and to the pure helpers
  the markup is built from. Those helpers are the alignment class, the cell value, the row id, the
  column count, the displayed page count, the body view and the expanded-row rule.

Modules:

| module | file | content |
|---|---|---|
| `Wrappers` | wrappers.dfy | `Option`, `Min`, `Max` |
| `Decimal` | decimal.dfy | `toString()` and `parseInt` of integers, and their round trip |
| `Text` | text.dfy | ASCII `toLowerCase`, `includes`, and a positional definition of `includes` |
| `Filter` | filter.dfy | `Array.prototype.filter` as `Keep`, and its index-selection characterisation |
| `UserSearch` | search.dfy | the `User` record, the match predicate, the `if (search)` guarded filter |
| `Pagination` | pagination.dfy | query defaults, `Math.ceil`, `slice`, the page window and the `meta` record |
| `Envelope` | envelope.dfy | response bodies and the success path both routes share |
| `UsersRoute`, `WithTasksRoute` | users_route.dfy, with_tasks_route.dfy | the two handlers and their failure envelopes |
| `TableState` | table_state.dfy | the query state, its handlers, the debounce commit and the prev/next buttons |
| `TableView` | table_view.dfy | the pure derivations and the body row structure |

The data generator the routes call is outside this model. It becomes a parameter: `Some(users)` for
the list it produced, and `None` when the handler's body threw, which leads to the 500 envelope.
The `with-tasks` failure envelope spells its boolean key `sucess`. The model keeps that
spelling, and `WithTasksRoute.FailureEnvelopesDiffer` records that this key is not `success`.

Behaviours of the code worth noting:

- The debounce commit resets the page to 1 every time it fires, even when the pending query equals the committed one.
- A `pagination` prop given without `enabled: true` hides the pagination controls.
  The built-in default, used when the prop is absent, has `enabled: true`.
- An empty `pageSizeOptions` array is kept, because arrays are truthy in `||`.
- An empty error string does not select the error row, because it is falsy.
- `meta.totalPages` is 0 for an empty result. The table then shows 1 as the page count.

## Model

| member | source | states |
|---|---|---|
| `Pagination.ParseQuery` | app/api/users/route.ts:11-13 | An absent `limit` becomes 15, an absent `page` becomes 1 and an absent `search` becomes the empty string. A present value is used unchanged. |
| `Pagination.CeilDiv` | app/api/users/route.ts:38 | `totalPages` is the least page count that holds every item: `r*limit >= total > (r-1)*limit`. |
| `Pagination.Slice` | app/api/users/route.ts:29 | `slice(start, end)` clamps to the list. Its length is `min(end, n) - start`, or 0 when the window is empty, and element `k` is `xs[start+k]`. |
| `Pagination.Paginate` | app/api/users/route.ts:26-41 | The items are `xs[min(start, n) .. min(start + limit, n)]` with `start = (page-1)*limit`, so there are at most `limit` of them. `total` is the filtered count and `page`/`limit` are echoed. `totalPages` is `CeilDiv(total, limit)`. `hasNextPage` holds iff `page*limit < total`, and `hasPrevPage` iff `page > 1`. |
| `Pagination.PageIsChunk` | app/api/users/route.ts:27-29 | Page `k` holds the items from offset `(k-1)*limit` up to offset `k*limit`, both clamped to the list. |
| `Pagination.HasNextIffBeforeLastPage` | app/api/users/route.ts:38-39 | The next-page flag holds iff the page is before the last one (`page < totalPages`). |
| `Pagination.PastLastPageIsEmpty` | app/api/users/route.ts:27-39 | A page past the last one has no items and no next page. |
| `Pagination.PageNonEmptyIffInRange` | app/api/users/route.ts:27-38 | A page has items iff its number is at most `totalPages`. |
| `Pagination.ItemOnItsPage` | app/api/users/route.ts:27-29 | Item `i` of the filtered list is at offset `i % limit` of page `i / limit + 1`, and that page is at most `totalPages`. |
| `Pagination.ItemsUpToIsPrefix` | app/api/users/route.ts:27-29 | Pages `1..k` together are exactly the first `min(k*limit, n)` items, in order. |
| `Pagination.PagesCoverList` | app/api/users/route.ts:27-38 | Pages `1..totalPages` together are the whole filtered list: every item appears once and in order. |
| `Pagination.FifteenByTenScenario` | app/api/users/route.ts:27-40 | With 15 results and limit 10, page 1 has 10 items, a next page and no previous page. Page 2 has 5 items, no next page and a previous page. |
| `Text.IncludesIffOccurs` | app/api/users/route.ts:20-22 | `includes` holds iff the needle occurs at some position of the haystack. |
| `Text.LowerIdempotent` | app/api/users/route.ts:20-22 | Lower-casing twice is lower-casing once. |
| `Filter.Keep` | app/api/users/route.ts:18-23 | The filter keeps only elements that satisfy the callback and keeps every element that does. |
| `Filter.KeepSelectsInOrder` | app/api/users/route.ts:18-23 | The filter result is the elements at strictly increasing positions of the input, and those positions are exactly the ones whose element satisfies the callback. |
| `UserSearch.ApplySearch` | app/api/users/route.ts:17-24 | With an empty term the list is unchanged. Otherwise every kept user matches and is in the input, and every matching input user is kept. |
| `UserSearch.EmptyTermMatchesEveryone` | app/api/users/route.ts:17-24 | Every user matches the empty term. |
| `UserSearch.SearchGuardOnlySkipsWork` | app/api/users/route.ts:17 | Skipping the filter for an empty term gives the same list as filtering would. |
| `UserSearch.SearchSelectsMatches` | app/api/users/route.ts:18-23 | The search result is exactly the matching users, in input order, with no matching user dropped. |
| `UserSearch.MatchesIgnoresTermCase` | app/api/users/route.ts:20-22 | Lower-casing the term first does not change which users match. |
| `UserSearch.JaneDoeMatches` | app/api/users/route.ts:18-23 | A user named "Jane Doe" matches the term "doe". |
| `UserSearch.FirstLetterAbsentNoMatch` | app/api/users/route.ts:18-23 | A user whose fields never contain the term's first letter in any case, such as "John Smith" for "doe", does not match. |
| `Envelope.ListResponse` | app/api/users/route.ts:26-42 | The success response has status 200. Its `data` and `meta` are the page `Paginate` cuts from the searched list for the request's `page` and `limit`: at most `limit` matching users from the source, `meta.total` the filtered count, `page` and `limit` echoed, `totalPages` the ceiling of `total/limit`, `hasNextPage` iff `page*limit < total` and `hasPrevPage` iff `page > 1`. |
| `UsersRoute.Get` | app/api/users/route.ts:5-52 | A failing source gives status 500 with `{success: false, error: "Failed to fetch users"}`. Otherwise the status is 200 and the body is exactly the requested page of the searched list with its `meta`: `total` the searched count, `page` and `limit` echoed, `totalPages` the ceiling of `total/limit`, `hasNextPage` iff `page*limit < total`, `hasPrevPage` iff `page > 1`. |
| `UsersRoute.DefaultRequest` | app/api/users/route.ts:11-13 | A request without parameters returns the first 15 users, page 1, limit 15 and no previous page. It has a next page iff there are more than 15 users. |
| `UsersRoute.ReturnedUsersMatch` | app/api/users/route.ts:18-33 | Every returned user comes from the source and matches the search. |
| `WithTasksRoute.Get` | app/api/users/with-tasks/route.ts:5-51 | This route searches users with embedded tasks by their user fields. Its success body is exactly the requested page of the searched records with its `meta`, as for the users route: `page` and `limit` echoed, `totalPages` the ceiling of `total/limit`, both flags as there. Its failure is status 500 with `{sucess: false, error: "Failed to fetch users with task"}`. |
| `WithTasksRoute.DefaultRequest` | app/api/users/with-tasks/route.ts:11-13 | A request without parameters returns the first 15 records, page 1, limit 15 and no previous page. |
| `WithTasksRoute.MatchedRecordsAreExactlyMatches` | app/api/users/with-tasks/route.ts:18-25 | `meta.total` counts exactly the records whose user fields match the term: one per matching position of the source, in increasing order. |
| `WithTasksRoute.FlagsAgreeWithPageCount` | app/api/users/with-tasks/route.ts:37-39 | `hasNextPage` holds iff `page < totalPages`, and `hasPrevPage` iff `page > 1`. |
| `WithTasksRoute.FailureEnvelopesDiffer` | app/api/users/with-tasks/route.ts:43-49 | The failure key here is not `success`, and the message differs from the users route's message. |
| `Decimal.ParseIntToDecimal` | components/data-table.tsx:244-258 | `parseInt` of an option's `toString()` gives the option back, for every integer. |
| `Decimal.ToDecimalInjective` | components/data-table.tsx:92-96 | Distinct integers have distinct decimal text. |
| `TableState.Initial` | components/data-table.tsx:34-49 | A mounted table starts on page 1 with empty pending and committed searches, so its first fetch is page 1 with no search. Its page size is the configured `pageSize` when that is non-zero, and 15 otherwise or without a `pagination` prop. |
| `TableState.InitialValidIff` | components/data-table.tsx:34-49 | A mounted table starts in a valid state (page at least 1, positive page size) iff its configured page size is absent, zero or positive. |
| `TableState.PageSizeOptions` | components/data-table.tsx:252 | The selector offers the configured options, even an empty list, or `[5, 10, 15, 25]` when none are configured. |
| `TableState.ShowPaginationControls` | components/data-table.tsx:238 | The controls need a server `meta`. A given `pagination` prop without `enabled: true` hides them. The default prop, or one with `enabled: true`, shows them whenever `meta` exists. |
| `TableState.ControlsIffPaginatedWithMeta` | components/data-table.tsx:238 | The controls show iff the server sent a `meta` and the `pagination` prop is absent or has `enabled: true`. |
| `TableState.DebounceDelay` | components/data-table.tsx:62-66 | The delay is `debounceMs` when that is set and non-zero, and 300 otherwise. It is never 0. |
| `TableState.HandleSearch` | components/data-table.tsx:71-73 | A keystroke sets only `searchQuery`. The page, the page size and `debouncedSearch` are untouched. |
| `TableState.CommitSearch` | components/data-table.tsx:62-66 | The commit copies `searchQuery` into `debouncedSearch` and sets the page to 1. Nothing else changes. |
| `TableState.HandlePageChange` | components/data-table.tsx:98-100 | The page becomes exactly the requested one. Nothing else changes. |
| `TableState.HandlePageSizeChange` | components/data-table.tsx:102-105 | The page size becomes the parsed selection and the page resets to 1. The searches are untouched. |
| `TableState.ClickPrev` | components/data-table.tsx:268-274 | The page goes down by one iff the server reports a previous page. Nothing else changes. |
| `TableState.ClickNext` | components/data-table.tsx:276-282 | The page goes up by one iff the server reports a next page. Nothing else changes. |
| `TableState.TypeAllKeepsLast` | components/data-table.tsx:71-73 | After a burst of keystrokes only `searchQuery` has changed, and it holds the last keystroke's text. |
| `TableState.TypingDoesNotRefetch` | components/data-table.tsx:51-56 | Keystrokes alone never change the page, page size or committed search that the fetch depends on. |
| `TableState.BurstThenCommit` | components/data-table.tsx:62-69 | A burst of keystrokes followed by one commit fetches page 1 of the final keystroke's text with the same page size. |
| `TableState.SelectPageSizeOption` | components/data-table.tsx:244-258 | Choosing an option in the selector sets exactly that page size and page 1. |
| `TableState.NavigationStaysInRange` | components/data-table.tsx:263-283 | The server's flags gate prev and next. From a page in `1..max(1, totalPages)`, both buttons keep the page in that range and keep the state valid. |
| `TableState.TransitionsKeepValid` | components/data-table.tsx:62-105 | A keystroke, a commit or a positive page-size choice keeps the page at least 1 and the page size positive. |
| `TableView.AlignClass` | components/data-table.tsx:75-85 | The class is `text-center` iff the column's own alignment is center, or it has none and the table default is center. The same holds for `text-right` and right. Everything else, including no alignment anywhere, is `text-left`. |
| `TableView.AlignClassRoundTrip` | components/data-table.tsx:75-85 | The class name determines the effective alignment. |
| `TableView.CellValue` | components/data-table.tsx:87-90 | With a renderer the cell is `render(row[key], row)`, and without one it is the raw `row[key]`. A missing field reads as `undefined`. |
| `TableView.RawCellReadsOnlyItsField` | components/data-table.tsx:87-90 | Without a renderer, rows that agree on the column's field give the same cell. |
| `TableView.ValueText` | components/data-table.tsx:95 | `id?.toString()` gives no text exactly for `undefined` and `null`. A number gives its decimal text, a boolean gives `"true"` or `"false"` and a string gives itself. |
| `TableView.RowId` | components/data-table.tsx:92-96 | A configured cache key decides the id. Otherwise the id is the row id's non-empty text, or else exactly the index's decimal text, which parses back to the index. Without a cache key the id is never empty. |
| `TableView.FallbackRowIdsDistinct` | components/data-table.tsx:92-96 | Rows without a usable id, at different positions, get different ids. |
| `TableView.NumericIdRowId` | components/data-table.tsx:95 | A numeric row id keys the row by text that parses back to that number. |
| `TableView.TotalColumns` | components/data-table.tsx:108-111 | The count is the columns plus one for an expandable table plus one for actions. It equals the column count iff neither is present, and the column count plus 2 iff both are. |
| `TableView.ColumnHeaders` | components/data-table.tsx:138-148 | There is one header per column, in order, carrying its key, label and alignment class. |
| `TableView.TotalColumnsIsHeaderWidth` | components/data-table.tsx:135-153 | `totalColumns` equals the number of header cells. |
| `TableView.DisplayedTotalPages` | components/data-table.tsx:107 | The displayed count is `meta.totalPages` when that is positive. A missing `meta` or a zero count gives 1, so the displayed count is always at least 1. |
| `TableView.DisplayedTotalPagesCoversPage` | components/data-table.tsx:263-266 | A page with items never exceeds the displayed page count. |
| `TableView.SelectBodyView` | components/data-table.tsx:155-179 | The body shows the skeleton iff loading, and the error row iff not loading with a non-empty error. It shows the empty row iff neither applies and there are no rows, and the rows otherwise. |
| `TableView.ShowExpanded` | components/data-table.tsx:220 | The expanded row shows iff the table is expandable, the row passes `condition` (true when there is none) and its id is in the expanded set. |
| `TableView.Cells` | components/data-table.tsx:202-209 | A data row has one cell per column, in column order, each the column's cell value. |
| `TableView.RowLinesFollowRows` | components/data-table.tsx:180-233 | The data rows appear one per fetched row, in fetched order, each keyed by `getRowId(row, index)`. |
| `TableView.ExpandedLinesFollowTheirRow` | components/data-table.tsx:180-233 | Each expanded-content row directly follows the data row with its id, and that id is expanded. A table that is not expandable has no expanded-content rows. |
| `TableView.ExpandedRowsAreShownRows` | components/data-table.tsx:180-233 | The expanded-content rows are, in order, those of exactly the fetched rows that the table can expand, that pass `condition` (when there is one) and whose id is in the expanded set. |
| `TableView.BodyIsRowLinesIffRowsView` | components/data-table.tsx:154-234 | The body is the fetched rows' lines iff the body view is the rows view. Any other view is a single skeleton, error or empty line. |
| `TableView.SpanningRowsCoverHeader` | components/data-table.tsx:161-178 | The error row and the empty row span exactly the header's width. |

## Left out

- The simulated network delay (`setTimeout` in both routes), `NextResponse`, and reading parameters from the request URL. Parameters arrive already parsed as `Params`.
- An empty query parameter such as `?limit=` is treated as absent, as `||` does. `Params` cannot express it separately.
- `parseInt` quirks in the routes: `NaN`, a zero or negative `limit`, and a page below 1 are outside the model (`Envelope.Accepted` requires `limit > 0` and `page >= 1`). A negative start index in `slice` is outside the model for the same reason.
- `Decimal.ParseInt` does not skip leading whitespace and does not read a `0x` prefix. The numerals the table produces never have either.
- TableState.HandlePageSizeChange: requires text that parses. The selector only offers numerals, and a non-numeric text, which would store `NaN`, is not modelled.
- Unicode `toLowerCase`: lower-casing covers ASCII letters only.
- The user generators in `lib/data/dummy-users-data` are not part of this model. Their output is an arbitrary input sequence, and any exception they raise is the `None` source.
- The `Task` record of the with-tasks route comes from `types/users`, which is not part of this model. It is a type parameter.
- The `useTableData` and `useExpandable` hooks are not part of this model. This covers the fetch lifecycle, stale-response ordering, `toggleRow`, the sub-data cache and per-row loading and error state.
- The debounce timer's timing and cancellation: only the commit transition is modelled. So is the fact that the effect also fires on mount and when `debounceMs` changes, because those firings are the same commit.
- The `fetchUrl`, `transform` and `render` fields of the expandable config, and the `actions` renderer. They are used by the hooks or only produce markup.
- JSX rendering, row striping, column widths, the title, the search box, the skeleton's contents, the `Select`/`Button`/`Table` primitives, `console.log` and `app/page.tsx`.
- Decimal.ParseIntToDecimal: holds for every integer. In JavaScript, `toString` switches to exponent form from 10^21 on (`"1e+21"`, which `parseInt` reads as 1), and numbers are exact integers only up to 2^53 - 1. The source's round trip therefore holds only for safe integers, `|n| <= 2^53 - 1`.
- TableState.SelectPageSizeOption: an option's text parses back to the option only for safe integers, as for `Decimal.ParseIntToDecimal`. Page-size options are small, but the model does not bound them.
- TableView.ValueText: a number gives its decimal digits for every integer. In JavaScript that holds only below 10^21 in magnitude; larger numbers print in exponent form.
- TableView.NumericIdRowId: the id round trip holds in JavaScript only for safe-integer ids, `|n| <= 2^53 - 1`.
- Cell values that are fractional numbers, objects or arrays. `Value` covers `undefined`, `null`, booleans, integers and strings.
