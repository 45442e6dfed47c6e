/**
 * The data table's query state `(currentPage, pageSize, searchQuery, debouncedSearch)`
 * and the handlers that move it.
 */
module TableState {
  import opened Wrappers
  import opened Decimal
  import opened Pagination

  /** The `pagination` prop; every field is optional. */
  datatype PaginationConfig = PaginationConfig(
    enabled: Option<bool>,
    pageSize: Option<int>,
    pageSizeOptions: Option<seq<int>>)

  /** The `search` prop, reduced to what the state machine reads. */
  datatype SearchConfig = SearchConfig(enabled: Option<bool>, debounceMs: Option<int>)

  const FallbackPageSize: int := 15
  const FallbackPageSizeOptions: seq<int> := [5, 10, 15, 25]
  const DefaultDebounceMs: int := 300

  /** The value the `pagination` prop takes when the caller omits it. */
  const DefaultPagination := PaginationConfig(Some(true), Some(15), Some(FallbackPageSizeOptions))

  function EffectivePagination(p: Option<PaginationConfig>): PaginationConfig {
    p.GetOr(DefaultPagination)
  }

  datatype QueryState = QueryState(
    currentPage: int,
    pageSize: int,
    searchQuery: string,
    debouncedSearch: string)

  /** `pagination.pageSize || 15`: a missing or zero page size falls back to 15. */
  function InitialPageSize(p: Option<PaginationConfig>): (r: int)
    ensures r != 0
    ensures var ps := EffectivePagination(p).pageSize;
      r == (if ps.Some? && ps.value != 0 then ps.value else FallbackPageSize)
  {
    match EffectivePagination(p).pageSize
    case Some(n) => if n != 0 then n else FallbackPageSize
    case None => FallbackPageSize
  }

  /** The state a freshly mounted table starts in. */
  function Initial(p: Option<PaginationConfig>): (s: QueryState)
    ensures s.currentPage == 1
    ensures s.searchQuery == "" && s.debouncedSearch == ""
    ensures s.pageSize != 0
    ensures p.None? ==> s.pageSize == 15
    ensures s.pageSize == InitialPageSize(p)
    ensures FetchKeyOf(s) == FetchKey(1, InitialPageSize(p), "")
  {
    QueryState(1, InitialPageSize(p), "", "")
  }

  /** `pagination.pageSizeOptions || [5, 10, 15, 25]`; an empty array is kept, since arrays are truthy. */
  function PageSizeOptions(p: Option<PaginationConfig>): (r: seq<int>)
    ensures p.None? ==> r == [5, 10, 15, 25]
    ensures p.Some? && p.value.pageSizeOptions.Some? ==> r == p.value.pageSizeOptions.value
    ensures p.Some? && p.value.pageSizeOptions.None? ==> r == [5, 10, 15, 25]
  {
    EffectivePagination(p).pageSizeOptions.GetOr(FallbackPageSizeOptions)
  }

  /** `pagination.enabled && meta`: the controls need an explicit `enabled` and a server `meta`. */
  function ShowPaginationControls(p: Option<PaginationConfig>, meta: Option<Meta>): (r: bool)
    ensures r ==> meta.Some?
    ensures p.None? ==> (r <==> meta.Some?)
    ensures p.Some? && p.value.enabled != Some(true) ==> !r
    ensures p.Some? && p.value.enabled == Some(true) ==> (r <==> meta.Some?)
  {
    EffectivePagination(p).enabled == Some(true) && meta.Some?
  }

  /**
   * The controls appear exactly when the server sent a `meta` and the table is paginated:
   * either by default or by an explicit `enabled: true`.
   */
  lemma ControlsIffPaginatedWithMeta(p: Option<PaginationConfig>, meta: Option<Meta>)
    ensures ShowPaginationControls(p, meta) <==> meta.Some? && (p.None? || p.value.enabled == Some(true))
  {
  }

  /** `search?.debounceMs || 300`: a missing or zero delay falls back to 300 ms. */
  function DebounceDelay(search: Option<SearchConfig>): (ms: int)
    ensures ms != 0
    ensures search.Some? && search.value.debounceMs.Some? && search.value.debounceMs.value != 0 ==>
      ms == search.value.debounceMs.value
    ensures search.None? || search.value.debounceMs.None? || search.value.debounceMs.value == 0 ==>
      ms == DefaultDebounceMs
  {
    var d := if search.Some? then search.value.debounceMs else None;
    if d.Some? && d.value != 0 then d.value else DefaultDebounceMs
  }

  /** A keystroke in the search box: only the pending query changes. */
  function HandleSearch(s: QueryState, query: string): (t: QueryState)
    ensures t.searchQuery == query
    ensures t.currentPage == s.currentPage && t.pageSize == s.pageSize && t.debouncedSearch == s.debouncedSearch
  {
    s.(searchQuery := query)
  }

  /** The debounce timer firing: the pending query is committed and the table returns to page 1. */
  function CommitSearch(s: QueryState): (t: QueryState)
    ensures t.debouncedSearch == s.searchQuery && t.currentPage == 1
    ensures t.searchQuery == s.searchQuery && t.pageSize == s.pageSize
  {
    s.(debouncedSearch := s.searchQuery, currentPage := 1)
  }

  /** `handlePageChange`: moves to exactly the requested page. */
  function HandlePageChange(s: QueryState, newPage: int): (t: QueryState)
    ensures t.currentPage == newPage
    ensures t.pageSize == s.pageSize && t.searchQuery == s.searchQuery && t.debouncedSearch == s.debouncedSearch
  {
    s.(currentPage := newPage)
  }

  /**
   * `handlePageSizeChange`: the selector hands over the option's text, which is parsed;
   * the page resets to 1. The selector only offers numerals, so the text always parses.
   */
  function HandlePageSizeChange(s: QueryState, newSize: string): (t: QueryState)
    requires ParseInt(newSize).Some?
    ensures t.pageSize == ParseInt(newSize).value && t.currentPage == 1
    ensures t.searchQuery == s.searchQuery && t.debouncedSearch == s.debouncedSearch
  {
    s.(pageSize := ParseInt(newSize).value, currentPage := 1)
  }

  /** The previous-page button, disabled unless the server reports a previous page. */
  function ClickPrev(s: QueryState, meta: Meta): (t: QueryState)
    ensures t.currentPage == (if meta.hasPrevPage then s.currentPage - 1 else s.currentPage)
    ensures t.pageSize == s.pageSize && t.searchQuery == s.searchQuery && t.debouncedSearch == s.debouncedSearch
  {
    if meta.hasPrevPage then HandlePageChange(s, s.currentPage - 1) else s
  }

  /** The next-page button, disabled unless the server reports a next page. */
  function ClickNext(s: QueryState, meta: Meta): (t: QueryState)
    ensures t.currentPage == (if meta.hasNextPage then s.currentPage + 1 else s.currentPage)
    ensures t.pageSize == s.pageSize && t.searchQuery == s.searchQuery && t.debouncedSearch == s.debouncedSearch
  {
    if meta.hasNextPage then HandlePageChange(s, s.currentPage + 1) else s
  }

  /** What the data fetch depends on: the page, the page size and the committed search. */
  datatype FetchKey = FetchKey(page: int, pageSize: int, search: string)

  function FetchKeyOf(s: QueryState): FetchKey {
    FetchKey(s.currentPage, s.pageSize, s.debouncedSearch)
  }

  /** The state after a burst of keystrokes, each replacing the pending query. */
  function TypeAll(s: QueryState, keys: seq<string>): QueryState
    decreases |keys|
  {
    if |keys| == 0 then s else TypeAll(HandleSearch(s, keys[0]), keys[1..])
  }

  /** Typing changes only the pending query, which ends up as the last keystroke's text. */
  lemma {:induction false} TypeAllKeepsLast(s: QueryState, keys: seq<string>)
    requires |keys| > 0
    ensures TypeAll(s, keys) == s.(searchQuery := keys[|keys| - 1])
    decreases |keys|
  {
    if |keys| > 1 {
      TypeAllKeepsLast(HandleSearch(s, keys[0]), keys[1..]);
    }
  }

  /** Typing alone never changes what is fetched. */
  lemma {:induction false} TypingDoesNotRefetch(s: QueryState, keys: seq<string>)
    ensures FetchKeyOf(TypeAll(s, keys)) == FetchKeyOf(s)
  {
    if |keys| > 0 {
      TypeAllKeepsLast(s, keys);
    }
  }

  /**
   * A burst of keystrokes followed by the one debounce commit fetches page 1 of the
   * final keystroke's query, with the page size unchanged.
   */
  lemma BurstThenCommit(s: QueryState, keys: seq<string>)
    requires |keys| > 0
    ensures FetchKeyOf(CommitSearch(TypeAll(s, keys))) == FetchKey(1, s.pageSize, keys[|keys| - 1])
  {
    TypeAllKeepsLast(s, keys);
  }

  /** Picking a page-size option sets exactly that size: its text parses back to it. */
  lemma SelectPageSizeOption(s: QueryState, size: int)
    ensures ParseInt(ToDecimal(size)).Some?
    ensures HandlePageSizeChange(s, ToDecimal(size)).pageSize == size
    ensures HandlePageSizeChange(s, ToDecimal(size)).currentPage == 1
  {
    ParseIntToDecimal(size);
  }

  /** States the table can be in: pages count from 1 and the page size is positive. */
  predicate Valid(s: QueryState) {
    s.currentPage >= 1 && s.pageSize > 0
  }

  /** The page the table shows, as the server paginates `matched` for this state. */
  function ServerMeta<T>(s: QueryState, matched: seq<T>): Meta
    requires Valid(s)
  {
    Paginate(matched, s.currentPage, s.pageSize).meta
  }

  /** The pages the prev and next buttons can reach: 1 up to the page count, or just 1 when there are no results. */
  predicate InRange(s: QueryState, totalPages: nat) {
    1 <= s.currentPage <= Max(1, totalPages)
  }

  /**
   * Trusting the server's flags keeps navigation in range: from any page within
   * `1..max(1, totalPages)`, either button lands within that range again.
   */
  lemma NavigationStaysInRange<T>(s: QueryState, matched: seq<T>)
    requires Valid(s)
    requires InRange(s, ServerMeta(s, matched).totalPages)
    ensures var m := ServerMeta(s, matched);
      && Valid(ClickPrev(s, m)) && InRange(ClickPrev(s, m), m.totalPages)
      && Valid(ClickNext(s, m)) && InRange(ClickNext(s, m), m.totalPages)
  {
    HasNextIffBeforeLastPage(matched, s.currentPage, s.pageSize);
  }

  /**
   * A mounted table starts in a valid state exactly when its configured page size is
   * absent, zero (which falls back to 15) or positive.
   */
  lemma InitialValidIff(p: Option<PaginationConfig>)
    ensures Valid(Initial(p)) <==>
      var ps := EffectivePagination(p).pageSize; ps.None? || ps.value >= 0
  {
  }

  /** Committing a search and changing page size keep a valid state valid. */
  lemma TransitionsKeepValid(s: QueryState, query: string, size: int)
    requires Valid(s) && size > 0
    ensures Valid(HandleSearch(s, query))
    ensures Valid(CommitSearch(s))
    ensures Valid(HandlePageSizeChange(s, ToDecimal(size)))
  {
    ParseIntToDecimal(size);
  }
}
