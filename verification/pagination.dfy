/**
 * Query defaults, the page window and the `meta` record shared by the two list routes.
 */
module Pagination {
  import opened Wrappers

  const DefaultLimit: int := 15
  const DefaultPage: int := 1

  /** The parsed `limit`, `page` and `search` query parameters. */
  datatype Query = Query(limit: int, page: int, search: string)

  /** The pagination record of a successful response. */
  datatype Meta = Meta(
    total: nat,
    page: int,
    limit: int,
    totalPages: nat,
    hasNextPage: bool,
    hasPrevPage: bool)

  /** One page of results with its metadata. */
  datatype Page<T> = Page(items: seq<T>, meta: Meta)

  /**
   * `get(name) || default`: an absent parameter takes its default, a present one is
   * used as given.
   */
  function ParseQuery(limit: Option<int>, page: Option<int>, search: Option<string>): (q: Query)
    ensures limit.None? ==> q.limit == 15
    ensures page.None? ==> q.page == 1
    ensures search.None? ==> q.search == ""
    ensures limit.Some? ==> q.limit == limit.value
    ensures page.Some? ==> q.page == page.value
    ensures search.Some? ==> q.search == search.value
  {
    Query(limit.GetOr(DefaultLimit), page.GetOr(DefaultPage), search.GetOr(""))
  }

  /** The queries the model covers: a positive page size and pages numbered from 1. */
  predicate ValidQuery(q: Query) {
    q.limit > 0 && q.page >= 1
  }

  /** `Math.ceil(n / d)`: the least number of pages of size `d` that hold `n` items. */
  function CeilDiv(n: nat, d: int): (r: nat)
    requires d > 0
    ensures r * d >= n
    ensures (r - 1) * d < n
  {
    var r := (n + d - 1) / d;
    assert (n + d - 1) == r * d + (n + d - 1) % d;
    r
  }

  /** `xs.slice(start, end)` for non-negative bounds: clamped to the sequence, empty when `end <= start`. */
  function Slice<T>(xs: seq<T>, start: nat, end: nat): (r: seq<T>)
    ensures |r| == if start < end && start < |xs| then Min(end, |xs|) - start else 0
    ensures forall k :: 0 <= k < |r| ==> r[k] == xs[start + k]
  {
    if start < end && start < |xs| then xs[start..Min(end, |xs|)] else []
  }

  /**
   * The route's pagination step: the window `[(page-1)*limit, (page-1)*limit + limit)`
   * of the filtered list and the `meta` record describing it.
   */
  function Paginate<T>(xs: seq<T>, page: int, limit: int): (p: Page<T>)
    requires limit > 0 && page >= 1
    ensures p.meta.total == |xs|
    ensures p.meta.page == page && p.meta.limit == limit
    ensures |p.items| <= limit
    ensures var start := (page - 1) * limit;
      start >= 0 && p.items == xs[Min(start, |xs|)..Min(start + limit, |xs|)]
    ensures p.meta.totalPages == CeilDiv(|xs|, limit)
    ensures p.meta.hasNextPage <==> page * limit < |xs|
    ensures p.meta.hasPrevPage <==> page > 1
  {
    WindowBounds(page, limit);
    var start := (page - 1) * limit;
    var end := start + limit;
    var items := Slice(xs, start, end);
    assert items == xs[Min(start, |xs|)..Min(end, |xs|)];
    Page(items, Meta(|xs|, page, limit, CeilDiv(|xs|, limit), end < |xs|, page > 1))
  }

  /** The window of page `page` starts at a non-negative offset and ends `limit` later, at `page * limit`. */
  lemma WindowBounds(page: int, limit: int)
    requires limit > 0 && page >= 1
    ensures (page - 1) * limit >= 0
    ensures (page - 1) * limit + limit == page * limit
  {
    MulLe(0, page - 1, limit);
  }

  lemma MulLe(a: int, b: int, c: int)
    requires a <= b && c >= 0
    ensures a * c <= b * c
  {
  }

  /** The server's next-page flag agrees with the page count: there is a next page iff this is not the last. */
  lemma HasNextIffBeforeLastPage<T>(xs: seq<T>, page: int, limit: int)
    requires limit > 0 && page >= 1
    ensures Paginate(xs, page, limit).meta.hasNextPage <==> page < Paginate(xs, page, limit).meta.totalPages
  {
    var t := Paginate(xs, page, limit).meta.totalPages;
    if page < t {
      MulLe(page, t - 1, limit);
    } else {
      MulLe(t, page, limit);
    }
  }

  /** Asking for a page past the last one yields no items and no next page. */
  lemma PastLastPageIsEmpty<T>(xs: seq<T>, page: int, limit: int)
    requires limit > 0 && page >= 1
    requires page > Paginate(xs, page, limit).meta.totalPages
    ensures Paginate(xs, page, limit).items == []
    ensures !Paginate(xs, page, limit).meta.hasNextPage
  {
    var t := Paginate(xs, page, limit).meta.totalPages;
    MulLe(t, page - 1, limit);
    HasNextIffBeforeLastPage(xs, page, limit);
  }

  /** A page has items exactly when its number is at most the page count. */
  lemma PageNonEmptyIffInRange<T>(xs: seq<T>, page: int, limit: int)
    requires limit > 0 && page >= 1
    ensures |Paginate(xs, page, limit).items| > 0 <==> page <= Paginate(xs, page, limit).meta.totalPages
  {
    var t := Paginate(xs, page, limit).meta.totalPages;
    if page <= t {
      MulLe(page - 1, t - 1, limit);
    } else {
      PastLastPageIsEmpty(xs, page, limit);
    }
  }

  /** Every item of the list appears on page `i / limit + 1`, at offset `i % limit`. */
  lemma ItemOnItsPage<T>(xs: seq<T>, limit: int, i: nat)
    requires limit > 0 && i < |xs|
    ensures var p := Paginate(xs, i / limit + 1, limit);
      && i / limit + 1 <= p.meta.totalPages
      && i % limit < |p.items|
      && p.items[i % limit] == xs[i]
  {
    var page := i / limit + 1;
    assert i == (page - 1) * limit + i % limit;
    PageNonEmptyIffInRange(xs, page, limit);
  }

  /** The items of pages `1..k`, concatenated. */
  function ItemsUpTo<T>(xs: seq<T>, limit: int, k: nat): seq<T>
    requires limit > 0
  {
    if k == 0 then [] else ItemsUpTo(xs, limit, k - 1) + Paginate(xs, k, limit).items
  }

  /** Page `k` is the chunk of the list between offsets `(k-1)*limit` and `k*limit`, clamped. */
  lemma PageIsChunk<T>(xs: seq<T>, limit: int, k: nat)
    requires limit > 0 && k >= 1
    ensures Paginate(xs, k, limit).items == xs[Min((k - 1) * limit, |xs|)..Min(k * limit, |xs|)]
  {
    WindowBounds(k, limit);
  }

  /** Pages `1..k` together hold exactly the first `k * limit` items, in order. */
  lemma {:induction false} ItemsUpToIsPrefix<T>(xs: seq<T>, limit: int, k: nat)
    requires limit > 0
    ensures ItemsUpTo(xs, limit, k) == xs[..Min(k * limit, |xs|)]
  {
    if k > 0 {
      ItemsUpToIsPrefix(xs, limit, k - 1);
      PageIsChunk(xs, limit, k);
      var a := Min((k - 1) * limit, |xs|);
      var b := Min(k * limit, |xs|);
      assert ItemsUpTo(xs, limit, k) == xs[..a] + xs[a..b];
      assert xs[..a] + xs[a..b] == xs[..b];
    }
  }

  /** Walking pages `1..totalPages` visits every item of the list once, in order, and nothing else. */
  lemma PagesCoverList<T>(xs: seq<T>, limit: int)
    requires limit > 0
    ensures ItemsUpTo(xs, limit, Paginate(xs, 1, limit).meta.totalPages) == xs
  {
    ItemsUpToIsPrefix(xs, limit, Paginate(xs, 1, limit).meta.totalPages);
  }

  /** Fifteen results with ten per page: a full first page and a second page of five. */
  lemma FifteenByTenScenario<T>(xs: seq<T>)
    requires |xs| == 15
    ensures var p1 := Paginate(xs, 1, 10);
      |p1.items| == 10 && p1.meta.totalPages == 2 && p1.meta.hasNextPage && !p1.meta.hasPrevPage
    ensures var p2 := Paginate(xs, 2, 10);
      |p2.items| == 5 && !p2.meta.hasNextPage && p2.meta.hasPrevPage
  {
  }
}
