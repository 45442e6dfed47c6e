/**
 * The JSON envelope both list routes answer with, and the success path they share:
 * read the query, search, paginate.
 */
module Envelope {
  import opened Wrappers
  import opened Pagination
  import opened UserSearch

  /**
   * A response body: `{success: true, data, meta}` or a failure body whose one boolean
   * key, named `flagKey`, is `false`, next to an `error` message.
   */
  datatype Body<T> = Success(data: seq<T>, meta: Meta) | Failure(flagKey: string, error: string)

  datatype Response<T> = Response(status: nat, body: Body<T>)

  const StatusOk: nat := 200
  const StatusServerError: nat := 500

  /** The query parameters as read from the request URL; `None` for an absent one. */
  datatype Params = Params(limit: Option<int>, page: Option<int>, search: Option<string>)

  function QueryOf(ps: Params): Query {
    ParseQuery(ps.limit, ps.page, ps.search)
  }

  /** Requests the model covers: the parsed limit is positive and the parsed page at least 1. */
  predicate Accepted(ps: Params) {
    ValidQuery(QueryOf(ps))
  }

  /** The records a request selects before pagination. */
  function Matched<T>(ps: Params, xs: seq<T>, profile: T -> User): seq<T> {
    ApplySearch(xs, profile, QueryOf(ps).search)
  }

  /** The success response of either route for the records `xs`. */
  function ListResponse<T>(ps: Params, xs: seq<T>, profile: T -> User): (r: Response<T>)
    requires Accepted(ps)
    ensures r.status == StatusOk && r.body.Success?
    ensures forall x :: x in r.body.data ==> x in xs && Matches(profile(x), QueryOf(ps).search)
    ensures |r.body.data| <= QueryOf(ps).limit
    ensures r.body.meta.total == |Matched(ps, xs, profile)|
    ensures r.body.meta.page == QueryOf(ps).page && r.body.meta.limit == QueryOf(ps).limit
    ensures var q := QueryOf(ps); var p := Paginate(Matched(ps, xs, profile), q.page, q.limit);
      r.body.data == p.items && r.body.meta == p.meta
    ensures r.body.meta.totalPages == CeilDiv(r.body.meta.total, QueryOf(ps).limit)
    ensures r.body.meta.hasNextPage <==> QueryOf(ps).page * QueryOf(ps).limit < r.body.meta.total
    ensures r.body.meta.hasPrevPage <==> QueryOf(ps).page > 1
  {
    var q := QueryOf(ps);
    var matched := Matched(ps, xs, profile);
    var p := Paginate(matched, q.page, q.limit);
    assert forall x :: x in p.items ==> x in matched;
    Response(StatusOk, Success(p.items, p.meta))
  }
}
