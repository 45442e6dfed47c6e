/** `GET /api/users`: a searchable, paginated list of users without tasks. */
module UsersRoute {
  import opened Wrappers
  import opened Pagination
  import opened UserSearch
  import opened Envelope

  const FailureKey := "success"
  const FailureMessage := "Failed to fetch users"

  /** Users are searched on their own fields. */
  function Self(u: User): User {
    u
  }

  /**
   * The handler. `source` is what the user generator produced, or `None` when the
   * body threw, which the handler turns into a 500 failure envelope.
   */
  function Get(ps: Params, source: Option<seq<User>>): (r: Response<User>)
    requires Accepted(ps)
    ensures source.None? <==> r.status == StatusServerError
    ensures source.None? ==> r.body == Failure(FailureKey, FailureMessage)
    ensures source.Some? ==> r.status == StatusOk && r.body.Success?
    ensures source.Some? ==>
      var q := QueryOf(ps); var p := Paginate(ApplySearch(source.value, Self, q.search), q.page, q.limit);
      r.body == Success(p.items, p.meta)
    ensures source.Some? ==> r.body.meta.total == |ApplySearch(source.value, Self, QueryOf(ps).search)|
    ensures source.Some? ==> r.body.meta.page == QueryOf(ps).page && r.body.meta.limit == QueryOf(ps).limit
    ensures source.Some? ==> r.body.meta.totalPages == CeilDiv(r.body.meta.total, QueryOf(ps).limit)
    ensures source.Some? ==> (r.body.meta.hasNextPage <==> QueryOf(ps).page * QueryOf(ps).limit < r.body.meta.total)
    ensures source.Some? ==> (r.body.meta.hasPrevPage <==> QueryOf(ps).page > 1)
  {
    match source
    case None => Response(StatusServerError, Failure(FailureKey, FailureMessage))
    case Some(users) => ListResponse(ps, users, Self)
  }

  /** A request without parameters answers the first fifteen users with no previous page. */
  lemma DefaultRequest(users: seq<User>)
    ensures var r := Get(Params(None, None, None), Some(users));
      && r.body.Success?
      && r.body.data == users[..Min(15, |users|)]
      && r.body.meta.page == 1 && r.body.meta.limit == 15
      && r.body.meta.total == |users|
      && !r.body.meta.hasPrevPage
      && (r.body.meta.hasNextPage <==> |users| > 15)
  {
  }

  /** Every returned user matches the search and comes from the source. */
  lemma ReturnedUsersMatch(ps: Params, users: seq<User>, u: User)
    requires Accepted(ps)
    requires u in Get(ps, Some(users)).body.data
    ensures u in users && Matches(u, QueryOf(ps).search)
  {
  }
}
