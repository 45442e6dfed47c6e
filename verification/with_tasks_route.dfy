/** `GET /api/users/with-tasks`: the same list, each user carrying its tasks. */
module WithTasksRoute {
  import opened Wrappers
  import opened Pagination
  import opened UserSearch
  import opened Envelope
  import UsersRoute

  /** The failure body's boolean key is spelled `sucess` in this route. */
  const FailureKey := "sucess"
  const FailureMessage := "Failed to fetch users with task"

  /** A user record with its embedded task list; the task shape is left abstract. */
  datatype UserWithTasks<Task> = UserWithTasks(user: User, tasks: seq<Task>)

  /** The search reads the user fields of the record. */
  function Profile<Task>(u: UserWithTasks<Task>): User {
    u.user
  }

  function Get<Task>(ps: Params, source: Option<seq<UserWithTasks<Task>>>): (r: Response<UserWithTasks<Task>>)
    requires Accepted(ps)
    ensures source.None? <==> r.status == StatusServerError
    ensures source.None? ==> r.body == Failure(FailureKey, FailureMessage)
    ensures source.Some? ==> r.status == StatusOk && r.body.Success?
    ensures source.Some? ==>
      var q := QueryOf(ps); var p := Paginate(ApplySearch(source.value, Profile, q.search), q.page, q.limit);
      r.body == Success(p.items, p.meta)
    ensures source.Some? ==> r.body.meta.total == |ApplySearch(source.value, Profile, QueryOf(ps).search)|
    ensures source.Some? ==> r.body.meta.page == QueryOf(ps).page && r.body.meta.limit == QueryOf(ps).limit
    ensures source.Some? ==> r.body.meta.totalPages == CeilDiv(r.body.meta.total, QueryOf(ps).limit)
    ensures source.Some? ==> (r.body.meta.hasNextPage <==> QueryOf(ps).page * QueryOf(ps).limit < r.body.meta.total)
    ensures source.Some? ==> (r.body.meta.hasPrevPage <==> QueryOf(ps).page > 1)
  {
    match source
    case None => Response(StatusServerError, Failure(FailureKey, FailureMessage))
    case Some(users) => ListResponse(ps, users, Profile)
  }

  /** A request without parameters returns the first fifteen records, page 1, and no previous page. */
  lemma DefaultRequest<Task>(users: seq<UserWithTasks<Task>>)
    ensures var r := Get(Params(None, None, None), Some(users));
      && r.body.Success?
      && r.body.data == users[..Min(15, |users|)]
      && r.body.meta.page == 1 && r.body.meta.limit == 15
      && !r.body.meta.hasPrevPage
  {
  }

  /**
   * The records a request reports in `meta.total` are exactly those whose user fields
   * match the term, in source order, each with its own task list.
   */
  lemma MatchedRecordsAreExactlyMatches<Task>(ps: Params, users: seq<UserWithTasks<Task>>) returns (idx: seq<nat>)
    requires Accepted(ps)
    ensures Get(ps, Some(users)).body.meta.total == |idx|
    ensures forall k :: 0 <= k < |idx| ==> idx[k] < |users|
    ensures forall k, l :: 0 <= k < l < |idx| ==> idx[k] < idx[l]
    ensures forall i :: 0 <= i < |users| ==> (Matches(users[i].user, QueryOf(ps).search) <==> i in idx)
  {
    idx := SearchSelectsMatches(users, Profile, QueryOf(ps).search);
  }

  /** The next-page flag holds iff the requested page is before the last one; the previous-page flag iff it is after the first. */
  lemma FlagsAgreeWithPageCount<Task>(ps: Params, users: seq<UserWithTasks<Task>>)
    requires Accepted(ps)
    ensures var m := Get(ps, Some(users)).body.meta;
      && (m.hasNextPage <==> m.page < m.totalPages)
      && (m.hasPrevPage <==> m.page > 1)
  {
    var q := QueryOf(ps);
    HasNextIffBeforeLastPage(ApplySearch(users, Profile, q.search), q.page, q.limit);
  }

  /** The two routes' failure envelopes differ: only the users route has a `success` key. */
  lemma FailureEnvelopesDiffer<Task>(ps: Params)
    requires Accepted(ps)
    ensures Get<Task>(ps, None).body.flagKey != "success"
    ensures Get<Task>(ps, None).body.error != UsersRoute.Get(ps, None).body.error
  {
  }
}
