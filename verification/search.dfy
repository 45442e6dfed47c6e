/**
 * The case-insensitive user search both list routes apply before paginating.
 */
module UserSearch {
  import opened Text
  import opened Filter

  /** The fields of a user record that the routes and the table read. */
  datatype User = User(id: int, name: string, email: string, username: string, totalTasks: int)

  /** The filter callback: the lower-cased term occurs in the lower-cased name, email or username. */
  predicate Matches(u: User, search: string) {
    var term := Lower(search);
    Includes(Lower(u.name), term) || Includes(Lower(u.email), term) || Includes(Lower(u.username), term)
  }

  /** The callback as a function value, for records whose user fields are reached through `profile`. */
  function Matcher<T>(profile: T -> User, search: string): T -> bool {
    x => Matches(profile(x), search)
  }

  /**
   * `if (search) users = users.filter(...)`: an empty term skips the filter,
   * any other term keeps the matching records.
   */
  function ApplySearch<T>(xs: seq<T>, profile: T -> User, search: string): (r: seq<T>)
    ensures search == "" ==> r == xs
    ensures forall x :: x in r ==> x in xs && Matches(profile(x), search)
    ensures forall x :: x in xs && Matches(profile(x), search) ==> x in r
  {
    if search == "" then xs else Keep(xs, Matcher(profile, search))
  }

  /** The empty term is included in every string, so every user matches it. */
  lemma EmptyTermMatchesEveryone(u: User)
    ensures Matches(u, "")
  {
    assert Lower("") == "";
  }

  /** Skipping the filter for an empty term gives what filtering would have given. */
  lemma SearchGuardOnlySkipsWork<T>(xs: seq<T>, profile: T -> User, search: string)
    ensures ApplySearch(xs, profile, search) == Keep(xs, Matcher(profile, search))
  {
    if search == "" {
      forall i | 0 <= i < |xs|
        ensures Matcher(profile, search)(xs[i])
      {
        EmptyTermMatchesEveryone(profile(xs[i]));
      }
      KeepAll(xs, Matcher(profile, search));
    }
  }

  /**
   * The search result is exactly the matching records, at increasing positions of
   * the input: nothing matching is dropped and the relative order is kept.
   */
  lemma SearchSelectsMatches<T>(xs: seq<T>, profile: T -> User, search: string) returns (idx: seq<nat>)
    ensures SelectsAt(ApplySearch(xs, profile, search), xs, idx)
    ensures forall i :: 0 <= i < |xs| ==> (Matches(profile(xs[i]), search) <==> i in idx)
  {
    SearchGuardOnlySkipsWork(xs, profile, search);
    idx := KeepSelectsInOrder(xs, Matcher(profile, search));
  }

  /** Lower-casing the term first does not change which users match. */
  lemma MatchesIgnoresTermCase(u: User, search: string)
    ensures Matches(u, Lower(search)) == Matches(u, search)
  {
    LowerIdempotent(search);
  }

  /** A user whose name contains "Doe" matches the term "doe". */
  lemma JaneDoeMatches()
    ensures Matches(User(1, "Jane Doe", "jane.doe@example.com", "janedoe", 2), "doe")
  {
    LowerOfLowerCase("doe");
    var name := Lower("Jane Doe");
    assert name[5..8] == "doe";
    PositionIncluded(name, "doe", 5);
  }

  /**
   * A user none of whose lower-cased fields holds the first letter of the lower-cased
   * term does not match it ("John Smith" and the term "doe").
   */
  lemma FirstLetterAbsentNoMatch(u: User, search: string)
    requires |search| > 0
    requires forall i :: 0 <= i < |u.name| ==> LowerChar(u.name[i]) != LowerChar(search[0])
    requires forall i :: 0 <= i < |u.email| ==> LowerChar(u.email[i]) != LowerChar(search[0])
    requires forall i :: 0 <= i < |u.username| ==> LowerChar(u.username[i]) != LowerChar(search[0])
    ensures !Matches(u, search)
  {
    var term := Lower(search);
    MissingFirstCharNotIncluded(Lower(u.name), term);
    MissingFirstCharNotIncluded(Lower(u.email), term);
    MissingFirstCharNotIncluded(Lower(u.username), term);
  }
}
