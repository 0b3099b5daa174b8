/**
 * The user service (backend/src/main/java/com/javachallenge/user/UserService.java)
 * over an abstract user table: a sequence of rows in insertion order whose
 * generated id is the row's position. `github_id` is a unique column.
 */
module Users {
  import opened Wrappers
  import opened Entities

  /** Generated ids are positions and no two rows share a GitHub id. */
  predicate WellFormed(store: seq<User>) {
    (forall i :: 0 <= i < |store| ==> store[i].id == i) &&
    (forall i, j :: 0 <= i < j < |store| ==> store[i].githubId != store[j].githubId)
  }

  /** `findByGithubId`: the row holding the GitHub id, if any. */
  function FindByGithubId(store: seq<User>, githubId: int): (r: Option<User>)
    ensures r.Some? ==> r.value in store && r.value.githubId == githubId
    ensures r.None? <==> forall u :: u in store ==> u.githubId != githubId
  {
    if |store| == 0 then None
    else if store[0].githubId == githubId then Some(store[0])
    else FindByGithubId(store[1..], githubId)
  }

  /**
   * `findOrCreate`: an existing row for the GitHub id is returned as stored;
   * otherwise a new row with the given fields is saved and returned.
   */
  function FindOrCreate(store: seq<User>, githubId: int, username: string, avatarUrl: Option<string>)
    : (r: (User, seq<User>))
    requires WellFormed(store)
    ensures WellFormed(r.1)
    ensures r.0 in r.1 && r.0.githubId == githubId
    ensures FindByGithubId(store, githubId).Some? ==> r == (FindByGithubId(store, githubId).value, store)
    ensures FindByGithubId(store, githubId).None? ==>
              r.1 == store + [r.0] && r.0 == User(|store|, githubId, username, avatarUrl)
  {
    match FindByGithubId(store, githubId)
    case Some(u) => (u, store)
    case None =>
      var u := User(|store|, githubId, username, avatarUrl);
      (u, store + [u])
  }

  /**
   * Repeating `findOrCreate` with the same GitHub id, whatever the other
   * arguments, returns the same user and leaves the table as the first call
   * left it: at most one row is ever added, and an existing user's name and
   * avatar are never overwritten.
   */
  lemma FindOrCreateIdempotent(store: seq<User>, githubId: int, name1: string, avatar1: Option<string>,
                               name2: string, avatar2: Option<string>)
    requires WellFormed(store)
    ensures var (u1, s1) := FindOrCreate(store, githubId, name1, avatar1);
            var (u2, s2) := FindOrCreate(s1, githubId, name2, avatar2);
            u2 == u1 && s2 == s1 && |store| <= |s1| <= |store| + 1
  {
    var (u1, s1) := FindOrCreate(store, githubId, name1, avatar1);
    if FindByGithubId(store, githubId).None? {
      var f := FindByGithubId(s1, githubId);
      assert f.Some?;
      assert f.value == u1 by {
        var i :| 0 <= i < |s1| && s1[i] == f.value;
        assert i == |store|;
      }
    } else {
      var f := FindByGithubId(store, githubId).value;
      assert f.githubId == u1.githubId;
      var i :| 0 <= i < |store| && store[i] == f;
      var j :| 0 <= j < |store| && store[j] == u1;
      assert i == j;
    }
  }

  /** The error `findByUsername` raises when no user has the name. */
  function UserNotFound(username: string): string {
    "User not found: " + username
  }

  /** Spring Data's failure when a single-result query matches several rows. */
  const NonUniqueResult: string := "query did not return a unique result"

  function WithUsername(store: seq<User>, username: string): (r: seq<User>)
    ensures forall u :: u in r <==> u in store && u.username == username
  {
    if |store| == 0 then []
    else (if store[0].username == username then [store[0]] else []) + WithUsername(store[1..], username)
  }

  /**
   * `findByUsername`: the user with the name, or "User not found: " + name.
   * The username column is not unique; a name held by several rows makes the
   * single-result query fail.
   */
  function FindByUsername(store: seq<User>, username: string): (r: Result<User>)
    ensures r.Ok? ==> r.value in store && r.value.username == username
    ensures r.Ok? <==> |WithUsername(store, username)| == 1
    ensures (forall u :: u in store ==> u.username != username) <==> r == Err(UserNotFound(username))
  {
    var found := WithUsername(store, username);
    if |found| == 0 then Err(UserNotFound(username))
    else if |found| == 1 then Ok(found[0])
    else
      assert found[0] in found;
      assert NonUniqueResult[0] != UserNotFound(username)[0];
      Err(NonUniqueResult)
  }
}
