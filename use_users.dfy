/** The admin users hook: pages of user rows fetched twenty at a time, and
    the role change that updates one row locally once the server agrees. */
module UseUsers {
  import opened Common
  import opened Records
  import AdminRoute
  import Api
  import Ordering

  const UsersPageSize: nat := 20
  const FetchUsersFallback := "Failed to fetch users"
  const RoleChangeFallback := "Failed to update user role"

  /** The role the table's button asks for: the other one. */
  function NextRole(role: string): (r: string)
    ensures r == AdminRole || r == UserRole
    ensures role == AdminRole <==> r == UserRole
  {
    if role == AdminRole then UserRole else AdminRole
  }

  // ---------------------------------------------------------------------
  // Updating a row's role: the code as written and the corrected one
  // ---------------------------------------------------------------------

  /** The rows of the admin listing carry `id` and no `uid`, so the `uid`
      the client reads from a row is always absent. */
  function UidField(row: UserRow): (uid: Option<string>)
    ensures uid.None?
  {
    None
  }

  /** A template literal renders an absent value as "undefined". */
  function PathSegment(v: Option<string>): (s: string)
    ensures v.Some? ==> s == v.value
  {
    match v
    case Some(x) => x
    case None => "undefined"
  }

  /** The local update as written: every row whose `uid` equals `userId`
      (absent equals absent) takes the new role. */
  function SetRoleAsWritten(users: seq<UserRow>, userId: Option<string>, role: string): (r: seq<UserRow>)
    ensures |r| == |users|
    ensures forall i :: 0 <= i < |users| ==>
      r[i] == if UidField(users[i]) == userId then users[i].(role := role) else users[i]
  {
    seq(|users|, i requires 0 <= i < |users| =>
      if UidField(users[i]) == userId then users[i].(role := role) else users[i])
  }

  /** The corrected local update: the row whose `id` is the changed user's
      takes the new role; every other row is left as it was. */
  function SetRole(users: seq<UserRow>, id: string, role: string): (r: seq<UserRow>)
    ensures |r| == |users|
    ensures forall i :: 0 <= i < |users| && users[i].id == id ==> r[i] == users[i].(role := role)
    ensures forall i :: 0 <= i < |users| && users[i].id != id ==> r[i] == users[i]
  {
    seq(|users|, i requires 0 <= i < |users| =>
      if users[i].id == id then users[i].(role := role) else users[i])
  }

  /** Rows that show the store's profiles. */
  predicate RowsShow(rows: seq<UserRow>, users: map<string, UserProfile>) {
    forall i :: 0 <= i < |rows| ==> rows[i].id in users && rows[i] == AdminRoute.RowOf(rows[i].id, users[rows[i].id])
  }

  /** As written, the button of any listed row asks the server to change
      user "undefined": no listed row has that id, the server answers 404
      unless a profile has it, and were the call to succeed, every row
      would take the new role. */
  lemma RoleChangeAsWrittenMissesTarget(rows: seq<UserRow>, k: nat, users: map<string, UserProfile>)
    requires k < |rows| && RowsShow(rows, users) && "undefined" !in users
    ensures var target := PathSegment(UidField(rows[k]));
      target == "undefined" && target !in users
      && (forall i :: 0 <= i < |rows| ==> rows[i].id != target)
      && forall i :: 0 <= i < |rows| ==>
           SetRoleAsWritten(rows, UidField(rows[k]), NextRole(rows[k].role))[i].role == NextRole(rows[k].role)
  {
  }

  /** Two rows, the first made admin: as written both change, corrected only the first. */
  lemma AsWrittenChangesEveryRow()
    ensures var a := UserRow("u1", "a@example.com", "A", UserRole, "", 1);
      var b := UserRow("u2", "b@example.com", "B", AdminRole, "", 2);
      SetRoleAsWritten([a, b], UidField(a), AdminRole)[1].role == AdminRole
      && SetRole([a, b], a.id, AdminRole) == [a.(role := AdminRole), b]
  {
  }

  /** After the server changes a user's role, the corrected local update
      leaves the rows showing the store exactly as the server left it. */
  lemma SetRoleFollowsServer(rows: seq<UserRow>, users: map<string, UserProfile>, id: string, role: string, now: nat)
    requires RowsShow(rows, users) && id in users
    ensures RowsShow(SetRole(rows, id, role), users[id := users[id].(role := role, updatedAt := Some(now))])
  {
  }

  /** The server reads the admin table's request as twenty rows after the
      cursor. */
  lemma TableAsksForTwentyUsers(cursor: string)
    requires Api.PlainText(cursor)
    ensures var q := Api.ServerUsersQuery(Api.ParseQuery(Api.RenderQuery(Api.UsersParams(UsersPageSize, cursor))));
      Ordering.ValidLimit(q.limit) && Ordering.LimitOf(q.limit, AdminRoute.DefaultUsersLimit) == 20 && q.lastId == cursor
  {
    Api.UsersQueryArrives(UsersPageSize, cursor);
  }

  /** The hook's state. */
  class UsersAdmin {
    var users: seq<UserRow>
    var loading: bool
    var error: Option<string>
    var success: Option<string>
    var lastId: Option<string>
    var hasMore: bool
    var processingUser: Option<string>

    /** The hook starts out loading, since it fetches on mount. */
    constructor ()
      ensures users == [] && loading && error == None && success == None
      ensures lastId == None && !hasMore && processingUser == None
    {
      users := [];
      loading := true;
      error := None;
      success := None;
      lastId := None;
      hasMore := false;
      processingUser := None;
    }

    /** The synchronous part of `fetchUsers(reset)`: a load-more waits for
        the fetch under way, a reset does not. A started fetch asks for
        `UsersPageSize` rows after `cursor` at `url`. */
    method StartFetch(reset: bool, apiUrl: string) returns (started: bool, cursor: string, url: string)
      modifies this
      ensures started <==> !(old(loading) && !reset)
      ensures !started ==> unchanged(this) && cursor == ""
      ensures started ==> (loading && error == None && users == old(users) && success == old(success)
        && lastId == old(lastId) && hasMore == old(hasMore) && processingUser == old(processingUser))
      ensures started ==> cursor == (if reset then "" else old(lastId).GetOr(""))
      ensures started ==> url == apiUrl + "/admin/users?" + Api.RenderQuery(Api.UsersParams(UsersPageSize, cursor))
      ensures !started ==> url == ""
    {
      if loading && !reset {
        return false, "", "";
      }
      loading := true;
      error := None;
      started := true;
      cursor := if reset then "" else lastId.GetOr("");
      url := Api.GetUsersUrl(apiUrl, UsersPageSize, cursor);
    }

    /** The part of `fetchUsers(reset)` after `getUsers` settles. */
    method FinishFetch(reset: bool, outcome: Outcome<UsersPage>)
      modifies this
      ensures !loading && success == old(success) && processingUser == old(processingUser)
      ensures outcome.Resolved? ==>
        (users == (if reset then [] else old(users)) + outcome.value.users
         && lastId == outcome.value.lastId && hasMore == outcome.value.hasMore && error == old(error))
      ensures outcome.Rejected? ==>
        (error == Some(ErrorText(outcome.thrown, FetchUsersFallback))
         && users == old(users) && lastId == old(lastId) && hasMore == old(hasMore))
    {
      match outcome {
        case Resolved(page) =>
        users := (if reset then [] else users) + page.users;
        lastId := page.lastId;
        hasMore := page.hasMore;
        case Rejected(thrown) =>
        error := Some(ErrorText(thrown, FetchUsersFallback));
      }
      loading := false;
    }

    /** The synchronous part of `handleRoleChange`. */
    method StartRoleChange(userId: string)
      modifies this
      ensures processingUser == Some(userId) && error == None && success == None
      ensures users == old(users) && loading == old(loading) && lastId == old(lastId) && hasMore == old(hasMore)
    {
      processingUser := Some(userId);
      error := None;
      success := None;
    }

    /** The part of `handleRoleChange` after `updateUserRole` settles
        (`failure` is what it threw, if anything). */
    method FinishRoleChange(userId: string, role: string, failure: Option<Thrown>)
      modifies this
      ensures processingUser == None
      ensures loading == old(loading) && lastId == old(lastId) && hasMore == old(hasMore)
      ensures failure.None? ==>
        (users == SetRole(old(users), userId, role)
         && success == Some("User role updated to " + role) && error == old(error))
      ensures failure.Some? ==>
        (users == old(users) && success == old(success)
         && error == Some(ErrorText(failure.value, RoleChangeFallback)))
    {
      match failure {
        case None =>
        users := SetRole(users, userId, role);
        success := Some("User role updated to " + role);
        case Some(thrown) =>
        error := Some(ErrorText(thrown, RoleChangeFallback));
      }
      processingUser := None;
    }
  }
}
