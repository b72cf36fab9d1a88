/** The `/api/admin` routes: the paginated user listing and the role update.
    Both sit behind `checkRole("admin")`; `uid` is the caller's token uid. */
module AdminRoute {
  import opened Common
  import opened Records
  import opened Ordering
  import opened Store
  import opened RoleMiddleware

  const DefaultUsersLimit: nat := 20

  /** The query string of the listing; an absent `lastId` is "". */
  datatype UsersQuery = UsersQuery(limit: Option<string>, lastId: string)

  /** Users are ordered by `createdAt` descending (ties by id, descending). */
  function UserKey(id: string, p: UserProfile): Key {
    Key(false, p.createdAt, id)
  }

  function AllUserKeys(users: map<string, UserProfile>): (ks: set<Key>)
    ensures forall k :: k in ks <==> k.id in users && k == UserKey(k.id, users[k.id])
  {
    set id | id in users :: UserKey(id, users[id])
  }

  function UserCursorOf(lastId: string, users: map<string, UserProfile>): (c: Option<Key>)
    ensures c.Some? <==> lastId != "" && lastId in users
    ensures c.Some? ==> c.value == UserKey(lastId, users[lastId])
  {
    if lastId != "" && lastId in users then Some(UserKey(lastId, users[lastId])) else None
  }

  /** The keys of the listed users, in the order returned: the first
      `limit` users past the cursor, or all of them when fewer remain. */
  function UsersListing(q: UsersQuery, users: map<string, UserProfile>): (ks: seq<Key>)
    requires ValidLimit(q.limit)
    ensures |ks| <= LimitOf(q.limit, DefaultUsersLimit)
    ensures ks <= After(UserCursorOf(q.lastId, users), Sort(AllUserKeys(users)))
    ensures |ks| < LimitOf(q.limit, DefaultUsersLimit) ==> ks == After(UserCursorOf(q.lastId, users), Sort(AllUserKeys(users)))
  {
    Take(LimitOf(q.limit, DefaultUsersLimit), After(UserCursorOf(q.lastId, users), Sort(AllUserKeys(users))))
  }

  /** Listed users exist, are newest first, come after the cursor, and at
      most `limit` of them are returned. */
  lemma UsersListingSound(q: UsersQuery, users: map<string, UserProfile>)
    requires ValidLimit(q.limit)
    ensures var ks := UsersListing(q, users);
      |ks| <= LimitOf(q.limit, DefaultUsersLimit) && Sorted(ks)
      && (forall i :: 0 <= i < |ks| ==>
            (ks[i].id in users && ks[i] == UserKey(ks[i].id, users[ks[i].id])
             && (UserCursorOf(q.lastId, users).Some? ==> Before(UserCursorOf(q.lastId, users).value, ks[i]))))
      && (forall i, j :: 0 <= i < j < |ks| ==> users[ks[i].id].createdAt >= users[ks[j].id].createdAt)
  {
    var cursor := UserCursorOf(q.lastId, users);
    var s := Sort(AllUserKeys(users));
    AfterMembers(cursor, s);
    AfterSorted(cursor, s);
    var ks := UsersListing(q, users);
    forall i | 0 <= i < |ks| ensures ks[i] in After(cursor, s) {
      assert ks[i] == After(cursor, s)[i];
    }
    assert Sorted(ks) by {
      forall i, j | 0 <= i < j < |ks| ensures Before(ks[i], ks[j]) {
        assert ks[i] == After(cursor, s)[i] && ks[j] == After(cursor, s)[j];
      }
    }
  }

  lemma ListedUsersExist(q: UsersQuery, users: map<string, UserProfile>)
    requires ValidLimit(q.limit)
    ensures forall i :: 0 <= i < |UsersListing(q, users)| ==> UsersListing(q, users)[i].id in users
  {
    UsersListingSound(q, users);
  }

  /** A `lastId` that names no user leaves the listing uncursored. */
  lemma UnknownUserCursorIgnored(q: UsersQuery, users: map<string, UserProfile>)
    requires ValidLimit(q.limit)
    requires q.lastId !in users
    ensures UsersListing(q, users) == UsersListing(q.(lastId := ""), users)
  {
  }

  /** Passing a full page's last row id back continues right where the
      page ended: the next page is the next `limit` users. */
  lemma UserNextPageContinues(q: UsersQuery, users: map<string, UserProfile>)
    requires ValidLimit(q.limit)
    requires "" !in users
    requires |UsersListing(q, users)| == LimitOf(q.limit, DefaultUsersLimit)
    ensures var ks := UsersListing(q, users); var n := LimitOf(q.limit, DefaultUsersLimit);
      UsersListing(q.(lastId := ks[n - 1].id), users)
        == Take(n, After(UserCursorOf(q.lastId, users), Sort(AllUserKeys(users)))[n..])
  {
    var n := LimitOf(q.limit, DefaultUsersLimit);
    var s := Sort(AllUserKeys(users));
    NextCursor(s, n, UserCursorOf(q.lastId, users));
    UsersListingSound(q, users);
    var last := UsersListing(q, users)[n - 1];
    assert last.id in users && last == UserKey(last.id, users[last.id]);
    assert UserCursorOf(last.id, users) == Some(last);
  }

  /** Following `lastId` page after page lists every user exactly once. */
  lemma UserPagesCoverAll(q: UsersQuery, users: map<string, UserProfile>)
    requires ValidLimit(q.limit)
    ensures var s := Sort(AllUserKeys(users)); var n := LimitOf(q.limit, DefaultUsersLimit);
      FollowPages(s, n, None)[0] == UsersListing(q.(lastId := ""), users)
      && Concat(FollowPages(s, n, None)) == s
  {
    var s := Sort(AllUserKeys(users));
    var n := LimitOf(q.limit, DefaultUsersLimit);
    FollowPagesCoverAll(s, n, None);
    assert UsersListing(q.(lastId := ""), users) == Take(n, s);
    assert FollowPages(s, n, None)[0] == Take(n, s);
  }

  /** One entry of the reply: exactly the six exposed fields. */
  function RowOf(id: string, p: UserProfile): (row: UserRow)
    ensures row.id == id && row.role == p.role && row.email == p.email
    ensures row.displayName == p.displayName && row.photoURL == p.photoURL && row.createdAt == p.createdAt
  {
    UserRow(id, p.email, p.displayName, p.role, p.photoURL, p.createdAt)
  }

  method RenderUsers(users: map<string, UserProfile>, keys: seq<Key>) returns (out: seq<UserRow>)
    requires forall i :: 0 <= i < |keys| ==> keys[i].id in users
    ensures |out| == |keys|
    ensures forall i :: 0 <= i < |keys| ==> out[i] == RowOf(keys[i].id, users[keys[i].id])
  {
    out := [];
    for i := 0 to |keys|
      invariant |out| == i
      invariant forall j :: 0 <= j < i ==> out[j] == RowOf(keys[j].id, users[keys[j].id])
    {
      var id := keys[i].id;
      out := out + [RowOf(id, users[id])];
    }
  }

  /** GET /api/admin/users, after the role gate. */
  method ListUsers(db: Db, uid: string, q: UsersQuery) returns (r: Result<UsersPage>)
    requires ValidLimit(q.limit)
    ensures CheckRole(AdminRole, LookupOf(UserDoc(db.users, uid))).Deny? ==>
      r == Err(CheckRole(AdminRole, LookupOf(UserDoc(db.users, uid))).status,
               CheckRole(AdminRole, LookupOf(UserDoc(db.users, uid))).error)
    ensures r.Ok? <==> CheckRole(AdminRole, LookupOf(UserDoc(db.users, uid))).Next?
    ensures r.Ok? ==> r.status == 200
    ensures r.Ok? ==>
      (var ks := UsersListing(q, db.users);
       |r.value.users| == |ks|
       && forall i :: 0 <= i < |ks| ==> ks[i].id in db.users && r.value.users[i] == RowOf(ks[i].id, db.users[ks[i].id]))
    ensures r.Ok? ==> r.value.lastId == (if r.value.users == [] then None else Some(r.value.users[|r.value.users| - 1].id))
    ensures r.Ok? ==> (r.value.hasMore <==> |r.value.users| == LimitOf(q.limit, DefaultUsersLimit))
  {
    var gate := CheckRole(AdminRole, LookupOf(UserDoc(db.users, uid)));
    if gate.Deny? {
      return Err(gate.status, gate.error);
    }
    var keys := UsersListing(q, db.users);
    ListedUsersExist(q, db.users);
    var rows := RenderUsers(db.users, keys);
    var limit := LimitOf(q.limit, DefaultUsersLimit);
    var lastId := if |rows| > 0 then Some(rows[|rows| - 1].id) else None;
    r := Ok(200, UsersPage(rows, lastId, |rows| == limit));
  }

  /** `!role || !["user", "admin"].includes(role)` fails exactly for values
      other than the two role strings. */
  predicate ValidRole(role: JsonValue) {
    role == JStr(UserRole) || role == JStr(AdminRole)
  }

  /** PATCH /api/admin/users/:id/role, after the role gate. */
  method UpdateRole(db: Db, uid: string, targetId: string, role: JsonValue, now: nat) returns (r: Result<string>)
    modifies db
    ensures db.posts == old(db.posts)
    ensures CheckRole(AdminRole, LookupOf(UserDoc(old(db.users), uid))).Deny? ==>
      r == Err(CheckRole(AdminRole, LookupOf(UserDoc(old(db.users), uid))).status,
               CheckRole(AdminRole, LookupOf(UserDoc(old(db.users), uid))).error)
    ensures CheckRole(AdminRole, LookupOf(UserDoc(old(db.users), uid))).Next? && !ValidRole(role) ==>
      r == Err(400, "Valid role (user or admin) is required")
    ensures CheckRole(AdminRole, LookupOf(UserDoc(old(db.users), uid))).Next? && ValidRole(role) && targetId !in old(db.users) ==>
      r == Err(404, "User not found")
    ensures r.Ok? <==>
      CheckRole(AdminRole, LookupOf(UserDoc(old(db.users), uid))).Next? && ValidRole(role) && targetId in old(db.users)
    ensures r.Ok? ==>
      (r == Ok(200, "User role updated to " + role.s + " successfully")
       && db.users == old(db.users)[targetId := old(db.users)[targetId].(role := role.s, updatedAt := Some(now))])
    ensures r.Err? ==> db.users == old(db.users)
  {
    var gate := CheckRole(AdminRole, LookupOf(UserDoc(db.users, uid)));
    if gate.Deny? {
      return Err(gate.status, gate.error);
    }
    if !ValidRole(role) {
      return Err(400, "Valid role (user or admin) is required");
    }
    if targetId !in db.users {
      return Err(404, "User not found");
    }
    var target := db.users[targetId];
    db.users := db.users[targetId := target.(role := role.s, updatedAt := Some(now))];
    r := Ok(200, "User role updated to " + role.s + " successfully");
  }

  /** Nothing stops an admin from demoting themself: afterwards the same
      caller no longer passes the admin gate. */
  lemma SelfDemotionAllowed(users: map<string, UserProfile>, uid: string, now: nat)
    requires uid in users && users[uid].role == AdminRole
    ensures CheckRole(AdminRole, LookupOf(UserDoc(users, uid))).Next?
    ensures var after := users[uid := users[uid].(role := UserRole, updatedAt := Some(now))];
      CheckRole(AdminRole, LookupOf(UserDoc(after, uid))) == Deny(403, "Access denied. admin role required.")
  {
  }
}
