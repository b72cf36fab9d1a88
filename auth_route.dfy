/** `POST /api/auth/signup`: creates the Auth user, then its profile. */
module AuthRoute {
  import opened Common
  import opened Records
  import opened Store

  /** The part of the created Auth record the handler reads. */
  datatype CreatedUser = CreatedUser(uid: string, email: string)

  /** The profile stored for a new account. */
  function SignupProfile(created: CreatedUser, displayName: Option<string>, now: nat): (p: UserProfile)
    ensures p.uid == created.uid && p.email == created.email && p.role == UserRole && p.photoURL == ""
    ensures p.createdAt == now && p.updatedAt.None?
    ensures displayName.None? ==> p.displayName == ""
    ensures displayName.Some? ==> p.displayName == displayName.value
  {
    UserProfile(created.uid, created.email, displayName.GetOr(""), UserRole, "", now, None)
  }

  /** The reply carries the new uid. `created` is how `createUser` ended. */
  method Signup(db: Db, created: Fallible<CreatedUser>, displayName: Option<string>, now: nat) returns (r: Result<string>)
    modifies db
    ensures db.posts == old(db.posts)
    ensures created.Failed? ==> r == Err(500, created.message) && db.users == old(db.users)
    ensures created.Done? ==>
      (r == Ok(201, created.value.uid)
       && db.users == old(db.users)[created.value.uid := SignupProfile(created.value, displayName, now)])
    ensures r.Ok? ==> r.value in db.users && db.users[r.value].uid == r.value && db.users[r.value].role == UserRole
  {
    if created.Failed? {
      return Err(500, created.message);
    }
    var profile := SignupProfile(created.value, displayName, now);
    db.users := db.users[created.value.uid := profile];
    r := Ok(201, created.value.uid);
  }

  /** Every profile signup stores is keyed by its own uid and holds role
      "user", whatever the request sent. */
  lemma SignupKeyMatchesUid(users: map<string, UserProfile>, created: CreatedUser, displayName: Option<string>, now: nat)
    requires forall k :: k in users ==> users[k].uid == k
    ensures var after := users[created.uid := SignupProfile(created, displayName, now)];
      (forall k :: k in after ==> after[k].uid == k) && after[created.uid].role == UserRole
  {
  }
}
