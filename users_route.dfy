/** The `/api/users` routes: the caller's profile (created on first read),
    its update, and the profile-image upload. `uid` is the caller's token uid. */
module UsersRoute {
  import opened Common
  import opened Strings
  import opened Records
  import opened Store
  import opened Upload

  /** The Firebase Auth record of a user; its optional fields may be absent. */
  datatype AuthUser = AuthUser(email: Option<string>, displayName: Option<string>, photoURL: Option<string>)

  /** The profile created on the first read: role "user", and the auth
      record's fields with "" for the absent ones. */
  function ProfileFromAuth(uid: string, a: AuthUser, now: nat): (p: UserProfile)
    ensures p.uid == uid && p.role == UserRole && p.updatedAt.None?
    ensures a.email.None? ==> p.email == ""
    ensures a.displayName.None? ==> p.displayName == ""
    ensures a.photoURL.None? ==> p.photoURL == ""
    ensures a.email.Some? ==> p.email == a.email.value
    ensures a.displayName.Some? ==> p.displayName == a.displayName.value
    ensures a.photoURL.Some? ==> p.photoURL == a.photoURL.value
    ensures p.createdAt == now
  {
    UserProfile(uid, a.email.GetOr(""), a.displayName.GetOr(""), UserRole, a.photoURL.GetOr(""), now, None)
  }

  /** GET /api/users/profile. `authUser` is how the Auth lookup ends; it is
      made only when the profile is missing. */
  method GetProfile(db: Db, uid: string, authUser: Fallible<AuthUser>, now: nat) returns (r: Result<UserProfile>)
    modifies db
    ensures db.posts == old(db.posts)
    ensures uid in old(db.users) ==> r == Ok(200, old(db.users)[uid]) && db.users == old(db.users)
    ensures uid !in old(db.users) && authUser.Failed? ==> r == Err(500, authUser.message) && db.users == old(db.users)
    ensures uid !in old(db.users) && authUser.Done? ==>
      (r == Ok(200, ProfileFromAuth(uid, authUser.value, now)) && db.users == old(db.users)[uid := r.value])
    ensures r.Ok? ==> uid in db.users && db.users[uid] == r.value
  {
    var existing := UserDoc(db.users, uid);
    if existing.Some? {
      return Ok(200, existing.value);
    }
    if authUser.Failed? {
      return Err(500, authUser.message);
    }
    var profile := ProfileFromAuth(uid, authUser.value, now);
    db.users := db.users[uid := profile];
    r := Ok(200, profile);
  }

  /** A second read returns what the first one created and writes nothing. */
  lemma ProfileCreatedOnce(users: map<string, UserProfile>, uid: string, a: AuthUser, now: nat)
    requires uid !in users
    ensures var after := users[uid := ProfileFromAuth(uid, a, now)];
      UserDoc(after, uid) == Some(ProfileFromAuth(uid, a, now))
  {
  }

  /** The profile after PUT /api/users/profile: the display name changes only
      to a non-empty value; `updatedAt` is set. */
  function EditedProfile(p: UserProfile, displayName: string, now: nat): (q: UserProfile)
    ensures q.(displayName := p.displayName, updatedAt := p.updatedAt) == p
    ensures displayName != "" ==> q.displayName == displayName
    ensures displayName == "" ==> q.displayName == p.displayName
    ensures q.updatedAt == Some(now)
  {
    var q := if displayName != "" then p.(displayName := displayName) else p;
    q.(updatedAt := Some(now))
  }

  /** The update never touches the role, e-mail or photo. */
  lemma EditKeepsRole(p: UserProfile, displayName: string, now: nat)
    ensures var q := EditedProfile(p, displayName, now);
      q.role == p.role && q.email == p.email && q.photoURL == p.photoURL && q.uid == p.uid
  {
  }

  /** PUT /api/users/profile. The store's `update` fails on a missing
      document, which the handler reports as 500. */
  method UpdateProfile(db: Db, uid: string, displayName: string, now: nat) returns (r: Result<string>)
    modifies db
    ensures db.posts == old(db.posts)
    ensures uid !in old(db.users) ==> r == Err(500, NoDocumentToUpdate) && db.users == old(db.users)
    ensures uid in old(db.users) ==>
      (r == Ok(200, "Profile updated successfully")
       && db.users == old(db.users)[uid := EditedProfile(old(db.users)[uid], displayName, now)])
  {
    if uid !in db.users {
      return Err(500, NoDocumentToUpdate);
    }
    db.users := db.users[uid := EditedProfile(db.users[uid], displayName, now)];
    r := Ok(200, "Profile updated successfully");
  }

  /** Where a profile image is stored: `profile-images/<uid>/<base name of the temporary file>`. */
  function ProfileImagePath(uid: string, tempPath: string): (path: string)
    ensures "profile-images/" + uid + "/" <= path
    ensures '/' !in path[|"profile-images/" + uid + "/"|..]
  {
    var path := "profile-images/" + uid + "/" + Basename(tempPath);
    assert path[|"profile-images/" + uid + "/"|..] == Basename(tempPath);
    path
  }

  /** The stored image keeps the name multer gave the temporary file: the
      uuid and the original extension. */
  lemma ProfileImageKeepsTempName(uid: string, dir: string, uuid: string, originalName: string)
    requires '/' !in uuid
    ensures ProfileImagePath(uid, dir + "/" + TempFileName(uuid, originalName))
              == "profile-images/" + uid + "/" + uuid + Extname(originalName)
  {
    var name := TempFileName(uuid, originalName);
    BasenameOfTempFile(dir, uuid, originalName);
    assert Basename(dir + "/" + name) == uuid + Extname(originalName);
  }

  /** The file as the handler sees it after the upload stage: the client's
      file and the path multer stored it at. */
  datatype StoredFile = StoredFile(file: IncomingFile, tempPath: string)

  /** The handler of POST /api/users/profile/image, after the upload stage
      let the file through (or none was sent). `signedUrl` is how the
      storage upload and URL signing end. Returns the reply and the storage
      path, when an upload was attempted. */
  method StoreProfileImage(db: Db, uid: string, stored: Option<StoredFile>, signedUrl: Fallible<string>, now: nat)
    returns (r: Result<string>, uploaded: Option<string>)
    modifies db
    ensures db.posts == old(db.posts)
    ensures stored.None? ==> r == Err(400, "No image file provided") && uploaded == None
    ensures stored.Some? ==> uploaded == Some(ProfileImagePath(uid, stored.value.tempPath))
    ensures stored.Some? && signedUrl.Failed? ==> r == Err(500, signedUrl.message)
    ensures stored.Some? && signedUrl.Done? && uid !in old(db.users) ==> r == Err(500, NoDocumentToUpdate)
    ensures r.Ok? <==> stored.Some? && signedUrl.Done? && uid in old(db.users)
    ensures r.Ok? ==>
      (r == Ok(200, signedUrl.value)
       && db.users == old(db.users)[uid := old(db.users)[uid].(photoURL := signedUrl.value, updatedAt := Some(now))])
    ensures r.Err? ==> db.users == old(db.users)
  {
    if stored.None? {
      return Err(400, "No image file provided"), None;
    }
    uploaded := Some(ProfileImagePath(uid, stored.value.tempPath));
    if signedUrl.Failed? {
      return Err(500, signedUrl.message), uploaded;
    }
    if uid !in db.users {
      return Err(500, NoDocumentToUpdate), uploaded;
    }
    var profile := db.users[uid];
    db.users := db.users[uid := profile.(photoURL := signedUrl.value, updatedAt := Some(now))];
    r := Ok(200, signedUrl.value);
  }

  /** The upload stage followed by the handler: a file the stage refuses
      never reaches it. */
  method UploadProfileImage(db: Db, uid: string, image: Option<StoredFile>, signedUrl: Fallible<string>, now: nat)
    returns (r: Result<string>, uploaded: Option<string>)
    modifies db
    ensures db.posts == old(db.posts)
    ensures image.Some? && ScreenUpload(image.value.file).Some? ==>
      r == Err(500, UploadErrorMessage(ScreenUpload(image.value.file).value)) && uploaded == None
      && db.users == old(db.users)
    ensures image.None? || ScreenUpload(image.value.file).None? ==>
      (r.Ok? <==> image.Some? && signedUrl.Done? && uid in old(db.users))
    ensures image.Some? && ScreenUpload(image.value.file).None? ==>
      uploaded == Some(ProfileImagePath(uid, image.value.tempPath))
    ensures image.None? ==> r == Err(400, "No image file provided") && uploaded == None && db.users == old(db.users)
    ensures image.Some? && ScreenUpload(image.value.file).None? && signedUrl.Failed? ==>
      r == Err(500, signedUrl.message) && db.users == old(db.users)
    ensures image.Some? && ScreenUpload(image.value.file).None? && signedUrl.Done? && uid !in old(db.users) ==>
      r == Err(500, NoDocumentToUpdate) && db.users == old(db.users)
    ensures r.Ok? ==>
      (r == Ok(200, signedUrl.value)
       && db.users == old(db.users)[uid := old(db.users)[uid].(photoURL := signedUrl.value, updatedAt := Some(now))])
  {
    if image.Some? {
      var screen := ScreenUpload(image.value.file);
      if screen.Some? {
        return Err(500, UploadErrorMessage(screen.value)), None;
      }
    }
    r, uploaded := StoreProfileImage(db, uid, image, signedUrl, now);
  }
}
