/** The client's view of the signed-in user's profile and admin status. */
module UserUtils {
  import opened Common
  import opened Records
  import opened Store
  import opened RoleMiddleware

  const FetchProfileFallback := "Failed to fetch user profile"

  /** `isAdmin(userProfile)`: a loaded profile whose role is "admin". */
  predicate IsAdmin(profile: Option<UserProfile>) {
    profile.Some? && profile.value.role == AdminRole
  }

  /** The client shows admin controls exactly when the server's role gate
      for "admin" would let the same user through. */
  lemma IsAdminAgreesWithCheckRole(users: map<string, UserProfile>, uid: string)
    ensures IsAdmin(UserDoc(users, uid)) <==> CheckRole(AdminRole, LookupOf(UserDoc(users, uid))) == Next
  {
    var d := CheckRole(AdminRole, LookupOf(UserDoc(users, uid)));
    if uid in users && users[uid].role != AdminRole {
      assert d.Deny?;
    }
  }

  /** The user context's profile state. */
  class UserSession {
    var userProfile: Option<UserProfile>
    var loading: bool
    var error: Option<string>

    constructor ()
      ensures userProfile == None && loading && error == None
    {
      userProfile := None;
      loading := true;
      error := None;
    }

    /** The synchronous part of `fetchUserProfile` (and `refreshProfile`,
        which only awaits it): with nobody signed in the profile is cleared
        and nothing is fetched. */
    method StartFetchProfile(signedIn: bool) returns (started: bool)
      modifies this
      ensures started == signedIn
      ensures !signedIn ==> userProfile == None && !loading && error == old(error)
      ensures signedIn ==> userProfile == old(userProfile) && loading && error == None
    {
      if !signedIn {
        userProfile := None;
        loading := false;
        return false;
      }
      loading := true;
      error := None;
      started := true;
    }

    /** The part of `fetchUserProfile` after `getUserProfile` settles. */
    method FinishFetchProfile(outcome: Outcome<UserProfile>)
      modifies this
      ensures !loading
      ensures outcome.Resolved? ==> userProfile == Some(outcome.value) && error == old(error)
      ensures outcome.Rejected? ==>
        userProfile == old(userProfile) && error == Some(ErrorText(outcome.thrown, FetchProfileFallback))
    {
      match outcome {
        case Resolved(profile) =>
        userProfile := Some(profile);
        case Rejected(thrown) =>
        error := Some(ErrorText(thrown, FetchProfileFallback));
      }
      loading := false;
    }
  }
}
