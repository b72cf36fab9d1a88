/** The profile page: a display name and a profile image, saved with one
    submit that calls only the endpoints whose data changed. */
module ProfilePage {
  import opened Common
  import opened Records
  import opened Upload
  import opened ImagePicker
  import Api

  const ProfileImageLimitMb: nat := 2
  const ProfileUpdated := "Profile updated successfully"
  const UpdateProfileFallback := "Failed to update profile"

  /** The calls a submit makes, in order, before refreshing the profile:
      the name update when the name differs from the loaded profile's (or
      no profile is loaded), then the upload when an image is selected. */
  function SubmitCalls(displayName: string, profile: Option<UserProfile>, image: Option<IncomingFile>): (calls: seq<Api.ApiCall>)
    ensures Api.UpdateUserProfile in calls <==> profile.None? || displayName != profile.value.displayName
    ensures Api.UploadProfileImage in calls <==> image.Some?
    ensures |calls| <= 2 && (|calls| == 2 ==> calls == [Api.UpdateUserProfile, Api.UploadProfileImage])
  {
    (if profile.None? || displayName != profile.value.displayName then [Api.UpdateUserProfile] else [])
    + (if image.Some? then [Api.UploadProfileImage] else [])
  }

  /** Saving an unchanged name with no new image calls nothing but the refresh. */
  lemma UnchangedProfileCallsNothing(p: UserProfile)
    ensures SubmitCalls(p.displayName, Some(p), None) == []
  {
  }

  class ProfileForm {
    var displayName: string
    var selectedImage: Option<IncomingFile>
    var previewUrl: Option<string>
    var loading: bool
    var error: Option<string>
    var success: Option<string>

    /** A selected image always passed the page's checks. */
    predicate Valid()
      reads this
    {
      selectedImage.Some? ==> ImageProblem(selectedImage.value, ProfileImageLimitMb).None?
    }

    /** The name starts as the profile's when one is loaded at first render. */
    constructor (profile: Option<UserProfile>)
      ensures Valid()
      ensures displayName == (if profile.Some? then profile.value.displayName else "")
      ensures selectedImage == None && previewUrl == None && !loading && error == None && success == None
    {
      displayName := if profile.Some? then profile.value.displayName else "";
      selectedImage := None;
      previewUrl := None;
      loading := false;
      error := None;
      success := None;
    }

    /** `handleImageChange`, with the page's 2 MB limit; a refused file is
        reported in the page's error. */
    method HandleImageChange(file: Option<IncomingFile>, objectUrl: string)
      modifies this
      ensures old(Valid()) ==> Valid()
      ensures displayName == old(displayName) && loading == old(loading) && success == old(success)
      ensures file.None? ==> unchanged(this)
      ensures file.Some? && ImageProblem(file.value, ProfileImageLimitMb).Some? ==>
        (error == ImageProblem(file.value, ProfileImageLimitMb)
         && selectedImage == old(selectedImage) && previewUrl == old(previewUrl))
      ensures file.Some? && ImageProblem(file.value, ProfileImageLimitMb).None? ==>
        selectedImage == file && previewUrl == Some(objectUrl) && error == None
    {
      if file.None? {
        return;
      }
      var problem := ImageProblem(file.value, ProfileImageLimitMb);
      if problem.Some? {
        error := problem;
        return;
      }
      selectedImage := file;
      previewUrl := Some(objectUrl);
      error := None;
    }

    /** The synchronous part of `handleSubmit`: the calls to make. */
    method StartSubmit(profile: Option<UserProfile>) returns (calls: seq<Api.ApiCall>)
      modifies this
      ensures calls == SubmitCalls(old(displayName), profile, old(selectedImage))
      ensures loading && error == None && success == None
      ensures displayName == old(displayName) && selectedImage == old(selectedImage) && previewUrl == old(previewUrl)
    {
      loading := true;
      error := None;
      success := None;
      calls := SubmitCalls(displayName, profile, selectedImage);
    }

    /** The part of `handleSubmit` after its calls settle (`failure` is what
        the first failing one threw): on success the selection is cleared
        but the preview kept. */
    method FinishSubmit(failure: Option<Thrown>)
      modifies this
      ensures old(Valid()) ==> Valid()
      ensures !loading && displayName == old(displayName) && previewUrl == old(previewUrl)
      ensures failure.None? ==> success == Some(ProfileUpdated) && selectedImage == None && error == old(error)
      ensures failure.Some? ==>
        (error == Some(ErrorText(failure.value, UpdateProfileFallback))
         && success == old(success) && selectedImage == old(selectedImage))
    {
      match failure {
        case None =>
        success := Some(ProfileUpdated);
        selectedImage := None;
        case Some(thrown) =>
        error := Some(ErrorText(thrown, UpdateProfileFallback));
      }
      loading := false;
    }
  }
}
