/** The post form shared by the create and edit pages: picking an image,
    removing it, and the submit check. */
module PostForm {
  import opened Common
  import opened Strings
  import opened Upload
  import opened ImagePicker

  const FormImageLimitMb: nat := 5
  const FieldsRequired := "Title and content are required"

  /** What the form hands to its owner on submit. */
  datatype Submission = Submission(title: string, content: string, selectedImage: Option<IncomingFile>)

  class PostFormState {
    var title: string
    var content: string
    var selectedImage: Option<IncomingFile>
    var previewUrl: Option<string>
    var formError: Option<string>

    /** A selected image always passed the form's checks. */
    predicate Valid()
      reads this
    {
      selectedImage.Some? ==> ImageProblem(selectedImage.value, FormImageLimitMb).None?
    }

    /** The form starts from the initial values; an existing image URL is
        the first preview. */
    constructor (initialTitle: string, initialContent: string, initialImageUrl: string)
      ensures Valid()
      ensures title == initialTitle && content == initialContent && selectedImage == None && formError == None
      ensures previewUrl == (if initialImageUrl != "" then Some(initialImageUrl) else None)
    {
      title := initialTitle;
      content := initialContent;
      selectedImage := None;
      previewUrl := if initialImageUrl != "" then Some(initialImageUrl) else None;
      formError := None;
    }

    /** `handleImageChange`: a refused file leaves the selection as it was
        and shows why; an accepted one is selected and previewed through
        `objectUrl` (the object URL the browser makes for it). */
    method HandleImageChange(file: Option<IncomingFile>, objectUrl: string)
      modifies this
      ensures old(Valid()) ==> Valid()
      ensures title == old(title) && content == old(content)
      ensures file.None? ==> unchanged(this)
      ensures file.Some? && ImageProblem(file.value, FormImageLimitMb).Some? ==>
        (formError == ImageProblem(file.value, FormImageLimitMb)
         && selectedImage == old(selectedImage) && previewUrl == old(previewUrl))
      ensures file.Some? && ImageProblem(file.value, FormImageLimitMb).None? ==>
        selectedImage == file && previewUrl == Some(objectUrl) && formError == None
    {
      if file.None? {
        return;
      }
      var problem := ImageProblem(file.value, FormImageLimitMb);
      if problem.Some? {
        formError := problem;
        return;
      }
      selectedImage := file;
      previewUrl := Some(objectUrl);
      formError := None;
    }

    /** `handleRemoveImage`: no image and no preview, not even the initial one. */
    method HandleRemoveImage()
      modifies this
      ensures Valid()
      ensures selectedImage == None && previewUrl == None
      ensures title == old(title) && content == old(content) && formError == old(formError)
    {
      selectedImage := None;
      previewUrl := None;
    }

    /** `handleSubmitForm`: a blank title or content (only whitespace
        counts as blank) stops the submit; otherwise the untrimmed values
        and the selected image go to the owner. */
    method HandleSubmit() returns (submitted: Option<Submission>)
      modifies this
      ensures title == old(title) && content == old(content)
      ensures selectedImage == old(selectedImage) && previewUrl == old(previewUrl)
      ensures submitted.None? <==> Blank(title) || Blank(content)
      ensures submitted.None? ==> formError == Some(FieldsRequired)
      ensures submitted.Some? ==> submitted.value == Submission(title, content, selectedImage) && formError == None
    {
      TrimEmptyIffBlank(title);
      TrimEmptyIffBlank(content);
      if Trim(title) == [] || Trim(content) == [] {
        formError := Some(FieldsRequired);
        return None;
      }
      formError := None;
      submitted := Some(Submission(title, content, selectedImage));
    }
  }

  /** A submitted form never meets the server's "Title and content are
      required" reply, and its image, if the declared type is lower-case,
      passes the server's type test and size limit. What the server still
      checks on its own is the extension of the file name. */
  lemma SubmissionPassesServerChecks(s: Submission)
    requires !Blank(s.title) && !Blank(s.content)
    requires s.selectedImage.Some? ==> ImageProblem(s.selectedImage.value, FormImageLimitMb).None?
    requires s.selectedImage.Some? ==> ToLowerAscii(s.selectedImage.value.mimetype) == s.selectedImage.value.mimetype
    ensures s.title != "" && s.content != ""
    ensures s.selectedImage.Some? ==>
      MentionsImageType(s.selectedImage.value.mimetype) && s.selectedImage.value.size <= MaxUploadBytes
  {
    if s.selectedImage.Some? {
      ClientMimeAcceptedByServer(s.selectedImage.value.mimetype);
      ClientSizeWithinServerLimit(s.selectedImage.value, FormImageLimitMb);
    }
  }
}
