/** The image checks the client makes when a file is picked (the post form
    and the profile page share them, with different size limits), and how
    they compare with the server's upload stage. */
module ImagePicker {
  import opened Common
  import opened Strings
  import opened Upload

  const InvalidImageType := "Please select a valid image file (JPEG, PNG, GIF)"

  /** `type.match(/image\/(jpeg|jpg|png|gif)/i)`: unanchored and
      case-insensitive (for these ASCII letters, lower-casing both sides). */
  predicate MatchesImageMime(mimetype: string) {
    var t := ToLowerAscii(mimetype);
    Contains(t, "image/jpeg") || Contains(t, "image/jpg") || Contains(t, "image/png") || Contains(t, "image/gif")
  }

  /** The size message names the limit in MB. */
  function TooLargeMessage(limitMb: nat): string {
    "Image size should be less than " + NatToDecimal(limitMb) + "MB"
  }

  /** The first check a picked file fails, as the message shown, if any:
      the type first, then the size (a file of exactly the limit passes). */
  function ImageProblem(f: IncomingFile, limitMb: nat): (m: Option<string>)
    ensures m.None? <==> MatchesImageMime(f.mimetype) && f.size <= limitMb * 1024 * 1024
    ensures !MatchesImageMime(f.mimetype) ==> m == Some(InvalidImageType)
    ensures MatchesImageMime(f.mimetype) && f.size > limitMb * 1024 * 1024 ==> m == Some(TooLargeMessage(limitMb))
  {
    if !MatchesImageMime(f.mimetype) then Some(InvalidImageType)
    else if f.size > limitMb * 1024 * 1024 then Some(TooLargeMessage(limitMb))
    else None
  }

  /** An occurrence of a pattern holds an occurrence of each of its parts. */
  lemma ContainsPart(s: string, pat: string, k: nat, part: string)
    requires Contains(s, pat) && k + |part| <= |pat| && pat[k..k + |part|] == part
    ensures Contains(s, part)
  {
    var i :| 0 <= i <= |s| - |pat| && OccursAt(s, pat, i);
    assert s[i..i + |pat|] == pat;
    forall j | 0 <= j < |part| ensures s[i + k + j] == part[j] {
      assert s[i + k + j] == s[i..i + |pat|][k + j];
    }
    assert s[i + k..i + k + |part|] == part;
    assert OccursAt(s, part, i + k);
  }

  /** A lower-case type the client accepts also passes the server's type
      test, whose pattern is case-sensitive. */
  lemma ClientMimeAcceptedByServer(mimetype: string)
    requires MatchesImageMime(mimetype) && ToLowerAscii(mimetype) == mimetype
    ensures MentionsImageType(mimetype)
  {
    var t := ToLowerAscii(mimetype);
    if Contains(t, "image/jpeg") {
      ContainsPart(t, "image/jpeg", 6, "jpeg");
    } else if Contains(t, "image/jpg") {
      ContainsPart(t, "image/jpg", 6, "jpg");
    } else if Contains(t, "image/png") {
      ContainsPart(t, "image/png", 6, "png");
    } else {
      ContainsPart(t, "image/gif", 6, "gif");
    }
  }

  /** An upper-case type passes the client's check and fails the server's. */
  lemma UpperCaseMimeRefusedByServer()
    ensures MatchesImageMime("IMAGE/PNG") && !MentionsImageType("IMAGE/PNG")
  {
    var s := "IMAGE/PNG";
    assert ToLowerAscii(s) == "image/png";
    assert OccursAt("image/png", "image/png", 0);
    ContainsChar(s, "jpeg", 0);
    ContainsChar(s, "jpg", 0);
    ContainsChar(s, "png", 0);
    ContainsChar(s, "gif", 0);
  }

  /** The client never looks at the file name, the server does: a picked
      file without an extension passes the client and is refused upstream. */
  lemma NamelessExtensionRefusedByServer()
    ensures ImageProblem(IncomingFile("photo", "image/png", 10), 5) == None
    ensures ScreenUpload(IncomingFile("photo", "image/png", 10)) == Some(NotAnImage)
  {
    var name := "photo";
    BasenameOfPlainName(name);
    assert '.' !in name;
    assert Extname(name) == [];
    assert ToLowerAscii([]) == [];
    assert !Contains([], "jpeg") && !Contains([], "jpg") && !Contains([], "png") && !Contains([], "gif");
    assert ToLowerAscii("image/png") == "image/png";
    assert OccursAt("image/png", "image/png", 0);
  }

  /** A limit of at most 5 MB keeps every accepted file within the
      server's size limit. */
  lemma ClientSizeWithinServerLimit(f: IncomingFile, limitMb: nat)
    requires limitMb <= 5 && ImageProblem(f, limitMb).None?
    ensures f.size <= MaxUploadBytes
  {
  }
}
