/** The multipart-upload stage shared by the post and profile-image routes:
    the file filter, the size limit, and Node's `path.extname` /
    `path.basename` on the names involved. */
module Upload {
  import opened Common
  import opened Strings

  /** The size limit of both upload middlewares: 5 MiB. */
  const MaxUploadBytes: nat := 5 * 1024 * 1024

  /** The file the client sent, as multer sees it before storing it. */
  datatype IncomingFile = IncomingFile(originalName: string, mimetype: string, size: nat)

  /** `/jpeg|jpg|png|gif/.test(s)`: the pattern is not anchored, so it
      matches any string that merely contains one of the four words. */
  predicate MentionsImageType(s: string) {
    Contains(s, "jpeg") || Contains(s, "jpg") || Contains(s, "png") || Contains(s, "gif")
  }

  /** `path.basename(p)`: the part after the last "/". */
  function Basename(p: string): (b: string)
    ensures '/' !in b
    ensures |b| <= |p| && p[|p| - |b|..] == b
    ensures b == p || (|b| < |p| && p[|p| - |b| - 1] == '/')
  {
    var parts := Split(p, "/");
    ContainsSingle(Last(parts), '/');
    LastPieceIsSuffix(parts, "/");
    Last(parts)
  }

  /** A name without "/" is its own base name. */
  lemma BasenameOfPlainName(name: string)
    requires '/' !in name
    ensures Basename(name) == name
  {
    ContainsSingle(name, '/');
    assert Split(name, "/") == [name];
  }

  /** The last piece of a join is a suffix of it, preceded by the separator
      unless it is the whole string. */
  lemma {:induction false} LastPieceIsSuffix(parts: seq<string>, sep: string)
    requires |parts| > 0
    ensures var s := Join(parts, sep); var l := Last(parts);
      |l| <= |s| && s[|s| - |l|..] == l && (l == s || (|l| + |sep| <= |s| && s[|s| - |l| - |sep|..|s| - |l|] == sep))
    decreases |parts|
  {
    if |parts| > 1 {
      LastPieceIsSuffix(parts[1..], sep);
      assert Last(parts[1..]) == Last(parts);
      var t := Join(parts[1..], sep);
      var s := Join(parts, sep);
      assert s == parts[0] + sep + t;
      var l := Last(parts);
      assert s[|s| - |t|..] == t;
      if l == t {
        assert s[|s| - |l| - |sep|..|s| - |l|] == sep;
      } else {
        assert s[|s| - |l|..] == t[|t| - |l|..];
        assert s[|s| - |l| - |sep|..|s| - |l|] == t[|t| - |l| - |sep|..|t| - |l|];
      }
    }
  }

  /** The index of the last "." in `b`, if any. */
  function LastDot(b: string): (r: Option<nat>)
    ensures r.Some? ==> r.value < |b| && b[r.value] == '.'
    ensures r.Some? ==> forall j :: r.value < j < |b| ==> b[j] != '.'
    ensures r.None? ==> '.' !in b
    decreases |b|
  {
    if b == [] then None
    else if b[|b| - 1] == '.' then Some(|b| - 1)
    else
      var r := LastDot(b[..|b| - 1]);
      assert forall j :: 0 <= j < |b| - 1 ==> b[..|b| - 1][j] == b[j];
      r
  }

  /** `path.extname(name)`: from the last "." of the base name to its end;
      empty when the base name has no ".", when its only "." is its first
      character (".bashrc"), and for "..". */
  function Extname(name: string): (e: string)
    ensures e == [] || e[0] == '.'
    ensures '/' !in e
    ensures |e| <= |Basename(name)| && Basename(name)[|Basename(name)| - |e|..] == e
    ensures forall j :: 0 < j < |e| ==> e[j] != '.'
    ensures e == [] <==> Basename(name) == ".." || forall j :: 0 < j < |Basename(name)| ==> Basename(name)[j] != '.'
  {
    var b := Basename(name);
    match LastDot(b)
    case None => []
    case Some(d) =>
      if d == 0 || b == ".." then []
      else
        assert forall c :: c in b[d..] ==> c in b;
        b[d..]
  }

  /** Why multer refuses a file, before the route handler runs. Both
      reach the server's error handler, which answers 500 with the text. */
  datatype UploadError = NotAnImage | TooLarge

  function UploadErrorMessage(e: UploadError): string {
    match e
    case NotAnImage => "Only image files are allowed"
    case TooLarge => "File too large"
  }

  /** The file filter: both the lower-cased extension and the declared
      mimetype must mention an image type. */
  predicate AcceptsImageUpload(f: IncomingFile) {
    MentionsImageType(ToLowerAscii(Extname(f.originalName))) && MentionsImageType(f.mimetype)
  }

  /** What the upload stage does with a file: refuse it, or let it through. */
  function ScreenUpload(f: IncomingFile): (r: Option<UploadError>)
    ensures r.None? <==> AcceptsImageUpload(f) && f.size <= MaxUploadBytes
    ensures r == Some(NotAnImage) <==> !AcceptsImageUpload(f)
  {
    if !AcceptsImageUpload(f) then Some(NotAnImage)
    else if f.size > MaxUploadBytes then Some(TooLarge)
    else None
  }

  /** The last "." of `p + "." + t`, when `t` holds none, is the one
      after `p`. */
  lemma {:induction false} LastDotBeforePlainTail(p: string, t: string)
    requires '.' !in t
    ensures LastDot(p + "." + t) == Some(|p|)
    decreases |t|
  {
    var b := p + "." + t;
    if t != [] {
      assert b[|b| - 1] == t[|t| - 1];
      assert b[..|b| - 1] == p + "." + t[..|t| - 1];
      LastDotBeforePlainTail(p, t[..|t| - 1]);
    }
  }

  /** A plain name made of a stem and a tail that starts with its only
      "." has that tail as its extension. */
  lemma ExtnameOfDottedName(stem: string, ext: string)
    requires stem != [] && |ext| >= 2 && ext[0] == '.'
    requires '/' !in stem && '/' !in ext && '.' !in ext[1..]
    ensures Extname(stem + ext) == ext
  {
    var name := stem + ext;
    assert '/' !in name;
    BasenameOfPlainName(name);
    assert name == stem + "." + ext[1..];
    LastDotBeforePlainTail(stem, ext[1..]);
    assert name[|stem|..] == ext;
  }

  /** ".jpgx" lower-cased and "text/png-notes" both mention an image word. */
  lemma JpgxAndPngNotesMentionImage()
    ensures MentionsImageType(ToLowerAscii(".jpgx")) && MentionsImageType("text/png-notes")
  {
    var e := ".jpgx";
    assert ToLowerAscii(e) == e;
    assert OccursAt(e, "jpg", 1);
    assert OccursAt("text/png-notes", "png", 5);
  }

  /** ".PNG" lower-cased and "image/png" both mention an image word. */
  lemma UpperPngMentionsImage()
    ensures MentionsImageType(ToLowerAscii(".PNG")) && MentionsImageType("image/png")
  {
    var e := ".png";
    assert ToLowerAscii(".PNG") == e;
    assert OccursAt(e, "png", 1);
    assert OccursAt("image/png", "png", 6);
  }

  /** The unanchored pattern accepts names that only contain an image word:
      any ".jpgx" file declared as "text/png-notes" passes the filter. */
  lemma FilterIsUnanchored(stem: string)
    requires stem != [] && '/' !in stem
    ensures AcceptsImageUpload(IncomingFile(stem + ".jpgx", "text/png-notes", 10))
  {
    ExtnameOfDottedName(stem, ".jpgx");
    JpgxAndPngNotesMentionImage();
  }

  /** The extension test is case-insensitive: any ".PNG" file passes as ".png". */
  lemma FilterIgnoresExtensionCase(stem: string)
    requires stem != [] && '/' !in stem
    ensures AcceptsImageUpload(IncomingFile(stem + ".PNG", "image/png", 10))
  {
    ExtnameOfDottedName(stem, ".PNG");
    UpperPngMentionsImage();
  }

  /** The name multer gives the stored temporary file: a fresh uuid followed
      by the original extension. */
  function TempFileName(uuid: string, originalName: string): string {
    uuid + Extname(originalName)
  }

  /** The base name of the stored temporary file is its generated name. */
  lemma BasenameOfTempFile(dir: string, uuid: string, originalName: string)
    requires '/' !in uuid
    ensures Basename(dir + "/" + TempFileName(uuid, originalName)) == TempFileName(uuid, originalName)
  {
    var t := TempFileName(uuid, originalName);
    assert '/' !in t;
    SplitLastPiece(dir, '/', t);
  }
}
