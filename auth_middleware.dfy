/** `verifyFirebaseToken`: reads the bearer token from the Authorization
    header, has Firebase verify it, and attaches the decoded token. */
module AuthMiddleware {
  import opened Common
  import opened Strings

  const BearerPrefix := "Bearer "

  /** What verification of an ID token yields (only the uid is used). */
  datatype DecodedToken = DecodedToken(uid: string)

  /** Either `next()` is called with the decoded token, or a 401 reply is
      written whose body uses the key `message` (not `error`). */
  datatype AuthResult = Proceed(user: DecodedToken) | Unauthorized(message: string)

  /** `authHeader.split("Bearer ")[1]` for a header that starts with "Bearer ":
      the text after the prefix up to the next "Bearer ", or to the end. */
  function BearerToken(header: string): (token: string)
    requires BearerPrefix <= header
    ensures token <= header[|BearerPrefix|..]
    ensures forall j: nat :: j < |token| ==> !OccursAt(header[|BearerPrefix|..], BearerPrefix, j)
    ensures |token| == |header| - |BearerPrefix| || OccursAt(header[|BearerPrefix|..], BearerPrefix, |token|)
  {
    var rest := header[|BearerPrefix|..];
    assert header[..|BearerPrefix|] == BearerPrefix;
    assert IndexOf(header, BearerPrefix) == Some(0);
    var parts := Split(header, BearerPrefix);
    assert parts == [header[..0]] + Split(rest, BearerPrefix);
    assert parts[1] == Split(rest, BearerPrefix)[0];
    parts[1]
  }

  /** Without a second "Bearer " the token is the header minus its prefix. */
  lemma TokenIsRestOfHeader(header: string)
    requires BearerPrefix <= header
    requires !Contains(header[|BearerPrefix|..], BearerPrefix)
    ensures BearerToken(header) == header[|BearerPrefix|..]
  {
    var token := BearerToken(header);
  }

  /** The middleware's decision for an Authorization header (None when the
      request has none) and the verifier's answer for a token (None when
      verification throws). */
  function Authenticate(header: Option<string>, verify: string -> Option<DecodedToken>): (r: AuthResult)
    ensures header.None? ==> r == Unauthorized("Unauthorized: No token provided")
    ensures header.Some? && !(BearerPrefix <= header.value) ==> r == Unauthorized("Unauthorized: No token provided")
    ensures header.Some? && BearerPrefix <= header.value ==>
      r == (match verify(BearerToken(header.value))
            case Some(t) => Proceed(t)
            case None => Unauthorized("Unauthorized: Invalid token"))
  {
    if header.None? || !(BearerPrefix <= header.value) then Unauthorized("Unauthorized: No token provided")
    else
      match verify(BearerToken(header.value))
      case Some(t) => Proceed(t)
      case None => Unauthorized("Unauthorized: Invalid token")
  }

  /** The incoming request: its Authorization header, and `req.user`, which
      the middleware sets. */
  class Request {
    const authorization: Option<string>
    var user: Option<DecodedToken>

    constructor (authorization: Option<string>)
      ensures this.authorization == authorization && user == None
    {
      this.authorization := authorization;
      user := None;
    }
  }

  /** Runs the middleware on `req`: on success `req.user` is the decoded token. */
  method VerifyFirebaseToken(req: Request, verify: string -> Option<DecodedToken>) returns (r: AuthResult)
    modifies req
    ensures r == Authenticate(req.authorization, verify)
    ensures r.Proceed? ==> req.user == Some(r.user)
    ensures r.Unauthorized? ==> req.user == old(req.user)
  {
    r := Authenticate(req.authorization, verify);
    if r.Proceed? {
      req.user := Some(r.user);
    }
  }
}
