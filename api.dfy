/** The client's API service: the base URL, the listing URLs it builds, the
    bearer header, and how a reply becomes a value or a thrown error. Also
    what the server reads back from those URLs. */
module Api {
  import opened Common
  import opened Strings
  import opened Records
  import opened Ordering
  import opened AuthMiddleware
  import PostsRoute
  import AdminRoute

  const DefaultBackend := "http://localhost:5000"

  /** `API_URL`: the configured backend (when set and non-empty) or the
      local default, followed by "/api". */
  function ApiUrl(backend: string): (url: string)
    ensures |url| >= 4 && url[|url| - 4..] == "/api"
    ensures backend != "" ==> url == backend + "/api"
    ensures backend == "" ==> url == DefaultBackend + "/api"
  {
    (if backend != "" then backend else DefaultBackend) + "/api"
  }

  // ---------------------------------------------------------------------
  // Query strings
  // ---------------------------------------------------------------------

  datatype Param = Param(key: string, value: string)

  function RenderParam(p: Param): string {
    p.key + "=" + p.value
  }

  function Pieces(ps: seq<Param>): (r: seq<string>)
    ensures |r| == |ps|
    ensures forall i :: 0 <= i < |ps| ==> r[i] == RenderParam(ps[i])
  {
    seq(|ps|, i requires 0 <= i < |ps| => RenderParam(ps[i]))
  }

  /** The text after "?": `key=value` pieces joined by "&". */
  function RenderQuery(ps: seq<Param>): string
    requires |ps| > 0
  {
    Join(Pieces(ps), "&")
  }

  lemma RenderQueryAppend(ps: seq<Param>, p: Param)
    requires |ps| > 0
    ensures RenderQuery(ps + [p]) == RenderQuery(ps) + "&" + RenderParam(p)
  {
    assert Pieces(ps + [p]) == Pieces(ps) + [RenderParam(p)];
    JoinAppend(Pieces(ps), "&", RenderParam(p));
  }

  /** The query parser's decoding of a key or value, as far as it is
      modelled here: each "+" reads as a space. */
  function DecodePlus(s: string): (d: string)
    ensures |d| == |s|
    ensures forall i :: 0 <= i < |s| ==> d[i] == if s[i] == '+' then ' ' else s[i]
  {
    seq(|s|, i requires 0 <= i < |s| => if s[i] == '+' then ' ' else s[i])
  }

  /** Text without "+" decodes to itself. */
  lemma DecodePlusOfPlain(s: string)
    requires '+' !in s
    ensures DecodePlus(s) == s
  {
  }

  /** Where the server cuts one piece into key and value: just after the
      "]" of the first "]=" when there is one, otherwise at the first "=". */
  function CutOf(piece: string): (cut: Option<nat>)
    ensures cut.Some? ==> cut.value < |piece| && piece[cut.value] == '='
    ensures cut.None? <==> !Contains(piece, "=")
  {
    match IndexOf(piece, "]=")
    case Some(i) =>
      assert piece[i..i + 2] == "]=";
      assert piece[i + 1..i + 2] == "=";
      assert OccursAt(piece, "=", i + 1);
      Some(i + 1)
    case None =>
      var c := IndexOf(piece, "=");
      if c.Some? then assert piece[c.value..c.value + 1] == "="; c
      else c
  }

  /** How the server splits one piece: the key up to the cut, the value
      after it, both decoded; a piece without "=" is a key with value "". */
  function ParseParam(piece: string): Param {
    match CutOf(piece)
    case None => Param(DecodePlus(piece), "")
    case Some(i) => Param(DecodePlus(piece[..i]), DecodePlus(piece[i + 1..]))
  }

  /** A value holding "]=" moves the cut: the server reads
      `key=a]=b` as the key "key=a]" with the value "b", so nothing
      arrives under `key`. */
  lemma {:induction false} BracketEqualsMovesCut(key: string, a: string, b: string)
    requires ']' !in key && ']' !in a
    ensures ParseParam(key + "=" + a + "]=" + b) == Param(DecodePlus(key + "=" + a + "]"), DecodePlus(b))
    ensures ParseParam(key + "=" + a + "]=" + b).key != key
  {
    var pre := key + "=" + a;
    var s := pre + "]=" + b;
    assert s == key + "=" + a + "]=" + b;
    assert OccursAt(s, "]=", |pre|) by { assert s[|pre|..|pre| + 2] == "]="; }
    assert ']' !in pre;
    forall j: nat | j < |pre| ensures !OccursAt(s, "]=", j) {
      assert s[j..j + 2][0] == s[j] == pre[j] && pre[j] in pre;
    }
    IndexOfAt(s, "]=", |pre|);
    assert s[..|pre| + 1] == key + "=" + a + "]";
    assert s[|pre| + 2..] == b;
  }

  /** Text without "]" holds no "]=", so the cut is the first "=". */
  lemma CutAtFirstEquals(s: string)
    requires ']' !in s
    ensures CutOf(s) == IndexOf(s, "=")
  {
    forall j: nat | j + 2 <= |s| ensures !OccursAt(s, "]=", j) {
      assert s[j..j + 2][0] == s[j] && s[j] in s;
    }
  }

  function ParseQuery(q: string): seq<Param> {
    var pieces := Split(q, "&");
    seq(|pieces|, i requires 0 <= i < |pieces| => ParseParam(pieces[i]))
  }

  /** Text the client can send unescaped and the server reads back as it
      is: no separator, no "+", no percent escape, no "#" (the URL parser
      cuts the fragment there), no "]" (so no "]=" moves the cut), and no
      space or control character (the URL parser drops tabs and newlines
      and trims trailing spaces). */
  predicate PlainText(s: string) {
    '&' !in s && '+' !in s && '%' !in s && '#' !in s && ']' !in s
    && forall c :: c in s ==> c > ' '
  }

  /** A parameter the client can send without escaping. */
  predicate PlainParam(p: Param) {
    PlainText(p.key) && '=' !in p.key && PlainText(p.value)
  }

  lemma ParseRenderedParam(p: Param)
    requires '=' !in p.key && '+' !in p.key && '+' !in p.value
    requires ']' !in p.key && ']' !in p.value
    ensures ParseParam(RenderParam(p)) == p
  {
    IndexOfFirstSeparator(p.key, '=', p.value);
    var s := p.key + ['='] + p.value;
    assert RenderParam(p) == s;
    CutAtFirstEquals(s);
    assert s[..|p.key|] == p.key && s[|p.key| + 1..] == p.value;
    DecodePlusOfPlain(p.key);
    DecodePlusOfPlain(p.value);
  }

  /** Reading a rendered query gives back the parameters, in order. */
  lemma QueryRoundTrip(ps: seq<Param>)
    requires |ps| > 0
    requires AllPlain(ps)
    ensures ParseQuery(RenderQuery(ps)) == ps
  {
    var pieces := Pieces(ps);
    forall k | 0 <= k < |pieces| ensures '&' !in pieces[k] {
      assert pieces[k] == ps[k].key + "=" + ps[k].value;
    }
    SplitJoinSingle(pieces, '&');
    forall i | 0 <= i < |ps| ensures ParseParam(pieces[i]) == ps[i] {
      ParseRenderedParam(ps[i]);
    }
  }

  /** The value of the first parameter with this key, if any. */
  function QueryValue(ps: seq<Param>, key: string): (v: Option<string>)
    ensures v.Some? ==> exists i :: 0 <= i < |ps| && ps[i] == Param(key, v.value) && NoKeyBefore(ps, key, i)
    ensures v.None? ==> forall i :: 0 <= i < |ps| ==> ps[i].key != key
  {
    if ps == [] then None
    else if ps[0].key == key then
      assert ps[0] == Param(key, ps[0].value) && NoKeyBefore(ps, key, 0);
      Some(ps[0].value)
    else
      var v := QueryValue(ps[1..], key);
      assert forall i :: 1 <= i < |ps| ==> ps[i] == ps[1..][i - 1];
      assert v.Some? ==> exists i :: 0 <= i < |ps| && ps[i] == Param(key, v.value) && NoKeyBefore(ps, key, i) by {
        if v.Some? {
          var i :| 0 <= i < |ps| - 1 && ps[1..][i] == Param(key, v.value) && NoKeyBefore(ps[1..], key, i);
          assert ps[i + 1] == Param(key, v.value) && NoKeyBefore(ps, key, i + 1);
        }
      }
      v
  }

  /** No parameter before position `i` has this key. */
  predicate NoKeyBefore(ps: seq<Param>, key: string, i: nat)
    requires i <= |ps|
  {
    forall j :: 0 <= j < i ==> ps[j].key != key
  }

  /** Looking a key up in two lists one after the other. */
  lemma {:induction false} QueryValueAppend(a: seq<Param>, b: seq<Param>, key: string)
    ensures QueryValue(a + b, key) == if QueryValue(a, key).Some? then QueryValue(a, key) else QueryValue(b, key)
    decreases |a|
  {
    if a != [] {
      assert (a + b)[0] == a[0];
      if a[0].key != key {
        assert (a + b)[1..] == a[1..] + b;
        QueryValueAppend(a[1..], b, key);
      }
    } else {
      assert a + b == b;
    }
  }

  // ---------------------------------------------------------------------
  // getPosts / getUsers URLs
  // ---------------------------------------------------------------------

  function BoolText(b: bool): string {
    if b then "true" else "false"
  }

  /** `[p]` when the condition holds, nothing otherwise. */
  function Opt(c: bool, p: Param): seq<Param> {
    if c then [p] else []
  }

  /** Appending an optional parameter appends its rendering, if present. */
  lemma RenderQueryOpt(ps: seq<Param>, c: bool, p: Param)
    requires |ps| > 0
    ensures RenderQuery(ps + Opt(c, p)) == RenderQuery(ps) + (if c then "&" + p.key + "=" + p.value else "")
  {
    if c {
      RenderQueryAppend(ps, p);
      assert "&" + RenderParam(p) == "&" + p.key + "=" + p.value;
    } else {
      assert ps + Opt(c, p) == ps;
    }
  }

  /** The parameters `getPosts` sends, in order: `limit` always, `lastId`
      when non-empty, `pinned` whenever given (false included), `userId`
      when non-empty. */
  function PostsParams(limit: nat, lastId: string, pinned: Option<bool>, userId: string): (ps: seq<Param>)
    ensures |ps| > 0 && ps[0] == Param("limit", NatToDecimal(limit))
  {
    [Param("limit", NatToDecimal(limit))]
    + Opt(lastId != "", Param("lastId", lastId))
    + Opt(pinned.Some?, Param("pinned", BoolText(pinned.GetOr(false))))
    + Opt(userId != "", Param("userId", userId))
  }

  /** `getPosts` builds its URL one parameter at a time. */
  method GetPostsUrl(apiUrl: string, limit: nat, lastId: string, pinned: Option<bool>, userId: string) returns (url: string)
    ensures url == apiUrl + "/posts?" + RenderQuery(PostsParams(limit, lastId, pinned, userId))
  {
    var base := apiUrl + "/posts?";
    ghost var ps := [Param("limit", NatToDecimal(limit))];
    var query := "limit=" + NatToDecimal(limit);
    assert query == RenderQuery(ps);
    RenderQueryOpt(ps, lastId != "", Param("lastId", lastId));
    if lastId != "" {
      query := query + ("&" + "lastId" + "=" + lastId);
    }
    ps := ps + Opt(lastId != "", Param("lastId", lastId));
    RenderQueryOpt(ps, pinned.Some?, Param("pinned", BoolText(pinned.GetOr(false))));
    if pinned.Some? {
      query := query + ("&" + "pinned" + "=" + BoolText(pinned.value));
    }
    ps := ps + Opt(pinned.Some?, Param("pinned", BoolText(pinned.GetOr(false))));
    RenderQueryOpt(ps, userId != "", Param("userId", userId));
    if userId != "" {
      query := query + ("&" + "userId" + "=" + userId);
    }
    ps := ps + Opt(userId != "", Param("userId", userId));
    url := base + query;
  }

  function UsersParams(limit: nat, lastId: string): (ps: seq<Param>)
    ensures |ps| > 0 && ps[0] == Param("limit", NatToDecimal(limit))
  {
    [Param("limit", NatToDecimal(limit))] + Opt(lastId != "", Param("lastId", lastId))
  }

  /** `getUsers` builds its URL the same way, with `lastId` only when non-empty. */
  method GetUsersUrl(apiUrl: string, limit: nat, lastId: string) returns (url: string)
    ensures url == apiUrl + "/admin/users?" + RenderQuery(UsersParams(limit, lastId))
  {
    var base := apiUrl + "/admin/users?";
    ghost var ps := [Param("limit", NatToDecimal(limit))];
    var query := "limit=" + NatToDecimal(limit);
    assert query == RenderQuery(ps);
    RenderQueryOpt(ps, lastId != "", Param("lastId", lastId));
    if lastId != "" {
      query := query + ("&" + "lastId" + "=" + lastId);
    }
    url := base + query;
  }

  /** What the posts route reads from a query string; absent parameters are "". */
  function ServerPostsQuery(ps: seq<Param>): (q: PostsRoute.PostsQuery)
    ensures q.limit == QueryValue(ps, "limit")
    ensures QueryValue(ps, "lastId").None? ==> q.lastId == ""
    ensures QueryValue(ps, "lastId").Some? ==> q.lastId == QueryValue(ps, "lastId").value
    ensures QueryValue(ps, "pinned").None? ==> q.pinned == ""
    ensures QueryValue(ps, "pinned").Some? ==> q.pinned == QueryValue(ps, "pinned").value
    ensures QueryValue(ps, "userId").None? ==> q.userId == ""
    ensures QueryValue(ps, "userId").Some? ==> q.userId == QueryValue(ps, "userId").value
  {
    PostsRoute.PostsQuery(QueryValue(ps, "limit"), QueryValue(ps, "lastId").GetOr(""),
                          QueryValue(ps, "pinned").GetOr(""), QueryValue(ps, "userId").GetOr(""))
  }

  /** What the admin users route reads from a query string; an absent `lastId` is "". */
  function ServerUsersQuery(ps: seq<Param>): (q: AdminRoute.UsersQuery)
    ensures q.limit == QueryValue(ps, "limit")
    ensures QueryValue(ps, "lastId").None? ==> q.lastId == ""
    ensures QueryValue(ps, "lastId").Some? ==> q.lastId == QueryValue(ps, "lastId").value
  {
    AdminRoute.UsersQuery(QueryValue(ps, "limit"), QueryValue(ps, "lastId").GetOr(""))
  }

  /** Looking a key up in four lists one after the other. */
  lemma QueryValueOfFour(a: seq<Param>, b: seq<Param>, c: seq<Param>, d: seq<Param>, key: string)
    ensures QueryValue(a + b + c + d, key)
            == if QueryValue(a, key).Some? then QueryValue(a, key)
               else if QueryValue(b, key).Some? then QueryValue(b, key)
               else if QueryValue(c, key).Some? then QueryValue(c, key)
               else QueryValue(d, key)
  {
    QueryValueAppend(a + b + c, d, key);
    QueryValueAppend(a + b, c, key);
    QueryValueAppend(a, b, key);
  }

  /** An optional parameter yields its value for its own key, when present,
      and nothing for any other key. */
  lemma QueryValueOfOpt(c: bool, p: Param, key: string)
    ensures QueryValue(Opt(c, p), key) == if c && p.key == key then Some(p.value) else None
  {
    if c {
      assert Opt(c, p)[1..] == [];
    }
  }

  /** Where each key of `getPosts`'s parameters is found. */
  lemma PostsParamsValues(limit: nat, lastId: string, pinned: Option<bool>, userId: string)
    ensures var ps := PostsParams(limit, lastId, pinned, userId);
      QueryValue(ps, "limit") == Some(NatToDecimal(limit))
      && QueryValue(ps, "lastId").GetOr("") == lastId
      && QueryValue(ps, "pinned").GetOr("") == (if pinned.Some? then BoolText(pinned.value) else "")
      && QueryValue(ps, "userId").GetOr("") == userId
  {
    var ps := PostsParams(limit, lastId, pinned, userId);
    var a := Param("limit", NatToDecimal(limit));
    var b := Param("lastId", lastId);
    var c := Param("pinned", BoolText(pinned.GetOr(false)));
    var d := Param("userId", userId);
    assert ps == Opt(true, a) + Opt(lastId != "", b) + Opt(pinned.Some?, c) + Opt(userId != "", d);
    PostsKeyValue(ps, a, b, c, d, lastId != "", pinned.Some?, userId != "", "lastId");
    PostsKeyValue(ps, a, b, c, d, lastId != "", pinned.Some?, userId != "", "pinned");
    PostsKeyValue(ps, a, b, c, d, lastId != "", pinned.Some?, userId != "", "userId");
  }

  /** In four optional parameters with distinct keys, a key is found exactly
      in the one parameter carrying it, when present. */
  lemma PostsKeyValue(ps: seq<Param>, a: Param, b: Param, c: Param, d: Param, hb: bool, hc: bool, hd: bool, key: string)
    requires ps == Opt(true, a) + Opt(hb, b) + Opt(hc, c) + Opt(hd, d)
    requires a.key != key
    ensures key == b.key && key != c.key && key != d.key ==> QueryValue(ps, key) == if hb then Some(b.value) else None
    ensures key == c.key && key != b.key && key != d.key ==> QueryValue(ps, key) == if hc then Some(c.value) else None
    ensures key == d.key && key != b.key && key != c.key ==> QueryValue(ps, key) == if hd then Some(d.value) else None
  {
    QueryValueOfFour(Opt(true, a), Opt(hb, b), Opt(hc, c), Opt(hd, d), key);
    QueryValueOfOpt(true, a, key);
    QueryValueOfOpt(hb, b, key);
    QueryValueOfOpt(hc, c, key);
    QueryValueOfOpt(hd, d, key);
  }

  /** Every parameter of `ps` can be sent without escaping. */
  predicate AllPlain(ps: seq<Param>) {
    forall i :: 0 <= i < |ps| ==> PlainParam(ps[i])
  }

  lemma AllPlainOpt(ps: seq<Param>, c: bool, p: Param)
    requires AllPlain(ps) && PlainParam(p)
    ensures AllPlain(ps + Opt(c, p))
  {
    if c {
      assert forall i :: 0 <= i < |ps| ==> (ps + [p])[i] == ps[i];
    } else {
      assert ps + Opt(c, p) == ps;
    }
  }

  /** Text made of ASCII letters and digits is plain. */
  lemma AlphanumericPlain(s: string)
    requires forall c :: c in s ==> 'a' <= c <= 'z' || 'A' <= c <= 'Z' || '0' <= c <= '9'
    ensures PlainText(s)
  {
  }

  /** The parameter names and the texts of `pinned` are plain. */
  lemma FixedTextsPlain()
    ensures PlainText("limit") && PlainText("lastId") && PlainText("pinned") && PlainText("userId")
    ensures PlainText(BoolText(true)) && PlainText(BoolText(false))
  {
    AlphanumericPlain("limit");
    AlphanumericPlain("lastId");
    AlphanumericPlain("pinned");
    AlphanumericPlain("userId");
    AlphanumericPlain(BoolText(true));
    AlphanumericPlain(BoolText(false));
  }

  /** `getPosts` sends plain parameters when its ids are plain. */
  lemma PostsParamsPlain(limit: nat, lastId: string, pinned: Option<bool>, userId: string)
    requires PlainText(NatToDecimal(limit)) && PlainText(lastId) && PlainText(userId)
    ensures AllPlain(PostsParams(limit, lastId, pinned, userId))
  {
    var a := [Param("limit", NatToDecimal(limit))];
    var b := Param("lastId", lastId);
    var c := Param("pinned", BoolText(pinned.GetOr(false)));
    var d := Param("userId", userId);
    FixedTextsPlain();
    assert PlainParam(b) && PlainParam(c) && PlainParam(d);
    assert AllPlain(a);
    AllPlainOpt(a, lastId != "", b);
    AllPlainOpt(a + Opt(lastId != "", b), pinned.Some?, c);
    AllPlainOpt(a + Opt(lastId != "", b) + Opt(pinned.Some?, c), userId != "", d);
  }

  /** The server reads back exactly what `getPosts` sent: the limit it
      parses is the client's, and the other filters arrive as given. */
  lemma PostsQueryArrives(limit: nat, lastId: string, pinned: Option<bool>, userId: string)
    requires limit > 0 && PlainText(lastId) && PlainText(userId)
    ensures var q := ServerPostsQuery(ParseQuery(RenderQuery(PostsParams(limit, lastId, pinned, userId))));
      ValidLimit(q.limit) && LimitOf(q.limit, PostsRoute.DefaultPostsLimit) == limit
      && q.lastId == lastId && q.userId == userId
      && q.pinned == (if pinned.Some? then BoolText(pinned.value) else "")
  {
    var ps := PostsParams(limit, lastId, pinned, userId);
    assert PlainText(NatToDecimal(limit)) by {
      assert forall ch :: ch in NatToDecimal(limit) ==> IsDigit(ch);
    }
    PostsParamsPlain(limit, lastId, pinned, userId);
    QueryRoundTrip(ps);
    PostsParamsValues(limit, lastId, pinned, userId);
    DecimalRoundTrip(limit);
  }

  /** The server reads back the limit and cursor `getUsers` sent. */
  lemma UsersQueryArrives(limit: nat, lastId: string)
    requires limit > 0 && PlainText(lastId)
    ensures var q := ServerUsersQuery(ParseQuery(RenderQuery(UsersParams(limit, lastId))));
      ValidLimit(q.limit) && LimitOf(q.limit, AdminRoute.DefaultUsersLimit) == limit && q.lastId == lastId
  {
    var ps := UsersParams(limit, lastId);
    assert PlainText(NatToDecimal(limit)) by {
      assert forall ch :: ch in NatToDecimal(limit) ==> IsDigit(ch);
    }
    QueryRoundTrip(ps);
    QueryValueAppend([Param("limit", NatToDecimal(limit))], Opt(lastId != "", Param("lastId", lastId)), "lastId");
    DecimalRoundTrip(limit);
  }

  /** `pinned=false` is sent, but the server filters only on "true": asking
      for unpinned posts lists the same posts as not asking at all. */
  lemma PinnedFalseIsNoFilter(q: PostsRoute.PostsQuery, posts: map<string, Post>)
    requires ValidLimit(q.limit)
    ensures PostsRoute.PostsListing(q.(pinned := BoolText(false)), posts) == PostsRoute.PostsListing(q.(pinned := ""), posts)
  {
    assert PostsRoute.Eligible(q.(pinned := BoolText(false)), posts) == PostsRoute.Eligible(q.(pinned := ""), posts);
  }

  // ---------------------------------------------------------------------
  // Token and errors
  // ---------------------------------------------------------------------

  /** `getToken`: the current user's ID token (`idToken`, when signed in). */
  function GetToken(idToken: Option<string>): (r: Outcome<string>)
    ensures idToken.None? <==> r == Rejected(ErrorObject("User not authenticated"))
    ensures idToken.Some? ==> r == Resolved(idToken.value)
  {
    match idToken
    case None => Rejected(ErrorObject("User not authenticated"))
    case Some(t) => Resolved(t)
  }

  /** The `Authorization` header value: the scheme, one space, the token. */
  function AuthorizationHeader(token: string): (h: string)
    ensures |h| == |"Bearer "| + |token|
    ensures h[..7] == "Bearer " && h[7..] == token
  {
    "Bearer " + token
  }

  /** The middleware recovers the token the client put in the header,
      provided the token does not itself contain "Bearer ". */
  lemma HeaderCarriesToken(token: string)
    requires !Contains(token, BearerPrefix)
    ensures BearerPrefix <= AuthorizationHeader(token)
    ensures BearerToken(AuthorizationHeader(token)) == token
  {
    var h := AuthorizationHeader(token);
    assert h[|BearerPrefix|..] == token;
    TokenIsRestOfHeader(h);
  }

  /** The calls of the service; each has its own fallback message. */
  datatype ApiCall =
    | SignupUser | GetUserProfile | UpdateUserProfile | UploadProfileImage
    | GetPosts | GetPost | CreatePost | UpdatePost | DeletePost | TogglePinPost | ToggleLikePost
    | GetUsers | UpdateUserRole

  function Fallback(call: ApiCall): (m: string)
    ensures m != ""
  {
    match call
    case SignupUser => "Failed to sign up"
    case GetUserProfile => "Failed to fetch profile"
    case UpdateUserProfile => "Failed to update profile"
    case UploadProfileImage => "Failed to upload image"
    case GetPosts => "Failed to fetch posts"
    case GetPost => "Failed to fetch post"
    case CreatePost => "Failed to create post"
    case UpdatePost => "Failed to update post"
    case DeletePost => "Failed to delete post"
    case TogglePinPost => "Failed to update pin status"
    case ToggleLikePost => "Failed to toggle like"
    case GetUsers => "Failed to fetch users"
    case UpdateUserRole => "Failed to update user role"
  }

  /** The JSON body of a failed reply: route handlers fill `error`, the
      token middleware fills `message`. */
  datatype ErrorBody = ErrorBody(error: string, message: string)

  function BodyOfResult<T>(r: Result<T>): ErrorBody
    requires r.Err?
  {
    ErrorBody(r.error, "")
  }

  function BodyOfAuthResult(a: AuthResult): ErrorBody
    requires a.Unauthorized?
  {
    ErrorBody("", a.message)
  }

  /** A non-OK reply becomes `new Error(body.error || fallback)`. */
  function ErrorFromBody(call: ApiCall, body: ErrorBody): (t: Thrown)
    ensures t.ErrorObject? && t.message != ""
    ensures body.error != "" ==> t.message == body.error
    ensures body.error == "" ==> t.message == Fallback(call)
  {
    ErrorObject(if body.error != "" then body.error else Fallback(call))
  }

  /** How a call to a route handler ends on the client. */
  function CallOutcome<T>(call: ApiCall, r: Result<T>): (o: Outcome<T>)
    ensures r.Ok? <==> o.Resolved?
    ensures r.Ok? ==> o.value == r.value
  {
    match r
    case Ok(_, v) => Resolved(v)
    case Err(_, _) => Rejected(ErrorFromBody(call, BodyOfResult(r)))
  }

  /** A handler's non-empty error text reaches the caller unchanged, but a
      token rejection never does: its text is under `message`, so the
      caller sees the fallback. */
  lemma ErrorTextsReachCaller<T>(call: ApiCall, r: Result<T>, a: AuthResult)
    requires r.Err? && r.error != "" && a.Unauthorized?
    ensures CallOutcome(call, r) == Rejected(ErrorObject(r.error))
    ensures ErrorFromBody(call, BodyOfAuthResult(a)) == ErrorObject(Fallback(call))
  {
  }
}
