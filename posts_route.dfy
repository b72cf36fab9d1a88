/** The `/api/posts` routes: create, list, fetch one, update, delete, pin and
    like. Each handler runs after the token middleware; `uid` is the uid of
    the decoded token it attached. */
module PostsRoute {
  import opened Common
  import opened Strings
  import opened Records
  import opened Ordering
  import opened Store
  import opened RoleMiddleware
  import opened Upload

  const DefaultPostsLimit: nat := 10

  // ---------------------------------------------------------------------
  // Likes bookkeeping
  // ---------------------------------------------------------------------

  predicate NoDup(s: seq<string>) {
    forall i, j :: 0 <= i < j < |s| ==> s[i] != s[j]
  }

  /** The stored like list holds each uid once and the counter matches it. */
  predicate LikesConsistent(p: Post) {
    NoDup(LikesOf(p)) && p.likeCount == |LikesOf(p)|
  }

  predicate AllLikesConsistent(posts: map<string, Post>) {
    forall id :: id in posts ==> LikesConsistent(posts[id])
  }

  /** `arrayRemove(x)`: every occurrence of `x` goes, the rest keep their order. */
  function RemoveAll(s: seq<string>, x: string): (r: seq<string>)
    ensures x !in r
    ensures forall y :: y != x ==> (y in r <==> y in s)
    ensures multiset(r) == multiset(s)[x := 0]
    ensures |r| <= |s|
  {
    if s == [] then []
    else
      assert s == [s[0]] + s[1..];
      (if s[0] == x then [] else [s[0]]) + RemoveAll(s[1..], x)
  }

  lemma {:induction false} RemoveAbsent(s: seq<string>, x: string)
    requires x !in s
    ensures RemoveAll(s, x) == s
  {
    if s != [] {
      RemoveAbsent(s[1..], x);
    }
  }

  /** In a list without repeats, removing a member shortens it by one and
      keeps it free of repeats. */
  lemma {:induction false} RemoveMember(s: seq<string>, x: string)
    requires NoDup(s) && x in s
    ensures |RemoveAll(s, x)| == |s| - 1
    ensures NoDup(RemoveAll(s, x))
  {
    var tail := s[1..];
    assert NoDup(tail) by {
      forall i, j | 0 <= i < j < |tail| ensures tail[i] != tail[j] {
        assert tail[i] == s[i + 1] && tail[j] == s[j + 1];
      }
    }
    if s[0] == x {
      assert x !in tail by {
        forall j | 0 <= j < |tail| ensures tail[j] != x {
          assert tail[j] == s[j + 1];
        }
      }
      RemoveAbsent(tail, x);
    } else {
      RemoveMember(tail, x);
      var r := RemoveAll(tail, x);
      assert s[0] !in tail by {
        forall j | 0 <= j < |tail| ensures tail[j] != s[0] {
          assert tail[j] == s[j + 1];
        }
      }
      assert s[0] !in r;
      assert RemoveAll(s, x) == [s[0]] + r;
    }
  }

  /** A member of a list without repeats occurs in it exactly once. */
  lemma {:induction false} NoDupCount(s: seq<string>, x: string)
    requires NoDup(s) && x in s
    ensures multiset(s)[x] == 1
  {
    var tail := s[1..];
    assert s == [s[0]] + tail;
    assert NoDup(tail) by {
      forall i, j | 0 <= i < j < |tail| ensures tail[i] != tail[j] {
        assert tail[i] == s[i + 1] && tail[j] == s[j + 1];
      }
    }
    if s[0] == x {
      assert x !in tail by {
        forall j | 0 <= j < |tail| ensures tail[j] != x {
          assert tail[j] == s[j + 1];
        }
      }
    } else {
      NoDupCount(tail, x);
    }
  }

  /** The stored post after one like toggle by `uid` at time `now`. A post
      without a `likes` field counts as liked by nobody. */
  function Toggled(p: Post, uid: string, now: nat): (q: Post)
    ensures (uid in LikesOf(q)) == (uid !in LikesOf(p))
    ensures q.likeCount == (if uid in LikesOf(p) then p.likeCount - 1 else p.likeCount + 1)
    ensures forall y :: y != uid ==> (y in LikesOf(q) <==> y in LikesOf(p))
    ensures q.(likes := p.likes, likeCount := p.likeCount, updatedAt := p.updatedAt) == p
  {
    var likes := LikesOf(p);
    if uid in likes then
      p.(likes := Some(RemoveAll(likes, uid)), likeCount := p.likeCount - 1, updatedAt := now)
    else
      p.(likes := Some(likes + [uid]), likeCount := p.likeCount + 1, updatedAt := now)
  }

  /** A toggle keeps the list free of repeats and the counter equal to its length. */
  lemma ToggleKeepsLikesConsistent(p: Post, uid: string, now: nat)
    requires LikesConsistent(p)
    ensures LikesConsistent(Toggled(p, uid, now))
  {
    var likes := LikesOf(p);
    if uid in likes {
      RemoveMember(likes, uid);
    } else {
      var l2 := likes + [uid];
      assert NoDup(l2) by {
        forall i, j | 0 <= i < j < |l2| ensures l2[i] != l2[j] {
          if j == |likes| {
            assert l2[i] == likes[i];
          }
        }
      }
    }
  }

  /** Toggling twice restores the counter and who likes the post, and for a
      post the user had not liked, the like list itself. */
  lemma ToggleTwice(p: Post, uid: string, t1: nat, t2: nat)
    ensures Toggled(Toggled(p, uid, t1), uid, t2).likeCount == p.likeCount
    ensures forall y :: y in LikesOf(Toggled(Toggled(p, uid, t1), uid, t2)) <==> y in LikesOf(p)
    ensures uid !in LikesOf(p) ==> LikesOf(Toggled(Toggled(p, uid, t1), uid, t2)) == LikesOf(p)
    ensures NoDup(LikesOf(p)) ==> multiset(LikesOf(Toggled(Toggled(p, uid, t1), uid, t2))) == multiset(LikesOf(p))
  {
    var likes := LikesOf(p);
    if uid !in likes {
      RemoveAbsent(likes, uid);
      assert RemoveAll(likes + [uid], uid) == RemoveAll(likes, uid) by {
        RemoveAppendOne(likes, uid);
      }
    } else if NoDup(likes) {
      NoDupCount(likes, uid);
      var r := RemoveAll(likes, uid);
      assert multiset(r + [uid]) == multiset(likes);
    }
  }

  lemma {:induction false} RemoveAppendOne(s: seq<string>, x: string)
    ensures RemoveAll(s + [x], x) == RemoveAll(s, x)
  {
    if s == [] {
      assert [x][1..] == [];
    } else {
      assert (s + [x])[1..] == s[1..] + [x];
      RemoveAppendOne(s[1..], x);
    }
  }

  /** The body of a like reply. */
  datatype LikeResult = LikeResult(liked: bool, likeCount: int)

  // ---------------------------------------------------------------------
  // POST /api/posts
  // ---------------------------------------------------------------------

  /** The storage path of a new post's image: `post-images/<uid>/<uuid><ext>`. */
  function PostImagePath(uid: string, uuid: string, originalName: string): (path: string)
    ensures "post-images/" + uid + "/" <= path
    ensures path[|"post-images/" + uid + "/"|..] == uuid + Extname(originalName)
  {
    var prefix := "post-images/" + uid + "/";
    var path := prefix + (uuid + Extname(originalName));
    assert path[|prefix|..] == uuid + Extname(originalName);
    path
  }

  /** The document a create stores: the given fields and the defaults. */
  function NewPost(title: string, content: string, uid: string, author: UserProfile, imageURL: string, now: nat): (p: Post)
    ensures LikesConsistent(p) && LikesOf(p) == []
    ensures p.authorName != "" && (author.displayName != "" ==> p.authorName == author.displayName)
    ensures p.authorId == uid && !p.pinned && p.views == 0
  {
    Post(title, content, uid, if author.displayName != "" then author.displayName else "Anonymous",
         imageURL, false, 0, Some([]), 0, now, now)
  }

  /** Runs the upload stage and the create handler. `image` is the file sent
      with the form, `uuid` the fresh name the handler draws for it,
      `signedUrl` how the storage upload and URL signing ended, `newId` the
      id the store gives the new document. Returns the reply and the
      storage path of the image, when one was uploaded. */
  method CreatePost(db: Db, uid: string, title: string, content: string, image: Option<IncomingFile>,
                    uuid: string, signedUrl: Fallible<string>, newId: string, now: nat)
    returns (r: Result<PostJson>, uploaded: Option<string>)
    requires newId !in db.posts
    modifies db
    ensures db.users == old(db.users)
    ensures image.Some? && ScreenUpload(image.value).Some? ==>
      r == Err(500, UploadErrorMessage(ScreenUpload(image.value).value)) && uploaded == None
    ensures (image.None? || ScreenUpload(image.value).None?) && (title == "" || content == "") ==>
      r == Err(400, "Title and content are required") && uploaded == None
    ensures (image.None? || ScreenUpload(image.value).None?) && title != "" && content != "" && uid !in db.users ==>
      r == Err(404, "User not found") && uploaded == None
    ensures uploaded.Some? <==>
      image.Some? && ScreenUpload(image.value).None? && title != "" && content != "" && uid in db.users
    ensures uploaded.Some? ==> uploaded.value == PostImagePath(uid, uuid, image.value.originalName)
    ensures uploaded.Some? && signedUrl.Failed? ==> r == Err(500, signedUrl.message)
    ensures r.Ok? <==> (image.None? || ScreenUpload(image.value).None?) && title != "" && content != ""
                       && uid in db.users && (image.None? || signedUrl.Done?)
    ensures r.Ok? ==>
      (r.status == 201 && r.value.id == newId
       && r.value.data == NewPost(title, content, uid, db.users[uid], if image.Some? then signedUrl.value else "", now)
       && db.posts == old(db.posts)[newId := r.value.data])
    ensures r.Err? ==> db.posts == old(db.posts)
  {
    uploaded := None;
    if image.Some? && ScreenUpload(image.value).Some? {
      return Err(500, UploadErrorMessage(ScreenUpload(image.value).value)), uploaded;
    }
    if title == "" || content == "" {
      return Err(400, "Title and content are required"), uploaded;
    }
    var author := UserDoc(db.users, uid);
    if author.None? {
      return Err(404, "User not found"), uploaded;
    }
    var imageURL := "";
    if image.Some? {
      uploaded := Some(PostImagePath(uid, uuid, image.value.originalName));
      if signedUrl.Failed? {
        return Err(500, signedUrl.message), uploaded;
      }
      imageURL := signedUrl.value;
    }
    var post := NewPost(title, content, uid, author.value, imageURL, now);
    db.posts := db.posts[newId := post];
    r := Ok(201, PostJson(newId, post));
  }

  // ---------------------------------------------------------------------
  // GET /api/posts
  // ---------------------------------------------------------------------

  /** The query string of a listing; an absent text parameter is "". */
  datatype PostsQuery = PostsQuery(limit: Option<string>, lastId: string, pinned: string, userId: string)

  /** The filters: pinned posts only when `pinned` is exactly "true", and one
      author's posts only when `userId` is non-empty. */
  predicate Matches(q: PostsQuery, p: Post) {
    (q.pinned == "true" ==> p.pinned) && (q.userId != "" ==> p.authorId == q.userId)
  }

  function KeyOf(id: string, p: Post): Key {
    Key(p.pinned, p.createdAt, id)
  }

  /** The keys of the posts that pass the filters. */
  function Eligible(q: PostsQuery, posts: map<string, Post>): (ks: set<Key>)
    ensures forall k :: k in ks <==> k.id in posts && k == KeyOf(k.id, posts[k.id]) && Matches(q, posts[k.id])
  {
    set id | id in posts && Matches(q, posts[id]) :: KeyOf(id, posts[id])
  }

  /** `startAfter(lastDoc)` is applied only when `lastId` is non-empty and
      names an existing post; otherwise the listing starts at the top. */
  function CursorOf(lastId: string, posts: map<string, Post>): (c: Option<Key>)
    ensures c.Some? <==> lastId != "" && lastId in posts
    ensures c.Some? ==> c.value == KeyOf(lastId, posts[lastId])
  {
    if lastId != "" && lastId in posts then Some(KeyOf(lastId, posts[lastId])) else None
  }

  /** The keys of the listed posts, in the order returned: the first
      `limit` eligible posts past the cursor, or all of them when fewer remain. */
  function PostsListing(q: PostsQuery, posts: map<string, Post>): (ks: seq<Key>)
    requires ValidLimit(q.limit)
    ensures |ks| <= LimitOf(q.limit, DefaultPostsLimit)
    ensures ks <= After(CursorOf(q.lastId, posts), Sort(Eligible(q, posts)))
    ensures |ks| < LimitOf(q.limit, DefaultPostsLimit) ==> ks == After(CursorOf(q.lastId, posts), Sort(Eligible(q, posts)))
  {
    Take(LimitOf(q.limit, DefaultPostsLimit), After(CursorOf(q.lastId, posts), Sort(Eligible(q, posts))))
  }

  /** Every listed post exists, passes the filters, comes after the cursor,
      and the listing is in order, without repeats, and at most `limit` long. */
  lemma ListingSound(q: PostsQuery, posts: map<string, Post>)
    requires ValidLimit(q.limit)
    ensures var ks := PostsListing(q, posts);
      |ks| <= LimitOf(q.limit, DefaultPostsLimit) && Sorted(ks)
      && forall i :: 0 <= i < |ks| ==>
           ks[i].id in posts && ks[i] == KeyOf(ks[i].id, posts[ks[i].id]) && Matches(q, posts[ks[i].id])
           && (CursorOf(q.lastId, posts).Some? ==> Before(CursorOf(q.lastId, posts).value, ks[i]))
  {
    var cursor := CursorOf(q.lastId, posts);
    var s := Sort(Eligible(q, posts));
    AfterMembers(cursor, s);
    AfterSorted(cursor, s);
    var ks := PostsListing(q, posts);
    forall i | 0 <= i < |ks| ensures ks[i] in After(cursor, s) {
      assert ks[i] == After(cursor, s)[i];
    }
    assert Sorted(ks) by {
      forall i, j | 0 <= i < j < |ks| ensures Before(ks[i], ks[j]) {
        assert ks[i] == After(cursor, s)[i] && ks[j] == After(cursor, s)[j];
      }
    }
  }

  lemma ListedPostsExist(q: PostsQuery, posts: map<string, Post>)
    requires ValidLimit(q.limit)
    ensures forall i :: 0 <= i < |PostsListing(q, posts)| ==> PostsListing(q, posts)[i].id in posts
  {
    ListingSound(q, posts);
  }

  /** No post is skipped: a post that passes the filters and comes after the
      cursor but is not listed lies after every listed post, and the page is full. */
  lemma ListingComplete(q: PostsQuery, posts: map<string, Post>, id: string)
    requires ValidLimit(q.limit)
    requires id in posts && Matches(q, posts[id])
    requires CursorOf(q.lastId, posts).Some? ==> Before(CursorOf(q.lastId, posts).value, KeyOf(id, posts[id]))
    requires KeyOf(id, posts[id]) !in PostsListing(q, posts)
    ensures |PostsListing(q, posts)| == LimitOf(q.limit, DefaultPostsLimit)
    ensures forall i :: 0 <= i < |PostsListing(q, posts)| ==> Before(PostsListing(q, posts)[i], KeyOf(id, posts[id]))
  {
    PageIsPrefix(CursorOf(q.lastId, posts), Sort(Eligible(q, posts)), LimitOf(q.limit, DefaultPostsLimit), KeyOf(id, posts[id]));
  }

  /** A `lastId` that names no post is the same as no `lastId`. */
  lemma UnknownCursorIgnored(q: PostsQuery, posts: map<string, Post>)
    requires ValidLimit(q.limit)
    requires q.lastId !in posts
    ensures PostsListing(q, posts) == PostsListing(q.(lastId := ""), posts)
  {
    assert Eligible(q.(lastId := ""), posts) == Eligible(q, posts);
  }

  /** Passing a full page's `lastId` back continues right where the page
      ended: the next page is the next `limit` eligible posts. */
  lemma NextPageContinues(q: PostsQuery, posts: map<string, Post>)
    requires ValidLimit(q.limit)
    requires "" !in posts
    requires q.lastId in posts ==> Matches(q, posts[q.lastId])
    requires |PostsListing(q, posts)| == LimitOf(q.limit, DefaultPostsLimit)
    ensures var ks := PostsListing(q, posts); var n := LimitOf(q.limit, DefaultPostsLimit);
      PostsListing(q.(lastId := ks[n - 1].id), posts)
        == Take(n, After(CursorOf(q.lastId, posts), Sort(Eligible(q, posts)))[n..])
  {
    var n := LimitOf(q.limit, DefaultPostsLimit);
    var s := Sort(Eligible(q, posts));
    var cursor := CursorOf(q.lastId, posts);
    NextCursor(s, n, cursor);
    var last := PostsListing(q, posts)[n - 1];
    assert last in Eligible(q, posts);
    assert CursorOf(last.id, posts) == Some(last);
    assert Eligible(q.(lastId := last.id), posts) == Eligible(q, posts);
  }

  /** Following `lastId` from the first page visits every eligible post
      exactly once, in listing order. */
  lemma PagesCoverAllPosts(q: PostsQuery, posts: map<string, Post>)
    requires ValidLimit(q.limit)
    ensures var s := Sort(Eligible(q, posts)); var n := LimitOf(q.limit, DefaultPostsLimit);
      FollowPages(s, n, None)[0] == PostsListing(q.(lastId := ""), posts)
      && Concat(FollowPages(s, n, None)) == s
  {
    var s := Sort(Eligible(q, posts));
    var n := LimitOf(q.limit, DefaultPostsLimit);
    FollowPagesCoverAll(s, n, None);
    assert Eligible(q.(lastId := ""), posts) == Eligible(q, posts);
    assert PostsListing(q.(lastId := ""), posts) == Take(n, s);
    assert FollowPages(s, n, None)[0] == Take(n, s);
  }

  /** With `pinned=true`, every listed post is pinned; without it, the
      pinned posts come first. */
  lemma PinnedFilterAndOrder(q: PostsQuery, posts: map<string, Post>)
    requires ValidLimit(q.limit)
    ensures q.pinned == "true" ==> forall i :: 0 <= i < |PostsListing(q, posts)| ==> PostsListing(q, posts)[i].pinned
    ensures forall i, j :: 0 <= i < j < |PostsListing(q, posts)| && PostsListing(q, posts)[j].pinned ==> PostsListing(q, posts)[i].pinned
  {
    ListingSound(q, posts);
    var ks := PostsListing(q, posts);
    forall i, j | 0 <= i < j < |ks| && ks[j].pinned ensures ks[i].pinned {
      PinnedFirst(ks, i, j);
    }
  }

  /** The documents behind a sequence of keys, as the reply lists them:
      `{ id, ...data }`, pushed one at a time. */
  method RenderPosts(posts: map<string, Post>, keys: seq<Key>) returns (out: seq<PostJson>)
    requires forall i :: 0 <= i < |keys| ==> keys[i].id in posts
    ensures |out| == |keys|
    ensures forall i :: 0 <= i < |keys| ==> out[i].id == keys[i].id && out[i].data == posts[keys[i].id]
  {
    out := [];
    for i := 0 to |keys|
      invariant |out| == i
      invariant forall j :: 0 <= j < i ==> out[j] == PostJson(keys[j].id, posts[keys[j].id])
    {
      var id := keys[i].id;
      out := out + [PostJson(id, posts[id])];
    }
  }

  /** The handler: runs the query and shapes the reply. */
  method ListPosts(db: Db, q: PostsQuery) returns (page: PostsPage)
    requires ValidLimit(q.limit)
    ensures var ks := PostsListing(q, db.posts);
      |page.posts| == |ks|
      && forall i :: 0 <= i < |ks| ==>
           page.posts[i].id == ks[i].id && ks[i].id in db.posts && page.posts[i].data == db.posts[ks[i].id]
    ensures page.lastId == (if page.posts == [] then None else Some(page.posts[|page.posts| - 1].id))
    ensures page.hasMore <==> |page.posts| == LimitOf(q.limit, DefaultPostsLimit)
  {
    var keys := PostsListing(q, db.posts);
    ListedPostsExist(q, db.posts);
    var posts := RenderPosts(db.posts, keys);
    var limit := LimitOf(q.limit, DefaultPostsLimit);
    var lastId := if |posts| > 0 then Some(posts[|posts| - 1].id) else None;
    page := PostsPage(posts, lastId, |posts| == limit);
  }

  // ---------------------------------------------------------------------
  // GET /api/posts/:id
  // ---------------------------------------------------------------------

  /** The stored post after one fetch: one more view, nothing else changed. */
  function Viewed(p: Post): (v: Post)
    ensures v.views == p.views + 1
    ensures v.(views := p.views) == p
  {
    p.(views := p.views + 1)
  }

  function ViewedTimes(p: Post, n: nat): Post {
    if n == 0 then p else Viewed(ViewedTimes(p, n - 1))
  }

  /** `n` fetches add exactly `n` views and change nothing else. */
  lemma {:induction false} ViewsCountFetches(p: Post, n: nat)
    ensures ViewedTimes(p, n).views == p.views + n
    ensures ViewedTimes(p, n).(views := p.views) == p
  {
    if n > 0 {
      ViewsCountFetches(p, n - 1);
    }
  }

  method GetPost(db: Db, id: string) returns (r: Result<PostJson>)
    modifies db
    ensures db.users == old(db.users)
    ensures id !in old(db.posts) ==> r == Err(404, "Post not found") && db.posts == old(db.posts)
    ensures id in old(db.posts) ==>
      r == Ok(200, PostJson(id, Viewed(old(db.posts)[id])))
      && db.posts == old(db.posts)[id := Viewed(old(db.posts)[id])]
    ensures r.Ok? ==> id in db.posts && r.value.data == db.posts[id]
  {
    if id !in db.posts {
      return Err(404, "Post not found");
    }
    var post := db.posts[id];
    db.posts := db.posts[id := Viewed(post)];
    r := Ok(200, PostJson(id, post.(views := post.views + 1)));
  }

  // ---------------------------------------------------------------------
  // Authorisation shared by update and delete
  // ---------------------------------------------------------------------

  /** The author may change a post, and so may any caller whose profile
      exists with role "admin". */
  predicate CanModify(p: Post, uid: string, caller: Option<UserProfile>) {
    p.authorId == uid || (caller.Some? && caller.value.role == AdminRole)
  }

  /** The inline test agrees with the role middleware: a non-author passes
      exactly when `checkRole("admin")` would let the request through. */
  lemma CanModifyIsAuthorOrAdmin(p: Post, uid: string, users: map<string, UserProfile>)
    ensures CanModify(p, uid, UserDoc(users, uid))
      <==> p.authorId == uid || CheckRole(AdminRole, LookupOf(UserDoc(users, uid))) == Next
  {
  }

  /** An admin who is not the author may update and delete the post. */
  lemma AdminMayModifyOthersPosts(p: Post, uid: string, admin: UserProfile)
    requires p.authorId != uid && admin.role == AdminRole
    ensures CanModify(p, uid, Some(admin))
    ensures !CanModify(p, uid, Some(admin.(role := UserRole)))
    ensures !CanModify(p, uid, None)
  {
  }

  // ---------------------------------------------------------------------
  // PUT /api/posts/:id
  // ---------------------------------------------------------------------

  /** The stored post after an update: title and content replaced only by
      non-empty values, `updatedAt` always. */
  function ApplyEdit(p: Post, title: string, content: string, now: nat): (q: Post)
    ensures q.(title := p.title, content := p.content, updatedAt := p.updatedAt) == p
    ensures q.title == (if title != "" then title else p.title)
    ensures q.content == (if content != "" then content else p.content)
    ensures q.updatedAt == now
  {
    var q := if title != "" then p.(title := title) else p;
    var q := if content != "" then q.(content := content) else q;
    q.(updatedAt := now)
  }

  /** An update that sends neither field only touches `updatedAt`, and
      editing never disturbs the like bookkeeping. */
  lemma EditKeepsLikes(p: Post, title: string, content: string, now: nat)
    ensures LikesConsistent(ApplyEdit(p, title, content, now)) == LikesConsistent(p)
    ensures title == "" && content == "" ==> ApplyEdit(p, title, content, now) == p.(updatedAt := now)
  {
  }

  method UpdatePost(db: Db, id: string, uid: string, title: string, content: string, now: nat)
    returns (r: Result<string>)
    modifies db
    ensures db.users == old(db.users)
    ensures id !in old(db.posts) ==> r == Err(404, "Post not found")
    ensures id in old(db.posts) && !CanModify(old(db.posts)[id], uid, UserDoc(db.users, uid)) ==>
      r == Err(403, "Not authorized to update this post")
    ensures r.Ok? <==> id in old(db.posts) && CanModify(old(db.posts)[id], uid, UserDoc(db.users, uid))
    ensures r.Ok? ==>
      (r == Ok(200, "Post updated successfully")
       && db.posts == old(db.posts)[id := ApplyEdit(old(db.posts)[id], title, content, now)])
    ensures r.Err? ==> db.posts == old(db.posts)
    ensures AllLikesConsistent(old(db.posts)) ==> AllLikesConsistent(db.posts)
  {
    if id !in db.posts {
      return Err(404, "Post not found");
    }
    var post := db.posts[id];
    if post.authorId != uid {
      var caller := UserDoc(db.users, uid);
      if caller.None? || caller.value.role != AdminRole {
        return Err(403, "Not authorized to update this post");
      }
    }
    EditKeepsLikes(post, title, content, now);
    db.posts := db.posts[id := ApplyEdit(post, title, content, now)];
    r := Ok(200, "Post updated successfully");
  }

  // ---------------------------------------------------------------------
  // DELETE /api/posts/:id
  // ---------------------------------------------------------------------

  /** The storage path the handler derives from an image URL: the text after
      the URL's last "/", cut at the first "?", under the author's folder. */
  function ImagePathFromUrl(authorId: string, url: string): (path: string)
    ensures "post-images/" + authorId + "/" <= path
    ensures '/' !in path[|"post-images/" + authorId + "/"|..]
    ensures '?' !in path[|"post-images/" + authorId + "/"|..]
  {
    var prefix := "post-images/" + authorId + "/";
    var leaf := Split(Last(Split(url, "/")), "?")[0];
    ContainsSingle(Last(Split(url, "/")), '/');
    ContainsSingle(leaf, '?');
    assert leaf <= Last(Split(url, "/")) by { SplitFirstIsPrefix(Last(Split(url, "/")), "?"); }
    var path := prefix + leaf;
    assert path[|prefix|..] == leaf;
    path
  }

  lemma SplitFirstIsPrefix(s: string, sep: string)
    requires sep != []
    ensures Split(s, sep)[0] <= s
  {
    var parts := Split(s, sep);
    if |parts| > 1 {
      assert Join(parts, sep) == parts[0] + sep + Join(parts[1..], sep);
    }
  }

  /** The path derived from a URL that ends with a storage path and a query
      string is that storage path, when the file name has no "/" or "?" and
      the query has no "/". */
  lemma ImagePathOfUrl(base: string, uid: string, leaf: string, query: string)
    requires '/' !in leaf && '?' !in leaf && '/' !in query
    ensures ImagePathFromUrl(uid, base + "/" + ("post-images/" + uid + "/" + leaf) + "?" + query)
              == "post-images/" + uid + "/" + leaf
  {
    var head := base + "/post-images/" + uid;
    var tail := leaf + "?" + query;
    assert base + "/" + ("post-images/" + uid + "/" + leaf) + "?" + query == head + ['/'] + tail;
    assert '/' !in tail by {
      assert forall c :: c in tail ==> c in leaf || c == '?' || c in query;
    }
    SplitLastPiece(head, '/', tail);
    FirstPieceBeforeSeparator(leaf, '?', query);
    assert tail == leaf + ['?'] + query;
  }

  /** The path derived from a signed URL of an image the create route
      uploaded is the path it was uploaded to, so the right file is deleted. */
  lemma ImagePathRoundTrip(base: string, uid: string, uuid: string, originalName: string, query: string)
    requires '/' !in uuid && '?' !in uuid + Extname(originalName) && '/' !in query
    ensures ImagePathFromUrl(uid, base + "/" + PostImagePath(uid, uuid, originalName) + "?" + query)
              == PostImagePath(uid, uuid, originalName)
  {
    var leaf := uuid + Extname(originalName);
    assert '/' !in leaf;
    assert PostImagePath(uid, uuid, originalName) == "post-images/" + uid + "/" + leaf;
    ImagePathOfUrl(base, uid, leaf, query);
  }

  /** Deletes the post; also returns the storage path of its image, when it
      has one (deleting that file may fail and is ignored). */
  method DeletePost(db: Db, id: string, uid: string) returns (r: Result<string>, imagePath: Option<string>)
    modifies db
    ensures db.users == old(db.users)
    ensures id !in old(db.posts) ==> r == Err(404, "Post not found")
    ensures id in old(db.posts) && !CanModify(old(db.posts)[id], uid, UserDoc(db.users, uid)) ==>
      r == Err(403, "Not authorized to delete this post")
    ensures r.Ok? <==> id in old(db.posts) && CanModify(old(db.posts)[id], uid, UserDoc(db.users, uid))
    ensures r.Ok? ==>
      (r == Ok(200, "Post deleted successfully") && db.posts == old(db.posts) - {id}
       && imagePath == (if old(db.posts)[id].imageURL != ""
                        then Some(ImagePathFromUrl(old(db.posts)[id].authorId, old(db.posts)[id].imageURL))
                        else None))
    ensures r.Err? ==> db.posts == old(db.posts) && imagePath == None
    ensures AllLikesConsistent(old(db.posts)) ==> AllLikesConsistent(db.posts)
  {
    imagePath := None;
    if id !in db.posts {
      return Err(404, "Post not found"), imagePath;
    }
    var post := db.posts[id];
    if post.authorId != uid {
      var caller := UserDoc(db.users, uid);
      if caller.None? || caller.value.role != AdminRole {
        return Err(403, "Not authorized to delete this post"), imagePath;
      }
    }
    if post.imageURL != "" {
      imagePath := Some(ImagePathFromUrl(post.authorId, post.imageURL));
    }
    db.posts := db.posts - {id};
    r := Ok(200, "Post deleted successfully");
  }

  // ---------------------------------------------------------------------
  // PATCH /api/posts/:id/pin
  // ---------------------------------------------------------------------

  method PinPost(db: Db, id: string, uid: string, pinned: JsonValue, now: nat) returns (r: Result<string>)
    modifies db
    ensures db.users == old(db.users)
    ensures CheckRole(AdminRole, LookupOf(UserDoc(db.users, uid))).Deny? ==>
      r == Err(CheckRole(AdminRole, LookupOf(UserDoc(db.users, uid))).status,
               CheckRole(AdminRole, LookupOf(UserDoc(db.users, uid))).error)
    ensures CheckRole(AdminRole, LookupOf(UserDoc(db.users, uid))).Next? && !pinned.JBool? ==>
      r == Err(400, "Pinned status must be a boolean")
    ensures CheckRole(AdminRole, LookupOf(UserDoc(db.users, uid))).Next? && pinned.JBool? && id !in old(db.posts) ==>
      r == Err(404, "Post not found")
    ensures r.Ok? <==> CheckRole(AdminRole, LookupOf(UserDoc(db.users, uid))).Next? && pinned.JBool? && id in old(db.posts)
    ensures r.Ok? ==>
      r == Ok(200, if pinned.b then "Post pinned successfully" else "Post unpinned successfully")
      && db.posts == old(db.posts)[id := old(db.posts)[id].(pinned := pinned.b, updatedAt := now)]
    ensures r.Err? ==> db.posts == old(db.posts)
    ensures AllLikesConsistent(old(db.posts)) ==> AllLikesConsistent(db.posts)
  {
    var gate := CheckRole(AdminRole, LookupOf(UserDoc(db.users, uid)));
    if gate.Deny? {
      return Err(gate.status, gate.error);
    }
    if !pinned.JBool? {
      return Err(400, "Pinned status must be a boolean");
    }
    if id !in db.posts {
      return Err(404, "Post not found");
    }
    var post := db.posts[id];
    db.posts := db.posts[id := post.(pinned := pinned.b, updatedAt := now)];
    var state := if pinned.b then "pinned" else "unpinned";
    r := Ok(200, "Post " + state + " successfully");
    assert pinned.b ==> "Post " + state + " successfully" == "Post pinned successfully";
    assert !pinned.b ==> "Post " + state + " successfully" == "Post unpinned successfully";
  }

  // ---------------------------------------------------------------------
  // POST /api/posts/:id/like
  // ---------------------------------------------------------------------

  method ToggleLike(db: Db, id: string, uid: string, now: nat) returns (r: Result<LikeResult>)
    modifies db
    ensures db.users == old(db.users)
    ensures id !in old(db.posts) ==> r == Err(404, "Post not found") && db.posts == old(db.posts)
    ensures id in old(db.posts) ==>
      db.posts == old(db.posts)[id := Toggled(old(db.posts)[id], uid, now)]
      && r.Ok? && r.status == 200
      && r.value.liked == (uid !in LikesOf(old(db.posts)[id]))
      && r.value.likeCount == (if r.value.liked then old(db.posts)[id].likeCount + 1 else old(db.posts)[id].likeCount - 1)
    ensures r.Ok? ==> r.value.liked == (uid in LikesOf(db.posts[id])) && r.value.likeCount == db.posts[id].likeCount
    ensures AllLikesConsistent(old(db.posts)) ==> AllLikesConsistent(db.posts)
  {
    if id !in db.posts {
      return Err(404, "Post not found");
    }
    var post := db.posts[id];
    var userLiked := uid in LikesOf(post);
    if LikesConsistent(post) {
      ToggleKeepsLikesConsistent(post, uid, now);
    }
    db.posts := db.posts[id := Toggled(post, uid, now)];
    if userLiked {
      r := Ok(200, LikeResult(false, post.likeCount - 1));
    } else {
      r := Ok(200, LikeResult(true, post.likeCount + 1));
    }
  }
}
