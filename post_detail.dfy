/** The post page: loading one post, liking it, deleting it, and what it
    shows to whom. */
module PostDetail {
  import opened Common
  import opened Records
  import opened Store
  import PostsRoute
  import UserUtils

  const FetchPostFallback := "Failed to fetch post"
  const LikeFallback := "Failed to like post"
  const DeleteFallback := "Failed to delete post"
  const PostNotFound := "Post not found"

  /** The like list the page shows after a toggle: the signed-in uid ("" when
      there is none) appended on a like; on an unlike every entry equal to
      the uid removed (none, when there is no uid). */
  function LikesAfter(likes: seq<string>, uid: Option<string>, liked: bool): (r: seq<string>)
    ensures liked ==> r == likes + [uid.GetOr("")]
    ensures !liked && uid.Some? ==> uid.value !in r && multiset(r) == multiset(likes)[uid.value := 0]
    ensures !liked && uid.None? ==> r == likes
  {
    if liked then likes + [uid.GetOr("")]
    else if uid.Some? then PostsRoute.RemoveAll(likes, uid.value)
    else likes
  }

  /** When the page's copy of the post was current, its updated like list
      and counter are exactly what the server stored. */
  lemma LocalLikeMatchesServer(p: Post, uid: string, now: nat)
    ensures var q := PostsRoute.Toggled(p, uid, now);
      var res := PostsRoute.LikeResult(uid !in LikesOf(p), q.likeCount);
      LikesAfter(LikesOf(p), Some(uid), res.liked) == LikesOf(q)
      && p.(likes := Some(LikesAfter(LikesOf(p), Some(uid), res.liked)), likeCount := res.likeCount)
         == q.(updatedAt := p.updatedAt)
  {
  }

  /** The signed-in user wrote the post. */
  predicate IsAuthor(uid: Option<string>, p: PostJson) {
    uid == Some(p.data.authorId)
  }

  /** Edit and delete controls show for the author or an admin. */
  predicate CanModify(uid: Option<string>, p: PostJson, isAdmin: bool) {
    IsAuthor(uid, p) || isAdmin
  }

  /** The heart is filled when the uid ("" when signed out) is in the list. */
  predicate IsLiked(uid: Option<string>, p: PostJson) {
    uid.GetOr("") in LikesOf(p.data)
  }

  /** The page shows the controls exactly to the users the server lets
      update and delete the post. */
  lemma ControlsMatchServer(uid: string, p: PostJson, users: map<string, UserProfile>)
    ensures CanModify(Some(uid), p, UserUtils.IsAdmin(UserDoc(users, uid)))
      <==> PostsRoute.CanModify(p.data, uid, UserDoc(users, uid))
  {
  }

  /** The edit link shows to the author only, so an admin who may update
      another user's post through the API has no link to do it. */
  lemma AdminSeesNoEditLink(uid: string, p: PostJson, admin: UserProfile)
    requires p.data.authorId != uid && admin.role == AdminRole
    ensures CanModify(Some(uid), p, UserUtils.IsAdmin(Some(admin))) && !IsAuthor(Some(uid), p)
    ensures PostsRoute.CanModify(p.data, uid, Some(admin))
  {
  }

  /** The page's state; `id` is the route parameter ("" when absent). */
  class PostDetailPage {
    const id: string
    var post: Option<PostJson>
    var loading: bool
    var error: Option<string>
    var likeLoading: bool
    var deleteLoading: bool

    constructor (id: string)
      ensures this.id == id && post == None && loading && error == None && !likeLoading && !deleteLoading
    {
      this.id := id;
      post := None;
      loading := true;
      error := None;
      likeLoading := false;
      deleteLoading := false;
    }

    /** What the page shows in place of the post, if anything: the error,
        or "Post not found" when no post was loaded. An empty error text is
        falsy, so it counts as no error. */
    function ShownError(): (m: Option<string>)
      reads this
      requires !loading
      ensures m.None? <==> (error.None? || error.value == "") && post.Some?
      ensures error.Some? && error.value != "" ==> m == error
      ensures (error.None? || error.value == "") && post.None? ==> m == Some(PostNotFound)
    {
      if error.Some? && error.value != "" then error
      else if post.None? then Some(PostNotFound)
      else None
    }

    /** `fetchPost` once `getPost(id)` settles; without an id nothing is
        fetched and the page stays loading. */
    method FetchPost(outcome: Outcome<PostJson>)
      modifies this
      ensures id == "" ==> unchanged(this)
      ensures id != "" ==> !loading && likeLoading == old(likeLoading) && deleteLoading == old(deleteLoading)
      ensures id != "" && outcome.Resolved? ==> post == Some(outcome.value) && error == old(error)
      ensures id != "" && outcome.Rejected? ==>
        post == old(post) && error == Some(ErrorText(outcome.thrown, FetchPostFallback))
    {
      if id == "" {
        return;
      }
      match outcome {
        case Resolved(p) =>
        post := Some(p);
        case Rejected(thrown) =>
        error := Some(ErrorText(thrown, FetchPostFallback));
      }
      loading := false;
    }

    /** The synchronous part of `handleLike`: nothing happens without an
        id, without a post, or while a like is under way. The post as it
        is now is what the reply will be applied to. */
    method StartLike() returns (snapshot: Option<PostJson>)
      modifies this
      ensures snapshot.Some? <==> id != "" && old(post).Some? && !old(likeLoading)
      ensures snapshot.None? ==> unchanged(this)
      ensures snapshot.Some? ==>
        (snapshot == old(post) && likeLoading && post == old(post) && error == old(error)
         && loading == old(loading) && deleteLoading == old(deleteLoading))
    {
      if id == "" || post.None? || likeLoading {
        return None;
      }
      likeLoading := true;
      snapshot := post;
    }

    /** The part of `handleLike` after `toggleLikePost` settles: the
        snapshot with the server's counter and the locally updated list. */
    method FinishLike(snapshot: PostJson, uid: Option<string>, outcome: Outcome<PostsRoute.LikeResult>)
      modifies this
      ensures !likeLoading && loading == old(loading) && deleteLoading == old(deleteLoading)
      ensures outcome.Resolved? ==>
        (post == Some(snapshot.(data := snapshot.data.(
                   likeCount := outcome.value.likeCount,
                   likes := Some(LikesAfter(LikesOf(snapshot.data), uid, outcome.value.liked)))))
         && error == old(error))
      ensures outcome.Rejected? ==>
        post == old(post) && error == Some(ErrorText(outcome.thrown, LikeFallback))
    {
      match outcome {
        case Resolved(res) =>
        var likes := LikesAfter(LikesOf(snapshot.data), uid, res.liked);
        post := Some(snapshot.(data := snapshot.data.(likeCount := res.likeCount, likes := Some(likes))));
        case Rejected(thrown) =>
        error := Some(ErrorText(thrown, LikeFallback));
      }
      likeLoading := false;
    }

    /** The synchronous part of `handleDelete`: it also needs the user to
        confirm. */
    method StartDelete(confirmed: bool) returns (started: bool)
      modifies this
      ensures started <==> id != "" && old(post).Some? && !old(deleteLoading) && confirmed
      ensures !started ==> unchanged(this)
      ensures started ==>
        (deleteLoading && post == old(post) && error == old(error)
         && loading == old(loading) && likeLoading == old(likeLoading))
    {
      if id == "" || post.None? || deleteLoading || !confirmed {
        return false;
      }
      deleteLoading := true;
      started := true;
    }

    /** The part of `handleDelete` after `deletePost` settles: on success
        the page goes to the dashboard, still marked as deleting. */
    method FinishDelete(failure: Option<Thrown>) returns (toDashboard: bool)
      modifies this
      ensures toDashboard <==> failure.None?
      ensures failure.None? ==> unchanged(this)
      ensures failure.Some? ==>
        (!deleteLoading && error == Some(ErrorText(failure.value, DeleteFallback))
         && post == old(post) && loading == old(loading) && likeLoading == old(likeLoading))
    {
      if failure.None? {
        return true;
      }
      error := Some(ErrorText(failure.value, DeleteFallback));
      deleteLoading := false;
      toDashboard := false;
    }
  }
}
