/** The feed hook: pages of posts fetched nine at a time, split into the
    pinned list and the regular list. */
module UsePosts {
  import opened Common
  import opened Records
  import opened Ordering
  import PostsRoute
  import Api

  const FeedPageSize: nat := 9
  const FetchPostsFallback := "Failed to fetch posts"

  /** `posts.filter(post => post.pinned)` */
  function PinnedOf(s: seq<PostJson>): (r: seq<PostJson>)
    ensures |r| <= |s|
    ensures forall i :: 0 <= i < |r| ==> r[i].data.pinned && r[i] in s
  {
    if s == [] then []
    else if s[0].data.pinned then [s[0]] + PinnedOf(s[1..])
    else PinnedOf(s[1..])
  }

  /** `posts.filter(post => !post.pinned)` */
  function RegularOf(s: seq<PostJson>): (r: seq<PostJson>)
    ensures |r| <= |s|
    ensures forall i :: 0 <= i < |r| ==> !r[i].data.pinned && r[i] in s
  {
    if s == [] then []
    else if !s[0].data.pinned then [s[0]] + RegularOf(s[1..])
    else RegularOf(s[1..])
  }

  /** The two filters split a page: together they hold each post of the
      page exactly as often as the page does. */
  lemma {:induction false} FiltersPartition(s: seq<PostJson>)
    ensures multiset(PinnedOf(s)) + multiset(RegularOf(s)) == multiset(s)
    decreases |s|
  {
    if s != [] {
      FiltersPartition(s[1..]);
      assert s == [s[0]] + s[1..];
    }
  }

  /** Filtering two pages one after the other is filtering their concatenation. */
  lemma {:induction false} RegularOfConcat(a: seq<PostJson>, b: seq<PostJson>)
    ensures RegularOf(a + b) == RegularOf(a) + RegularOf(b)
    ensures PinnedOf(a + b) == PinnedOf(a) + PinnedOf(b)
    decreases |a|
  {
    if a != [] {
      assert (a + b)[0] == a[0] && (a + b)[1..] == a[1..] + b;
      RegularOfConcat(a[1..], b);
    } else {
      assert a + b == b;
    }
  }

  /** A page whose posts are all unpinned has nothing for the pinned list. */
  lemma {:induction false} NoPinnedOf(s: seq<PostJson>)
    requires forall i :: 0 <= i < |s| ==> !s[i].data.pinned
    ensures PinnedOf(s) == [] && RegularOf(s) == s
    decreases |s|
  {
    if s != [] {
      NoPinnedOf(s[1..]);
      assert s == [s[0]] + s[1..];
    }
  }

  /** The server's page after an unpinned post holds no pinned post: the
      order puts every pinned post before every unpinned one. */
  lemma PageAfterRegularPostHasNoPinned(q: PostsRoute.PostsQuery, posts: map<string, Post>, page: seq<PostJson>)
    requires ValidLimit(q.limit)
    requires q.lastId != "" && q.lastId in posts && !posts[q.lastId].pinned
    requires var ks := PostsRoute.PostsListing(q, posts);
      |page| == |ks| && forall i :: 0 <= i < |ks| ==> page[i].id == ks[i].id && ks[i].id in posts && page[i].data == posts[ks[i].id]
    ensures PinnedOf(page) == [] && RegularOf(page) == page
  {
    PostsRoute.ListingSound(q, posts);
    NoPinnedOf(page);
  }

  /** The server reads the feed's request as nine posts after the cursor,
      with neither the pinned nor the author filter. */
  lemma FeedAsksForNinePosts(cursor: string)
    requires Api.PlainText(cursor)
    ensures var q := Api.ServerPostsQuery(Api.ParseQuery(Api.RenderQuery(Api.PostsParams(FeedPageSize, cursor, None, ""))));
      ValidLimit(q.limit) && LimitOf(q.limit, PostsRoute.DefaultPostsLimit) == 9 && q.lastId == cursor && q.pinned == "" && q.userId == ""
  {
    Api.PostsQueryArrives(FeedPageSize, cursor, None, "");
  }

  /** The hook's state. */
  class PostsFeed {
    var loading: bool
    var error: Option<string>
    var posts: seq<PostJson>
    var pinnedPosts: seq<PostJson>
    var lastId: Option<string>
    var hasMore: bool

    /** Each list holds only its own kind of post. */
    predicate Valid()
      reads this
    {
      (forall i :: 0 <= i < |posts| ==> !posts[i].data.pinned)
      && (forall i :: 0 <= i < |pinnedPosts| ==> pinnedPosts[i].data.pinned)
    }

    constructor ()
      ensures Valid()
      ensures !loading && error == None && posts == [] && pinnedPosts == [] && lastId == None && !hasMore
    {
      loading := false;
      error := None;
      posts := [];
      pinnedPosts := [];
      lastId := None;
      hasMore := false;
    }

    /** The synchronous part of `fetchPosts(reset)`: a fetch already under
        way blocks a load-more but not a reset. A started fetch asks for
        `FeedPageSize` posts after `cursor` ("" meaning from the top), at
        `url`. */
    method StartFetch(reset: bool, apiUrl: string) returns (started: bool, cursor: string, url: string)
      modifies this
      ensures started <==> !(old(loading) && !reset)
      ensures !started ==> unchanged(this) && cursor == ""
      ensures started ==> (loading && error == None
        && posts == old(posts) && pinnedPosts == old(pinnedPosts)
        && lastId == old(lastId) && hasMore == old(hasMore))
      ensures started ==> cursor == (if reset then "" else old(lastId).GetOr(""))
      ensures started ==> url == apiUrl + "/posts?" + Api.RenderQuery(Api.PostsParams(FeedPageSize, cursor, None, ""))
      ensures !started ==> url == ""
    {
      if loading && !reset {
        return false, "", "";
      }
      loading := true;
      error := None;
      started := true;
      cursor := if reset then "" else lastId.GetOr("");
      url := Api.GetPostsUrl(apiUrl, FeedPageSize, cursor, None, "");
    }

    /** The part of `fetchPosts(reset)` after `getPosts` settles. */
    method FinishFetch(reset: bool, outcome: Outcome<PostsPage>)
      modifies this
      ensures old(Valid()) ==> Valid()
      ensures !loading
      ensures outcome.Resolved? ==>
        var page := outcome.value;
        pinnedPosts == PinnedOf(page.posts)
        && posts == (if reset then [] else old(posts)) + RegularOf(page.posts)
        && lastId == page.lastId && hasMore == page.hasMore && error == old(error)
      ensures outcome.Rejected? ==>
        error == Some(ErrorText(outcome.thrown, FetchPostsFallback))
        && posts == old(posts) && pinnedPosts == old(pinnedPosts)
        && lastId == old(lastId) && hasMore == old(hasMore)
    {
      match outcome {
        case Resolved(page) =>
        var pinned := PinnedOf(page.posts);
        var regular := RegularOf(page.posts);
        pinnedPosts := pinned;
        if reset {
          posts := regular;
        } else {
          posts := posts + regular;
        }
        assert posts == (if reset then [] else old(posts)) + regular;
        lastId := page.lastId;
        hasMore := page.hasMore;
        case Rejected(thrown) =>
        error := Some(ErrorText(thrown, FetchPostsFallback));
      }
      loading := false;
    }
  }

  /** What the regular list holds after a reset and then load-mores:
      the regular posts of every page, in the order the pages came. */
  function FeedOfPages(pages: seq<seq<PostJson>>): seq<PostJson> {
    if pages == [] then [] else FeedOfPages(pages[..|pages| - 1]) + RegularOf(pages[|pages| - 1])
  }

  function Flatten(pages: seq<seq<PostJson>>): seq<PostJson> {
    if pages == [] then [] else Flatten(pages[..|pages| - 1]) + pages[|pages| - 1]
  }

  /** Page by page, the regular list is the regular posts of everything fetched. */
  lemma {:induction false} FeedIsRegularOfAllPages(pages: seq<seq<PostJson>>)
    ensures FeedOfPages(pages) == RegularOf(Flatten(pages))
    decreases |pages|
  {
    if pages != [] {
      var init := pages[..|pages| - 1];
      FeedIsRegularOfAllPages(init);
      RegularOfConcat(Flatten(init), pages[|pages| - 1]);
    }
  }
}
