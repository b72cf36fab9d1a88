/** A post's card in the feed: the content snippet, the author label and
    whether the viewer's like shows. */
module PostCard {
  import opened Common
  import opened Records
  import PostDetail

  const SnippetLength: nat := 150
  const Ellipsis := "..."

  /** Content longer than 150 characters is cut to its first 150, followed
      by "..."; shorter content is shown whole. */
  function ContentSnippet(content: string): (r: string)
    ensures |content| <= SnippetLength ==> r == content
    ensures |content| > SnippetLength ==> |r| == SnippetLength + 3 && r[..SnippetLength] == content[..SnippetLength] && r[SnippetLength..] == Ellipsis
    ensures |r| <= SnippetLength + 3
  {
    if |content| > SnippetLength then content[..SnippetLength] + Ellipsis else content
  }

  /** Cutting a snippet again changes nothing: a cut snippet is 153
      characters, and its first 150 are the same first 150. */
  lemma SnippetIdempotent(content: string)
    ensures ContentSnippet(ContentSnippet(content)) == ContentSnippet(content)
  {
    var r := ContentSnippet(content);
    if |content| > SnippetLength {
      assert r[..SnippetLength] + Ellipsis == r;
    }
  }

  /** The author shown: the stored name, or "Unknown" when it is empty. */
  function AuthorLabel(p: Post): (s: string)
    ensures s != ""
    ensures p.authorName != "" ==> s == p.authorName
  {
    if p.authorName != "" then p.authorName else "Unknown"
  }

  /** The card shows a like only for a loaded profile whose uid is in the list. */
  predicate IsLikedOnCard(profile: Option<UserProfile>, p: PostJson) {
    profile.Some? && p.data.likes.Some? && profile.value.uid in p.data.likes.value
  }

  /** For a signed-in viewer, the card and the post page agree on the like;
      signed out, the card shows none while the page tests the "" entry
      a like without a uid leaves behind. */
  lemma CardAgreesWithPostPage(profile: UserProfile, p: PostJson)
    ensures IsLikedOnCard(Some(profile), p) <==> PostDetail.IsLiked(Some(profile.uid), p)
    ensures !IsLikedOnCard(None, p)
    ensures PostDetail.IsLiked(None, p) <==> "" in LikesOf(p.data)
  {
  }
}
