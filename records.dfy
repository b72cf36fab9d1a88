/** The documents the store holds and the shapes the API sends back. */
module Records {
  import opened Common

  const AdminRole := "admin"
  const UserRole := "user"

  /** A post document. Its id is its key in the store, not a field.
      `likes` is None for a document that has no `likes` field;
      timestamps are opaque natural numbers, larger meaning later. */
  datatype Post = Post(
    title: string,
    content: string,
    authorId: string,
    authorName: string,
    imageURL: string,
    pinned: bool,
    views: int,
    likes: Option<seq<string>>,
    likeCount: int,
    createdAt: nat,
    updatedAt: nat)

  /** `postData.likes || []` */
  function LikesOf(p: Post): seq<string> {
    p.likes.GetOr([])
  }

  /** A profile document in the `users` collection, keyed by the auth uid.
      `updatedAt` is absent until the first update. */
  datatype UserProfile = UserProfile(
    uid: string,
    email: string,
    displayName: string,
    role: string,
    photoURL: string,
    createdAt: nat,
    updatedAt: Option<nat>)

  /** A post as the API sends it: `{ id, ...data }`. */
  datatype PostJson = PostJson(id: string, data: Post)

  /** The body of `GET /api/posts`. */
  datatype PostsPage = PostsPage(posts: seq<PostJson>, lastId: Option<string>, hasMore: bool)

  /** One entry of `GET /api/admin/users`: exactly these six fields. */
  datatype UserRow = UserRow(
    id: string,
    email: string,
    displayName: string,
    role: string,
    photoURL: string,
    createdAt: nat)

  /** The body of `GET /api/admin/users`. */
  datatype UsersPage = UsersPage(users: seq<UserRow>, lastId: Option<string>, hasMore: bool)
}
