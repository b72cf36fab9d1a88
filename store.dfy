/** The Firestore database as the handlers use it: two collections, read and
    written one request at a time. */
module Store {
  import opened Common
  import opened Records

  class Db {
    /** The `posts` collection: document id to document. */
    var posts: map<string, Post>
    /** The `users` collection: auth uid to profile. */
    var users: map<string, UserProfile>

    constructor (posts0: map<string, Post>, users0: map<string, UserProfile>)
      ensures posts == posts0 && users == users0
    {
      posts := posts0;
      users := users0;
    }
  }

  /** `usersCollection.doc(uid).get()`: the profile, when the document exists. */
  function UserDoc(users: map<string, UserProfile>, uid: string): (r: Option<UserProfile>)
    ensures r.Some? <==> uid in users
    ensures r.Some? ==> r.value == users[uid]
  {
    if uid in users then Some(users[uid]) else None
  }

  /** The message of the error Firestore throws when `update` targets a
      document that does not exist (its exact text is the store's). */
  const NoDocumentToUpdate := "No document to update"
}
