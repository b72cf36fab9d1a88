# Posting app over Firebase: a Dafny model of its server routes and client state

The system is a small posting application. An Express server in front of
Firestore serves posts, user profiles, sign-up and an admin area. A React
client lists the posts, shows one post, likes and deletes posts, edits the
profile and manages user roles.

This project models the decision and state-update logic of both halves. The
Firebase services are replaced by values.

- **The store.** Firestore becomes `Store.Db`, a class with two maps: post id
  to `Post`, and uid to `UserProfile`. Each route handler is a method that
  `modifies` the store. Its contract states the reply (status and body) for
  every branch and the new contents of the maps.
- **Foreign calls become parameters.** Token verification, `createUser`,
  `getUser`, the signed URL, new document ids, uuids and the clock are
  passed in by the caller. A call that can fail is given as a `Fallible`
  (done with a value, or failed with a message).
- **The listing.** A Firestore query becomes
  `Take(limit, After(cursor, Sort(Eligible)))` over an explicit total order
  (module `Ordering`). The order is pinned first, then newest `createdAt`
  first. Ties are broken by the document id, descending. That tie-break is a
  modelling choice, because the source only names the first two keys.
- **The client.** Hooks and pages are classes whose fields are the React
  state. An async handler is split at its `await`. `Start…` runs up to the
  request and says whether it is made. `Finish…` takes what the request
  settled with (`Outcome`: resolved with a value, or rejected with what was
  thrown).

The properties proved connect the two halves as well as each half on its
own:

- a URL built by `getPosts` parses back on the server to the query it was
  built from;
- an error text a handler replies with reaches the page that made the call;
- the feed's pinned/regular split is a partition;
- the client's authorisation and like predicates agree with the server's;
- the client's image checks are compared with the server's upload filter.

One property of the feed is worth spelling out. `usePosts` replaces the
pinned list on every page. After "load more" the pinned list therefore
becomes empty whenever the previous page ended on an unpinned post (with
nine or more pinned posts, the second page still holds pinned ones).
`UsePosts.PageAfterRegularPostHasNoPinned` shows this. Once the cursor is
an unpinned post, the server's next page holds no pinned post.
`UsePosts.PostsFeed.FinishFetch` then stores that empty list.

## Model

| member | source | states |
|---|---|---|
| Common.ErrorText | client/src/hooks/usePosts.ts:43 | an `Error` shows its message, anything else thrown shows the caller's fallback |
| Store.UserDoc | server/middleware/roleMiddleware.js:14-16 | the lookup finds a profile exactly when the uid is a key, and that profile is the stored one |
| Strings.IndexOf | server/middleware/authMiddleware.js:10 | the first occurrence of a pattern, or none exactly when the pattern does not occur |
| Strings.Split | server/routes/posts.js:300-301 | the pieces join back to the string, none contains the separator, there is at least one |
| Strings.SplitJoinSingle | client/src/services/api.ts:102-105 | splitting a join on a separator no piece holds gives back the pieces |
| Strings.SplitLastPiece | server/routes/posts.js:300-301 | the last piece after a split is the text after the last separator |
| Strings.TrimEmptyIffBlank | client/src/components/posts/PostForm.tsx:72 | `trim()` gives "" exactly when every character is JavaScript white space |
| Strings.ToLowerAscii | server/routes/posts.js:39 | lower-casing keeps the length and maps each character on its own |
| Strings.DecimalRoundTrip | client/src/services/api.ts:102 | the decimal text of a limit parses back to the same number |
| Ordering.LimitOf | server/routes/posts.js:142-143 | the parsed limit is positive and is the default when no limit is sent |
| Ordering.BeforeTotal | server/routes/posts.js:148-150 | any two different keys are ordered one way or the other |
| Ordering.BeforeTransitive | server/routes/posts.js:148-150 | the listing order is transitive |
| Ordering.BeforeAsymmetric | server/routes/posts.js:148-150 | the listing order never puts two keys both ways |
| Ordering.Sort | server/routes/posts.js:148-150 | the result is sorted, holds exactly the given keys and has as many as the set |
| Ordering.Take | server/routes/posts.js:171 | at most `n` items, a prefix of the input, and all of it when shorter than `n` |
| Ordering.AfterMembers | server/routes/posts.js:163-168 | the keys kept after a cursor are exactly those that come later than it |
| Ordering.ResumeAfter | server/routes/posts.js:166 | resuming after the i-th key of a sorted listing gives the rest of the listing |
| Ordering.NextCursor | server/routes/posts.js:189 | resuming after a full page's last key gives what followed that page |
| Ordering.FollowPagesCoverAll | server/routes/posts.js:163-171 | following the cursors page by page yields every remaining key once, in order |
| Ordering.PageIsPrefix | server/routes/posts.js:171 | a later key left out of a page means the page is full of keys before it |
| Ordering.PinnedFirst | server/routes/posts.js:149 | in a sorted listing no unpinned key precedes a pinned one |
| Ordering.FullLastPageHasNothingAfter | server/routes/posts.js:190 | a page ending on the last key leaves nothing after it, so `hasMore` can be true on the final page |
| RoleMiddleware.CheckRole | server/middleware/roleMiddleware.js:8-36 | 404 "User not found" without a profile; 500 on a failed lookup; next exactly when the role equals the required one; otherwise 403 "Access denied. <role> role required." |
| RoleMiddleware.NoRoleHierarchy | server/middleware/roleMiddleware.js:23 | an admin is refused where the "user" role is required |
| AuthMiddleware.BearerToken | server/middleware/authMiddleware.js:10 | the token is the text after the prefix up to the next "Bearer " or the end |
| AuthMiddleware.TokenIsRestOfHeader | server/middleware/authMiddleware.js:10 | with no second "Bearer ", the token is the header minus its prefix |
| AuthMiddleware.Authenticate | server/middleware/authMiddleware.js:3-20 | a missing or non-"Bearer " header gives 401 "Unauthorized: No token provided"; a token that fails verification gives 401 "Unauthorized: Invalid token"; otherwise the decoded token |
| AuthMiddleware.Request.constructor | server/middleware/authMiddleware.js:4 | a request carries its header and no user yet |
| AuthMiddleware.VerifyFirebaseToken | server/middleware/authMiddleware.js:3-20 | the decision is `Authenticate`'s; on success `req.user` becomes the decoded token, otherwise it is untouched |
| Upload.Basename | server/routes/users.js:111-113 | the base name has no '/', is a suffix of the path, and is the whole path or follows its last '/' |
| Upload.BasenameOfTempFile | server/routes/users.js:25-27 | the base name of a stored upload is the name multer gave it |
| Upload.LastDot | server/routes/posts.js:29 | the position of the last '.' of a name, or none when there is none |
| Upload.Extname | server/routes/posts.js:29 | the extension ends the base name, starts with '.' and holds no other '.' or '/'; it is empty exactly when the base name has no '.' after its first character, or is ".." |
| Upload.MentionsImageType | server/routes/posts.js:37-41 | the filter's unanchored test: "jpeg", "jpg", "png" or "gif" occurs somewhere in the text |
| Upload.ExtnameOfDottedName | server/routes/posts.js:29 | a '/'-free name with a non-empty stem has as extension its last dotted part |
| Upload.ScreenUpload | server/routes/posts.js:33-48 | a file passes exactly when both the lower-cased extension and the type mention jpeg, jpg, png or gif and it is at most 5 MB; a failed type test is "Only image files are allowed" |
| Upload.FilterIsUnanchored | server/routes/posts.js:37-41 | any plain name ending in ".jpgx", typed "text/png-notes", passes the filter |
| Upload.FilterIgnoresExtensionCase | server/routes/posts.js:38-40 | any plain name ending in ".PNG" passes, because the extension is lower-cased first |
| PostsRoute.RemoveAll | server/routes/posts.js:382 | `arrayRemove`: the uid is gone, every other entry stays, its count drops to zero |
| PostsRoute.RemoveMember | server/routes/posts.js:382 | removing a present uid from a duplicate-free list shortens it by one |
| PostsRoute.Toggled | server/routes/posts.js:375-397 | the uid's membership flips, the count moves by one in the matching direction, other uids and fields stay |
| PostsRoute.ToggleKeepsLikesConsistent | server/routes/posts.js:379-397 | a toggle keeps `likeCount` equal to the number of likes, with no duplicates |
| PostsRoute.ToggleTwice | server/routes/posts.js:379-397 | toggling twice restores the count and the set of likes |
| PostsRoute.PostImagePath | server/routes/posts.js:80-82 | the path is `post-images/<uid>/` followed by the generated uuid and the original name's extension |
| PostsRoute.NewPost | server/routes/posts.js:110-122 | a new post has no likes, is unpinned with no views, names the caller as author and falls back to "Anonymous" |
| PostsRoute.CreatePost | server/routes/posts.js:33-137 | a refused upload is reported first; then 400 for a missing title or content, 404 for an unknown author; a failed signed URL is 500; success stores exactly the new post under the new id |
| PostsRoute.Eligible | server/routes/posts.js:153-160 | the keys of exactly the posts that pass the pinned ("true" only) and author filters |
| PostsRoute.CursorOf | server/routes/posts.js:163-168 | a cursor exists exactly when `lastId` is non-empty and names a post |
| PostsRoute.ListingSound | server/routes/posts.js:148-171 | every listed post passes the filters, comes after the cursor and is in order; at most `limit` are listed |
| PostsRoute.PostsListing | server/routes/posts.js:148-171 | the listing is the first `limit` eligible posts, in feed order, after the cursor; a page shorter than `limit` holds every remaining one |
| PostsRoute.ListedPostsExist | server/routes/posts.js:174-185 | every listed key names a stored post |
| PostsRoute.ListingComplete | server/routes/posts.js:148-171 | an eligible post after the cursor that is not listed means the page is full of posts before it |
| PostsRoute.UnknownCursorIgnored | server/routes/posts.js:163-168 | a `lastId` naming no post gives the uncursored listing |
| PostsRoute.NextPageContinues | server/routes/posts.js:163-190 | the next page, asked with this page's `lastId`, continues right after this page |
| PostsRoute.PagesCoverAllPosts | server/routes/posts.js:148-171 | following the pages lists every eligible post exactly once, in order |
| PostsRoute.PinnedFilterAndOrder | server/routes/posts.js:149-155 | with pinned "true" only pinned posts are listed; no unpinned post precedes a pinned one |
| PostsRoute.RenderPosts | server/routes/posts.js:177-185 | one response item per listed key, carrying its id and stored data |
| PostsRoute.ListPosts | server/routes/posts.js:140-196 | the page is the listing rendered; `lastId` is the last id or null; `hasMore` holds exactly when the page is full |
| PostsRoute.Viewed | server/routes/posts.js:209-220 | a fetch adds one view and changes nothing else |
| PostsRoute.ViewsCountFetches | server/routes/posts.js:209-210 | n fetches add exactly n views and nothing else |
| PostsRoute.GetPost | server/routes/posts.js:199-226 | 404 "Post not found" and no write for an unknown id; otherwise one more view, and the reply is the stored post |
| PostsRoute.CanModify | server/routes/posts.js:245-253 | the inline authorisation of update and delete: the author, or a caller whose profile exists with role "admin" |
| PostsRoute.CanModifyIsAuthorOrAdmin | server/routes/posts.js:245-253 | a caller may modify exactly when they are the author or their profile's role is "admin" |
| PostsRoute.AdminMayModifyOthersPosts | server/routes/posts.js:246-248 | an admin passes on another's post; a plain user or a caller without a profile does not |
| PostsRoute.ApplyEdit | server/routes/posts.js:256-259 | only a non-empty title or content is written, and `updatedAt`; no other field changes |
| PostsRoute.EditKeepsLikes | server/routes/posts.js:256-259 | an edit keeps the likes consistent; an empty edit only touches `updatedAt` |
| PostsRoute.UpdatePost | server/routes/posts.js:229-268 | 404 for an unknown post, 403 "Not authorized to update this post" unless author or admin; success applies the edit and writes nothing else |
| PostsRoute.ImagePathFromUrl | server/routes/posts.js:299-302 | the path is the author's folder followed by a name with no '/' or '?' |
| PostsRoute.ImagePathRoundTrip | server/routes/posts.js:80-82 | the path taken from a signed URL of an uploaded image is the path it was stored under |
| PostsRoute.DeletePost | server/routes/posts.js:271-319 | 404 for an unknown post, 403 "Not authorized to delete this post" unless author or admin; success removes exactly that post and names its image path when it has an image |
| PostsRoute.PinPost | server/routes/posts.js:322-358 | the admin gate first, then 400 for a non-boolean before the 404 check; success changes only `pinned` and `updatedAt` |
| PostsRoute.ToggleLike | server/routes/posts.js:361-402 | 404 for an unknown post; otherwise the post is `Toggled` and the reply reports the new membership and count |
| AdminRoute.AllUserKeys | server/routes/admin.js:20 | one key per stored user |
| AdminRoute.UserCursorOf | server/routes/admin.js:23-28 | a cursor exists exactly when `lastId` is non-empty and names a user |
| AdminRoute.UsersListingSound | server/routes/admin.js:20-31 | users are listed newest first, after the cursor, at most `limit` of them |
| AdminRoute.UsersListing | server/routes/admin.js:20-31 | the listing is the first `limit` users, newest first, after the cursor; a page shorter than `limit` holds every remaining one |
| AdminRoute.ListedUsersExist | server/routes/admin.js:38-48 | every listed key names a stored user |
| AdminRoute.UnknownUserCursorIgnored | server/routes/admin.js:23-28 | a `lastId` naming no user gives the uncursored listing |
| AdminRoute.UserPagesCoverAll | server/routes/admin.js:20-31 | following the pages lists every user exactly once |
| AdminRoute.UserNextPageContinues | server/routes/admin.js:20-31 | asked again with a full page's last id as `lastId`, the route returns the next `limit` users right after that page (user ids are never empty) |
| AdminRoute.RowOf | server/routes/admin.js:40-47 | a row carries the document id and the stored email, name, role, photo and creation time; it has no uid field |
| AdminRoute.RenderUsers | server/routes/admin.js:37-48 | one row per listed key, built from the stored profile |
| AdminRoute.ListUsers | server/routes/admin.js:11-60 | behind the admin gate; the page is the listing's rows, `lastId` the last id or null, `hasMore` when the page is full |
| AdminRoute.UpdateRole | server/routes/admin.js:63-99 | the admin gate, then 400 unless the role is "user" or "admin", 404 for an unknown target; success changes only `role` and `updatedAt` |
| AdminRoute.SelfDemotionAllowed | server/routes/admin.js:68-89 | an admin may demote themself, after which they fail the admin gate |
| UsersRoute.ProfileFromAuth | server/routes/users.js:56-63 | the lazily created profile has the uid, role "user", no update time and the creation time `now`; it copies each auth field that is present and stores "" for each missing one |
| UsersRoute.GetProfile | server/routes/users.js:49-77 | an existing profile is returned unchanged; a missing one is created from the auth record and returned; a failed lookup is 500 |
| UsersRoute.ProfileCreatedOnce | server/routes/users.js:53-72 | after the first fetch stores a created profile, the next fetch finds that same profile |
| UsersRoute.EditedProfile | server/routes/users.js:82-90 | only a non-empty name is written, and `updatedAt` |
| UsersRoute.EditKeepsRole | server/routes/users.js:82-90 | the profile update never changes role, email, uid or photo |
| UsersRoute.UpdateProfile | server/routes/users.js:80-97 | the update is applied to an existing profile; a missing one is 500 and no write |
| UsersRoute.ProfileImagePath | server/routes/users.js:111-113 | the path is the user's folder followed by a name with no '/' |
| UsersRoute.ProfileImageKeepsTempName | server/routes/users.js:111-113 | the stored name is the name multer gave the upload |
| UsersRoute.StoreProfileImage | server/routes/users.js:104-149 | 400 "No image file provided" without a file; the storage path is `profile-images/<uid>/<temp name>`; a storage failure or a missing profile document is a 500 that changes nothing; success replies with the signed URL and changes only `photoURL` and `updatedAt` |
| UsersRoute.UploadProfileImage | server/routes/users.js:100-149 | a file the upload stage refuses gets a 500 with the stage's message; it changes nothing and uploads nothing. Otherwise: a missing file gets 400; a storage failure or a missing profile gets a 500 that changes nothing; success replies with the signed URL and changes only `photoURL` and `updatedAt` |
| AuthRoute.SignupProfile | server/routes/auth.js:23-30 | the new profile has the new uid, the created account's email, role "user", no photo, the name or "", creation time `now` and no update time |
| AuthRoute.Signup | server/routes/auth.js:10-39 | a failed `createUser` is 500 with its message and no write; success stores the profile under the new uid and replies 201 with that uid |
| AuthRoute.SignupKeyMatchesUid | server/routes/auth.js:23-24 | every stored profile's `uid` equals its key, before and after a sign-up |
| Api.ApiUrl | client/src/services/api.ts:5 | a configured backend followed by "/api", or "http://localhost:5000/api" when none is configured |
| Api.RenderQueryAppend | client/src/services/api.ts:103-105 | appending a parameter adds "&key=value" to the query |
| Api.ParseRenderedParam | client/src/services/api.ts:102-105 | a rendered parameter parses back to itself |
| Api.QueryRoundTrip | client/src/services/api.ts:102-105 | a query of plain parameters parses back to the same parameters. Plain means no '&', '+', '%', '#' or ']' and no space or control character anywhere, and no '=' in keys |
| Api.DecodePlus | server/routes/posts.js:142 | the server reads each '+' in a key or value as a space and keeps every other character |
| Api.CutOf | server/routes/posts.js:142 | the server cuts a piece just after the ']' of its first "]=", otherwise at its first '='; there is no cut exactly when the piece has no '=' |
| Api.ParseQuery | server/routes/posts.js:142 | the server's reading of the query: pieces split at '&', each cut by `CutOf` into a decoded key and value, a piece without '=' being a key with value "" |
| Api.BracketEqualsMovesCut | server/routes/posts.js:142 | a value holding "]=" moves the cut: `key=a]=b` arrives as the key `key=a]` with value `b`, so nothing arrives under `key` |
| Api.QueryValue | server/routes/posts.js:142 | the value read for a key is that of the first parameter sent under it (no earlier parameter has the key), or none when it is absent |
| Api.QueryValueAppend | server/routes/posts.js:142 | reading a key from two joined parameter lists prefers the first list |
| Api.RenderQueryOpt | client/src/services/api.ts:103-105 | an optional parameter adds its text only when its condition holds |
| Api.PostsParams | client/src/services/api.ts:102-105 | the query starts with the limit, then `lastId`, `pinned`, `userId` as they are given |
| Api.GetPostsUrl | client/src/services/api.ts:102-105 | the URL is the posts path followed by the rendered parameters |
| Api.UsersParams | client/src/services/api.ts:251-252 | the query starts with the limit, then `lastId` when non-empty |
| Api.GetUsersUrl | client/src/services/api.ts:251-252 | the URL is the users path followed by the rendered parameters |
| Api.PostsParamsValues | client/src/services/api.ts:102-105 | `lastId` and `userId` are sent only when non-empty, `pinned` whenever it is given, even when false |
| Api.PostsQueryArrives | client/src/services/api.ts:102-105 | for plain ids (no '&', '+', '%', '#' or ']', no space or control character), the server reads back the limit, cursor, author and pinned text the client sent |
| Api.UsersQueryArrives | client/src/services/api.ts:251-252 | for a plain cursor (no '&', '+', '%', '#' or ']', no space or control character), the server reads back the limit and cursor the client sent |
| Api.ServerPostsQuery | server/routes/posts.js:142 | the posts route reads `limit` as sent, and `lastId`, `pinned` and `userId` as their first value, or "" when absent (so `if (lastId)` / `if (userId)` skip them) |
| Api.ServerUsersQuery | server/routes/admin.js:17 | the users route reads `limit` as sent, and `lastId` as its first value, or "" when absent |
| Api.PinnedFalseIsNoFilter | client/src/services/api.ts:104 | sending pinned=false lists the same posts as sending no pinned filter |
| Api.GetToken | client/src/services/api.ts:8-14 | no signed-in user rejects with "User not authenticated", otherwise the token |
| Api.AuthorizationHeader | client/src/services/api.ts:109 | the header value is "Bearer ", then the token unchanged |
| Api.HeaderCarriesToken | client/src/services/api.ts:109 | the server extracts from the header exactly the token the client put in |
| Api.Fallback | client/src/services/api.ts:115 | every call has a non-empty fallback message |
| Api.ErrorFromBody | client/src/services/api.ts:113-116 | a failed reply throws its `error` text, else the call's fallback |
| Api.CallOutcome | client/src/services/api.ts:107-118 | a call resolves exactly when the handler replied OK, with the handler's value |
| Api.ErrorTextsReachCaller | client/src/services/api.ts:113-116 | a handler's error text reaches the caller; the auth middleware's `message` does not, so the fallback shows |
| UsePosts.PinnedOf | client/src/hooks/usePosts.ts:27 | the pinned posts of a page, drawn from it |
| UsePosts.RegularOf | client/src/hooks/usePosts.ts:28 | the unpinned posts of a page, drawn from it |
| UsePosts.FiltersPartition | client/src/hooks/usePosts.ts:27-28 | every post of a page lands in exactly one of the two lists |
| UsePosts.RegularOfConcat | client/src/hooks/usePosts.ts:27-36 | both filters distribute over joined pages |
| UsePosts.NoPinnedOf | client/src/hooks/usePosts.ts:27-28 | a page without pinned posts is all regular |
| UsePosts.PageAfterRegularPostHasNoPinned | client/src/hooks/usePosts.ts:23-35 | once the cursor is an unpinned post, the next page has no pinned posts, so the pinned list empties |
| UsePosts.PostsFeed.constructor | client/src/hooks/usePosts.ts:9-13 | the feed starts empty, not loading, with no cursor |
| UsePosts.PostsFeed.StartFetch | client/src/hooks/usePosts.ts:16-24 | a non-reset fetch while loading does nothing. Otherwise loading starts and the error clears. The cursor is "" on reset, else the stored `lastId`. The request URL asks for 9 posts after that cursor |
| UsePosts.FeedAsksForNinePosts | client/src/hooks/usePosts.ts:24 | the server reads the feed's request as a limit of 9 after the cursor, with no pinned or author filter |
| UsePosts.PostsFeed.FinishFetch | client/src/hooks/usePosts.ts:26-46 | the pinned list is replaced; the regular list is replaced on reset and appended otherwise; `lastId` and `hasMore` are copied; a failure keeps the lists and sets the error; loading ends |
| UsePosts.FeedIsRegularOfAllPages | client/src/hooks/usePosts.ts:30-36 | the feed after any sequence of pages is the regular posts of all of them |
| UseUsers.NextRole | client/src/components/users/UserTable.tsx:76 | the button offers "user" to an admin and "admin" to anyone else |
| UseUsers.UidField | client/src/components/users/UserTable.tsx:75 | the `uid` read from a listed row is always absent, since rows carry `id` only |
| UseUsers.PathSegment | client/src/services/api.ts:274 | an id is interpolated as itself, a missing one as "undefined" |
| UseUsers.SetRoleAsWritten | client/src/hooks/useUsers.ts:59-63 | as written: a row changes when its `uid` equals the id passed |
| UseUsers.RoleChangeAsWrittenMissesTarget | client/src/hooks/useUsers.ts:59-63 | a listed row has no `uid`, so the request targets "undefined" and the server answers 404 |
| UseUsers.AsWrittenChangesEveryRow | client/src/hooks/useUsers.ts:59-63 | as written, with the undefined id every row would match |
| UseUsers.SetRole | client/src/hooks/useUsers.ts:59-63 | exactly the rows with that id get the new role; the others and the length stay |
| UseUsers.SetRoleFollowsServer | client/src/hooks/useUsers.ts:59-63 | after a role change the rows still show the server's profiles |
| UseUsers.UsersAdmin.constructor | client/src/hooks/useUsers.ts:10-16 | no users, loading, no messages, no cursor, nobody processing |
| UseUsers.UsersAdmin.StartFetch | client/src/hooks/useUsers.ts:18-26 | a non-reset fetch while loading does nothing. Otherwise loading starts. The cursor is "" on reset, else `lastId`. The request URL asks for 20 rows after that cursor |
| UseUsers.TableAsksForTwentyUsers | client/src/hooks/useUsers.ts:26 | the server reads the table's request as a limit of 20 after the cursor |
| UseUsers.UsersAdmin.FinishFetch | client/src/hooks/useUsers.ts:27-36 | users replaced on reset, appended otherwise; `lastId` and `hasMore` copied; failure keeps users and sets the error; loading ends |
| UseUsers.UsersAdmin.StartRoleChange | client/src/hooks/useUsers.ts:51-53 | marks the user as processing and clears both messages |
| UseUsers.UsersAdmin.FinishRoleChange | client/src/hooks/useUsers.ts:55-76 | success sets the role on the rows with that id (the corrected key, see Findings) and shows "User role updated to <role>"; failure keeps the rows and sets the error; nobody is processing afterwards |
| UserUtils.IsAdmin | client/src/store/userUtils.ts:49-51 | `userProfile?.role === "admin"`: a loaded profile whose role is "admin" |
| UserUtils.IsAdminAgreesWithCheckRole | client/src/store/userUtils.ts:49-51 | the client thinks the user is an admin exactly when the server's admin gate lets them through |
| UserUtils.UserSession.constructor | client/src/store/UserContext.tsx:8-10 | no profile, loading, no error |
| UserUtils.UserSession.StartFetchProfile | client/src/store/userUtils.ts:19-32 | signed out: no profile, loading ends, error untouched; signed in: loading starts and the error clears |
| UserUtils.UserSession.FinishFetchProfile | client/src/store/userUtils.ts:34-42 | success sets the profile; failure keeps it and sets the error; loading ends |
| PostDetail.IsAuthor | client/src/pages/PostDetail.tsx:103 | the signed-in uid is the post's author id |
| PostDetail.CanModify | client/src/pages/PostDetail.tsx:104 | the author or an admin |
| PostDetail.IsLiked | client/src/pages/PostDetail.tsx:105 | the uid, or "" when signed out, is in the post's likes |
| PostDetail.LikesAfter | client/src/pages/PostDetail.tsx:48-50 | a like appends the uid (or "") without a check; an unlike removes every occurrence |
| PostDetail.LocalLikeMatchesServer | client/src/pages/PostDetail.tsx:45-51 | the page's local update agrees with the server's toggle on membership and count |
| PostDetail.ControlsMatchServer | client/src/pages/PostDetail.tsx:103-104 | the page shows the edit/delete controls exactly when the server would allow the change |
| PostDetail.AdminSeesNoEditLink | client/src/pages/PostDetail.tsx:138-146 | an admin on another's post gets the controls but no edit link, though the server allows the edit |
| PostDetail.PostDetailPage.constructor | client/src/pages/PostDetail.tsx:14-18 | no post, loading, no error, no like or delete in flight |
| PostDetail.PostDetailPage.ShownError | client/src/pages/PostDetail.tsx:87-91 | a non-empty error shows itself; with no post and no such error the page shows "Post not found"; an empty error text counts as none |
| PostDetail.PostDetailPage.FetchPost | client/src/pages/PostDetail.tsx:20-36 | no id changes nothing, leaving the page loading; otherwise the post or the error is set and loading ends |
| PostDetail.PostDetailPage.StartLike | client/src/pages/PostDetail.tsx:38-41 | no id, no post or a like in flight does nothing; otherwise the like starts |
| PostDetail.PostDetailPage.FinishLike | client/src/pages/PostDetail.tsx:43-57 | success sets the server's count and the likes from `LikesAfter`, nothing else; failure sets the error; the like ends |
| PostDetail.PostDetailPage.StartDelete | client/src/pages/PostDetail.tsx:60-65 | proceeds only with an id, a post, no delete in flight and confirmation |
| PostDetail.PostDetailPage.FinishDelete | client/src/pages/PostDetail.tsx:67-74 | success goes to the dashboard; failure sets the error and ends the delete |
| ImagePicker.MatchesImageMime | client/src/components/posts/PostForm.tsx:45 | the client's type test: "image/" and one of the four types occurs anywhere, in any ASCII case |
| ImagePicker.ImageProblem | client/src/components/posts/PostForm.tsx:44-54 | a file passes exactly when its type matches an image type case-insensitively and it is at most the limit; the type is checked first |
| ImagePicker.ClientMimeAcceptedByServer | client/src/components/posts/PostForm.tsx:45 | a lower-case type the client accepts passes the server's type test |
| ImagePicker.UpperCaseMimeRefusedByServer | client/src/components/posts/PostForm.tsx:45 | "IMAGE/PNG" passes the client and fails the server's case-sensitive test |
| ImagePicker.NamelessExtensionRefusedByServer | client/src/components/posts/PostForm.tsx:40-58 | a file named without an extension passes the client and is refused by the server |
| ImagePicker.ClientSizeWithinServerLimit | client/src/components/posts/PostForm.tsx:51 | a limit of at most 5 MB keeps every accepted file within the server's limit |
| PostForm.PostFormState.constructor | client/src/components/posts/PostForm.tsx:33-37 | the form starts from the initial values; the preview is the initial image URL or none |
| PostForm.PostFormState.HandleImageChange | client/src/components/posts/PostForm.tsx:40-59 | a refused file shows why and keeps the selection; an accepted one is selected and previewed and clears the error |
| PostForm.PostFormState.HandleRemoveImage | client/src/components/posts/PostForm.tsx:61-67 | no selected image and no preview, not even the initial one |
| PostForm.PostFormState.HandleSubmit | client/src/components/posts/PostForm.tsx:69-79 | a blank title or content sets "Title and content are required" and submits nothing; otherwise the untrimmed values go out |
| PostForm.SubmissionPassesServerChecks | client/src/components/posts/PostForm.tsx:69-79 | a submitted form never gets the server's 400, and a lower-case image type passes the server's type and size tests |
| ProfilePage.SubmitCalls | client/src/pages/Profile.tsx:52-59 | the name update only when the name differs, the upload only with an image, in that order |
| ProfilePage.UnchangedProfileCallsNothing | client/src/pages/Profile.tsx:52-59 | an unchanged name with no image makes neither call |
| ProfilePage.ProfileForm.constructor | client/src/pages/Profile.tsx:8-21 | the name is the loaded profile's, else ""; nothing selected, not loading, no messages |
| ProfilePage.ProfileForm.HandleImageChange | client/src/pages/Profile.tsx:23-42 | with the 2 MB limit, a refused file shows why and keeps the selection; an accepted one is selected and clears the error |
| ProfilePage.ProfileForm.StartSubmit | client/src/pages/Profile.tsx:44-59 | loading starts, both messages clear, and the calls are `SubmitCalls` |
| ProfilePage.ProfileForm.FinishSubmit | client/src/pages/Profile.tsx:62-75 | success shows "Profile updated successfully" and clears the selection; failure sets the error; loading ends |
| RegisterPage.ShownError | client/src/pages/Register.tsx:31-44 | the three rules in order: email in use, then weak password, then invalid email. With no rule matching, the message is shown as it is. A non-`Error` shows "Failed to register" |
| RegisterPage.EmailInUseMessageReworded | client/src/pages/Register.tsx:37-38 | "email already in use" is shown as the in-use message |
| RegisterPage.UpperCaseMessageShownAsIs | client/src/pages/Register.tsx:37-43 | the rules are case-sensitive: "EMAIL IN USE" is shown as it is |
| RegisterPage.EmptySignupErrorShowsFallback | client/src/services/api.ts:26-29 | any sign-up failure whose reply has no error text shows "Failed to sign up" |
| RegisterPage.RegisterForm.constructor | client/src/pages/Register.tsx:15-23 | no error, not loading, not submitting |
| RegisterPage.RegisterForm.StartRegister | client/src/pages/Register.tsx:19-23 | a submit while loading or submitting does nothing; otherwise both flags are set and the error clears |
| RegisterPage.RegisterForm.FinishRegister | client/src/pages/Register.tsx:25-50 | success goes to the dashboard; failure shows `ShownError`; both flags are cleared in every case |
| PostCard.ContentSnippet | client/src/components/posts/PostCard.tsx:13-15 | content up to 150 characters is shown whole; longer content is its first 150 characters and "...", 153 in all |
| PostCard.SnippetIdempotent | client/src/components/posts/PostCard.tsx:13-15 | cutting a snippet again changes nothing |
| PostCard.AuthorLabel | client/src/components/posts/PostCard.tsx:44 | the stored author name, or "Unknown" when it is empty |
| PostCard.IsLikedOnCard | client/src/components/posts/PostCard.tsx:18 | a loaded profile whose uid is in the post's likes |
| PostCard.CardAgreesWithPostPage | client/src/components/posts/PostCard.tsx:18 | for a signed-in viewer the card and the post page agree on the like; signed out the card shows none |

## Left out

- Firestore read and write failures inside a handler and the 500 replies of each handler's `catch` are not modelled. The exceptions are the failures that come from a parameter: the auth lookup, `createUser`, the signed URL, and updating a missing profile.
- Each handler is one atomic step on the maps. Concurrent requests, Firestore's atomic `increment`/`arrayUnion`/`arrayRemove`, and the like-count drift under concurrent toggles are not modelled.
- Timestamps (`serverTimestamp`, `toISOString`) are natural numbers supplied by the caller.
- Firebase Admin and client SDK calls, storage uploads and deletes, multer's disk storage and `fs.unlinkSync` are not modelled. The values they return are parameters.
- server/firebase-admin.js and the route wiring in server/server.js are not part of this model.
- `Ordering.LimitOf` requires a decimal limit text. `parseInt` of anything else (NaN, a leading sign, trailing text) is not modelled.
- The client does not percent-encode query values. The server's query parser reads '+' as a space, which `Api.DecodePlus` models. It also decodes `%XX` escapes, which is not modelled.
- The URL parsing that `fetch` does between the client and the server is not modelled. It cuts the fragment at '#', drops tabs and newlines, and trims trailing spaces. `Api.PlainText` keeps those characters out of the round trips instead.
- The server parser's bracket syntax in keys (`a[b]=c` building nested objects) is not modelled; the client's keys hold no brackets. The "]=" cut rule is modelled, in `Api.CutOf`.
- Api.PostsQueryArrives: the round trip is proved only for plain ids (no '&', '+', '%', '#' or ']', no space or control character). Other ids are not promised to arrive as sent. The app's ids are generated Firestore document ids and auth uids, which are letters and digits.
- Api.UsersQueryArrives: the same plain-cursor condition as `Api.PostsQueryArrives`, for the same reasons.
- QueryValue: a key sent more than once reads as its first value. The server's query parser would make it an array, which no route expects. The client never repeats a key.
- FinishRoleChange (`UseUsers.UsersAdmin.FinishRoleChange`): the success branch applies the corrected `UseUsers.SetRole`, which keys on the row's `id`. The source matches `user.uid`, which listed rows lack. That branch is modelled as written by `UseUsers.SetRoleAsWritten`; see Findings. As written, the request goes to `/admin/users/undefined/role` and fails with 404 before that branch runs.
- Request body fields `title`, `content` and `displayName` are modelled as strings, absent meaning "". A JSON body can carry any truthy value there, a number say, and the source stores it as is. The model does not represent such values. The `pinned` and `role` bodies are modelled as JSON values, because the source checks their type.
- Strings are sequences of `char`, each a Unicode scalar value. The model ignores UTF-16 code units, so surrogate pairs and lone surrogates are not represented. `/i` case folding beyond ASCII is not modelled either.
- React rendering, navigation, `console` logging, `setTimeout`, and the clearing of the success message after 3 seconds are not modelled.
- The `useEffect` triggers are not modelled: the admin redirect and the first fetch. Field `onChange` setters and the file-input reset are not modelled either.
- `URL.createObjectURL` and `window.confirm` are parameters.
- ProfilePage.ProfileForm.FinishSubmit: what the first failing call threw is given as one `failure` parameter. The sequencing of the two calls and the refresh is left to `ProfilePage.SubmitCalls`.
- UserUtils.UserSession.FinishFetchProfile models `refreshProfile` as well, because it only awaits `fetchUserProfile`.
- React state updates are applied at once. Stale closures and batching are not modelled.
- client/src/hooks/usePostForm.ts, the React context files, and the rendering components are not part of this model. The admin edit-link difference in ManagePosts and EditPost mirrors `PostDetail.AdminSeesNoEditLink`.

## Findings

| source | as written | input that shows it | evidently intended | confidence | as-written member | corrected member |
|---|---|---|---|---|---|---|
| client/src/hooks/useUsers.ts:59-63 | rows from GET /admin/users carry `id` and no `uid` (server/routes/admin.js:40-47), yet the role change keys on `user.uid` and UserTable.tsx:75 passes `user.uid` | any listed user, e.g. row `{id: "u1", role: "user"}`: the PATCH goes to `/admin/users/undefined/role` and gets 404, and a local update with `undefined === undefined` would match every row | key the request and the local update on `user.id` | high (not executed) | UseUsers.RoleChangeAsWrittenMissesTarget | UseUsers.SetRoleFollowsServer |
