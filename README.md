# A verified model of the social network's server handlers and client reducers

The application is a small social network. An Express/Mongoose server stores
posts with likes, comments, saves and reshares; it also stores direct messages,
notifications and user accounts (local, Google and GitHub). A React client keeps
a feed, a user's own posts, a chat window and a notification list, and updates
them from Socket.IO events.

This project models the rules of that application in Dafny and proves what they
guarantee.

**Server.** The store is one object, `ServerStore.Db`. Posts are keyed by id. Users,
messages and notifications are kept in insertion order, so `findOne` returns the
first match. Every Socket.IO emit becomes an entry appended to an event log.
- Each request handler that changes the store, in `PostController`,
  `MessageController`, `NotificationController`, `Passport`, `AuthService` and
  `AuthController`, has two parts:
  - a specification function from the old store snapshot to the new snapshot and
    the HTTP reply;
  - a method that changes the store step by step, in the handler's order, and is
    proved to agree with that function.
- The read-only handlers `getMessagesWithUser`, `getNotifications` and `loginUser`
  are specification functions only. `getUnreadCounts` is a method whose counting
  loop is proved against `MessageController.CountUnread`.
- Lemmas about the specification functions state what each handler promises:
  - status codes and the order of the checks;
  - the like, comment and reshare rules and when a notification is created;
  - the reset-token lifecycle;
  - the three-step OAuth account resolution.
- `PostModel` and `UserModel` hold the schema rules that Mongoose applies on save:
  - trimming and length limits;
  - the unique email index;
  - the pre-save check that a reshared original still exists;
  - the pre-save password hash.
- `PostService` is the in-memory like toggle.
- `AuthMiddleware` chooses the token and maps each failure to its reply.

**Client.**
- The feed (`PostList`) and the user's own posts (`MyPosts`) are pure reducers over
  arrays. Lemmas state, for each socket event, exactly which posts change and how.
- Components whose state changes step by step are classes whose methods state
  their whole new state:
  - `PostCard.Card`: the like request with its in-flight guard, and the optimistic
    save with its rollback;
  - `ChatEngine.Engine`: message dedupe, the send guard and the typing indicators;
  - `NotificationContext.Context`: the notification list and its unread counter;
  - the pages `Settings`, `EditProfile` and `ViewProfile`.
- The remaining client rules are functions with lemmas:
  - which chat content counts as an image (`ChatLayout`, `ChatWindow`);
  - grouping messages by day and the avatar rule;
  - the user filters, the preview text and the empty-state text;
  - where a notification click navigates;
  - `highlightMatch`, the theme cycle and the profile link normalisation.

JavaScript values are modelled explicitly:
- An `_id` that may be missing, a string, or some other value (`JsId`).
- A field that may or may not be an array (`JsArray`).
- Truthiness of optional strings (`Truthy`).
- Plain objects as lists of entries in insertion order.
- Errors as result datatypes rather than exceptions.

## Behaviour as written

The model follows the code as written, and it proves the following consequences:
- The server's like reply carries no `requestId`. `PostCard` drops every reply
  whose `requestId` differs from the one it sent, so it drops every like reply
  (`PostCard.ServerLikeReplyDropped`).
- `saveMessage` has no duplicate-suppression window: sending the same message
  twice stores two messages.
- The Message schema has no `isImage` path. The `chatUpdate` preview is the
  message content.
- The like toggle reads the post and then updates it in a separate step. Only
  single sequential requests are modelled.
- The feed ignores the server's `commentEdited` event, whose payload carries no
  `comment` (`PostList.CommentEdited`).
- `MyPosts` does not deduplicate comments, so a `commentAdded` delivered twice
  appends two copies.
- `MyPosts`' `likeUpdated` handler copies the event's `likesCount`. The server's
  event has none, so the count is cleared.
- `editComment` does not reject empty text itself. The schema's minimum length
  turns it into a 500.
- `toggleLike` with a malformed id fails the cast and gives 500.
- `loginUser` with a missing password gives 500.
- `addComment` looks for the new comment after populating `comments.user`, and
  compares each populated user's `toString()` with the caller's id. A populated
  document never prints as its bare id, so the broadcast and the 201 reply carry no
  comment, and the feed's `commentAdded` handler ignores that event
  (`PostList.CommentAdded`). A comment with the same text whose user was deleted is populated as
  `null`, and the lookup then throws: the reply is 500 although the comment is
  already saved (`PostController.AddCommentAppends`).
- Accounts can be deleted, and a post's author then populates as `null`.
  `toggleLike` reads `post.author._id` only for a like: the 200 and `likeUpdated`
  have already gone out, and no notification is created
  (`PostController.ToggleLikeNotifies`). `resharePost` reads
  `originalPost.author._id` before creating anything, so it replies 500 and
  stores nothing (`PostController.ResharePostOutcome`).
- A notification whose sender's account was deleted has a `null` sender, and
  `NotificationSidebar` throws while rendering it (`NotificationSidebar.Label`).
- Two like toggles by the same user restore the likes only when the user was
  absent or last.
- `forgotPassword` has no request validator. Mongoose drops an `undefined` query
  condition but keeps a `null` one. So a body without `email` makes
  `findOne({ email })` match the first stored user, whose token is then reset,
  while `{"email": null}` finds nobody and changes nothing
  (`AuthController.ForgotPasswordOutcome`).
- `authenticateWithOAuth` with a profile that has no `email` field returns the
  first stored user. A GitHub profile with a private address has `email: null`:
  it finds nobody, and the new user fails the schema's `required`
  (`AuthService.AuthenticateWithOAuthOutcome`).
- String length limits count UTF-16 units, as JavaScript's `length` does, so a
  character beyond U+FFFF uses two of them (`Common.Utf16Length`).
- `resetPassword` for an account whose provider is not local stores the new
  password unhashed, because the pre-save hook hashes only local accounts.
- `ChatEngine` compares a received message's sender with `===`, so a populated
  sender object never matches the open chat.
- `ChatLayout` keys such a sender's preview as `"[object Object]"`.
- `ChatWindow`'s `validateImage` refuses webp, but `isImageUrl` accepts it. A
  message whose text is literally `"[IMAGE]"` is previewed as an image.
- `NotificationContext`'s unread counter is lowered on every `markAsRead`, even
  for an id not in the list, so the counter can drift from the list.
- In `ChatSidebar`, a user with no id gets the online dot whenever some online
  entry also has no id, because `undefined === undefined`.
- `Settings` puts back the errors shown before validating when the current
  password is missing.
- In `EditProfile`, an edit made before the form is filled from the user is lost.

## Model

| member | source | states |
|---|---|---|
| PostModel.SetTrimmed | server/src/models/Post.js:11-16 | a `trim: true` setter keeps a missing value missing and stores a present one with no leading or trailing whitespace |
| PostModel.CommentIndex | server/src/controllers/post.controller.js:364 | `post.comments.id(cid)` finds the first comment with that id, and finds nothing exactly when no comment has it |
| PostModel.PullComment | server/src/controllers/post.controller.js:453 | `post.comments.pull(cid)` keeps exactly the comments whose id differs |
| PostModel.PullCommentAt | server/src/controllers/post.controller.js:453 | with unique ids, pulling the comment at index k leaves the others in their order |
| PostModel.PullCommentAbsent | server/src/controllers/post.controller.js:453 | pulling an id no comment has changes nothing |
| PostService.ToggledLikes | server/src/services/post.service.js:29-36 | after the toggle the user is in likes exactly when it was not before, every other user's membership is unchanged, and a new like is appended at the end |
| PostService.ToggleOffKeepsOrder | server/src/services/post.service.js:30-33 | unliking removes the user and keeps every other entry in its order |
| PostService.TwoTogglesRestoreMembership | server/src/services/post.service.js:29-36 | two toggles by one user restore who has liked the post |
| PostService.TwoTogglesRestoreList | server/src/services/post.service.js:29-38 | from a duplicate-free list, two toggles by one user give back exactly the list they started from if and only if the user had not liked it or was the latest like |
| PostService.TwoTogglesReorder | server/src/services/post.service.js:29-38 | otherwise two toggles move the user's like to the end (["u","v"] becomes ["v","u"]) |
| PostService.ToggleLikeSpecOutcome | server/src/services/post.service.js:24-39 | an unknown post gives "Post not found" and changes nothing; a success flips the user's membership, changes only that post's likes and returns the saved post |
| PostService.ToggleLike | server/src/services/post.service.js:24-39 | the method changes only the stored posts, as the toggle specification says |
| ServerStore.Db.constructor | server/src/controllers/post.controller.js:8 | the store starts empty and keeps the uninterpreted ObjectId validity test |
| ServerStore.UserById | server/src/controllers/post.controller.js:294-296 | `User.findById` returns a stored user with that id, or nothing when none is stored |
| PostController.CreatePost | server/src/controllers/post.controller.js:45-94 | the handler's new store and reply are those of the createPost specification |
| PostController.CreatePostStores | server/src/controllers/post.controller.js:45-94 | a success stores one new post by the caller with no likes, comments or saves, no sharedFrom and trimmed content; a failure changes nothing; whitespace-only content without media passes the guard and is stored as the empty string |
| PostController.ToggleLike | server/src/controllers/post.controller.js:147-234 | the handler's new store and reply are those of the toggleLike specification, in which a like on a post whose author's account is gone still replies 200 and broadcasts `likeUpdated` but notifies nobody |
| PostController.ToggleLikeOutcome | server/src/controllers/post.controller.js:152-189 | an unknown post gives 404 and changes nothing; a success flips only the caller's membership, changes no other post or field, and replies isLiked = not previously liked, with the new likes array and no requestId |
| PostController.ToggleLikeNotifies | server/src/controllers/post.controller.js:196-214 | a like notification is recorded exactly when the toggle was a like, the author's account still exists, the liker is not the author, and no like notification for the same recipient, sender and post is 1000 ms old or newer; with the author gone only `likeUpdated` is broadcast |
| PostController.ControllerToggleMatchesService | server/src/controllers/post.controller.js:158-166 | the controller's `$pull`/`$addToSet` update gives the same likes as the service's filter/push toggle |
| PostController.NullUserCommentAt | server/src/controllers/post.controller.js:277-285 | the populated lookup never matches; it throws at the first comment with the new text whose user no longer exists, and runs through when there is none |
| PostController.AddComment | server/src/controllers/post.controller.js:237-335 | the handler's new store and reply are those of the addComment specification |
| PostController.AddCommentRejects | server/src/controllers/post.controller.js:241-265 | an invalid post id gives 400, a missing caller 401, missing or whitespace text 400, an unknown post 404, each changing nothing; no failure broadcasts or notifies |
| PostController.AddCommentAppends | server/src/controllers/post.controller.js:268-335 | whenever something is stored, exactly one comment, the trimmed text by the caller, is appended to that post only; the handler then fails with 500, broadcasting nothing, exactly when a comment with that text belongs to a deleted user, and otherwise replies 201 with no comment and broadcasts none |
| PostController.AddCommentByMissingUserFails | server/src/controllers/post.controller.js:277-285 | a caller whose user record is gone never gets a 201 and nothing is broadcast, because its own new comment populates as null |
| PostController.AddCommentNotifies | server/src/controllers/post.controller.js:293-318 | a comment notification goes to the author only when the commenter is someone else |
| PostController.EditComment | server/src/controllers/post.controller.js:339-408 | the handler's new store and reply are those of the editComment specification |
| PostController.EditCommentOutcome | server/src/controllers/post.controller.js:356-393 | a missing post or comment gives 404, whitespace text fails, a failure changes nothing, and a success sets the trimmed text of the caller's own comment only |
| PostController.EditCommentForbidden | server/src/controllers/post.controller.js:370-376 | editing someone else's comment gives 403 and changes nothing |
| PostController.DeleteComment | server/src/controllers/post.controller.js:414-479 | the handler's new store and reply are those of the deleteComment specification |
| PostController.DeleteCommentRemovesOnlyIt | server/src/controllers/post.controller.js:430-454 | a failure changes nothing; a success removes exactly the caller's comment with that id and keeps the others in order |
| PostController.EditPost | server/src/controllers/post.controller.js:485-553 | the handler's new store and reply are those of the editPost specification |
| PostController.EditPostOutcome | server/src/controllers/post.controller.js:510-531 | a non-author gets 403 before any content check; a failure changes nothing; a success stores the trimmed content and broadcasts postUpdated |
| PostController.DeletePost | server/src/controllers/post.controller.js:559-605 | the handler's new store and reply are those of the deletePost specification |
| PostController.DeletePostOutcome | server/src/controllers/post.controller.js:583-595 | only the author deletes; exactly that post goes; a reshare of it can no longer be saved |
| PostController.ResharePost | server/src/controllers/post.controller.js:611-697 | the handler's new store and reply are those of the resharePost specification, in which an original whose author's account is gone gives 500 before anything is stored |
| PostController.ResharePostOutcome | server/src/controllers/post.controller.js:617-685 | any failure changes nothing; a repeat reshare gives 400 before the existence check, a missing original 404, an original whose author's account is gone 500, one's own post 400; a success creates a post by the caller with sharedFrom, content and mediaUrl of the original and notifies its author |
| PostController.StoredContentIsTrimmed | server/src/models/Post.js:29-33 | stored post content is the trimmed content |
| PostController.ToggleSavePost | server/src/controllers/post.controller.js:703-776 | the handler's new store and reply are those of the toggleSavePost specification |
| PostController.ToggleSaveOutcome | server/src/controllers/post.controller.js:719-760 | a failure changes nothing; a success flips the caller's membership in savedBy, keeps every other user's, reports the new membership, broadcasts `postSaved` with the new array, leaves users, messages, notifications and every other post alone, and a second toggle restores who saved the post |
| PostController.StoreValidPut | server/src/models/Post.js:4-33 | storing a schema-valid, trimmed post keeps every stored post valid |
| PostController.TrimmedAppend | server/src/models/Post.js:11-16 | appending a trimmed comment keeps every string of the post trimmed |
| PostController.CreatingKeepsStoreValid | server/src/models/Post.js:4-33 | creating or resharing a post keeps every stored post schema-valid and trimmed |
| PostController.TogglingKeepsStoreValid | server/src/models/Post.js:4-33 | like and save toggles and post deletion keep every stored post schema-valid and trimmed |
| PostController.AddCommentKeepsStoreValid | server/src/models/Post.js:4-20 | adding a comment keeps every stored post schema-valid and trimmed |
| PostController.EditPostKeepsStoreValid | server/src/models/Post.js:29-33 | editing a post keeps every stored post schema-valid and trimmed |
| PostController.EditCommentKeepsStoreValid | server/src/models/Post.js:11-16 | editing a comment keeps every stored post schema-valid and trimmed |
| PostController.DeleteCommentKeepsStoreValid | server/src/models/Post.js:4-20 | deleting a comment keeps every stored post schema-valid and trimmed |
| MessageController.Conversation | server/src/controllers/message.controller.js:11-15 | the `$or` query keeps only messages between the two users, in either direction |
| MessageController.ConversationComplete | server/src/controllers/message.controller.js:11-15 | a message is in the conversation exactly when it is stored and goes between the two users |
| MessageController.GetMessagesWithUserSpec | server/src/controllers/message.controller.js:6-18 | the reply holds exactly the messages in either direction between caller and other user, each once, in ascending createdAt order |
| MessageController.SaveMessage | server/src/controllers/message.controller.js:28-111 | the handler's new store and reply are those of the saveMessage specification |
| MessageController.SaveMessageOutcome | server/src/controllers/message.controller.js:43-104 | a missing sender, receiver or content gives 400, as does isImage without imageUrl, both changing nothing; a success stores one unread message whose content is the imageUrl for an image, sends chatUpdate from the sender to the receiver and from the receiver to the sender, and notifies exactly when receiver and sender differ |
| MessageController.SaveMessageNoDedup | server/src/controllers/message.controller.js:56-65 | sending the same text twice at the same instant stores two messages: there is no duplicate suppression |
| MessageController.MarkRead | server/src/controllers/message.controller.js:117-120 | `updateMany` marks as read exactly the messages from the other user to the caller; every message keeps its position and all its other fields, and one already read stays read |
| MessageController.CountUnreadAppend | server/src/controllers/message.controller.js:117-121 | the count of unread messages grows by one exactly for an appended unread message between the pair |
| MessageController.CountUnreadNone | server/src/controllers/message.controller.js:117-121 | with no unread message between the pair the count is 0 |
| MessageController.MarkReadLeavesNoneUnread | server/src/controllers/message.controller.js:117-121 | after marking, no unread message from the other user to the caller remains, so an immediate second call reports 0 |
| MessageController.MarkMessagesAsRead | server/src/controllers/message.controller.js:114-126 | the handler reports the number of messages it changed and stores exactly the marked messages; an invalid id gives 500 and changes nothing |
| MessageController.CountUnreadPositive | server/src/controllers/message.controller.js:117-121 | the reported count is positive exactly when some unread message from the other user to the caller exists |
| MessageController.GetUnreadCounts | server/src/controllers/message.controller.js:129-158 | the loop's result maps a sender exactly when that sender has an unread message to the caller, to the number of such messages |
| NotificationController.ParseKind | server/src/models/Notification.js:10-14 | a parsed type is one of the schema's enum values and prints back as the given string |
| NotificationController.ParseKindName | server/src/models/Notification.js:10-14 | each of the five enum values parses to itself |
| NotificationController.CreateNotification | server/src/controllers/notification.controller.js:4-35 | the handler's new store and reply are those of the createNotification specification |
| NotificationController.CreateNotificationOutcome | server/src/controllers/notification.controller.js:6-29 | a success happens exactly when the recipient, type and post pass the schema; it records the caller as sender whatever the body says, stores an unread notification and emits it to the recipient's room; a failure gives 500 and changes nothing |
| NotificationController.AddressedTo | server/src/controllers/notification.controller.js:40 | the query keeps only notifications addressed to the caller |
| NotificationController.AddressedToComplete | server/src/controllers/notification.controller.js:40 | a notification is kept exactly when it is stored and addressed to the caller |
| NotificationController.GetNotificationsSpec | server/src/controllers/notification.controller.js:38-51 | the reply holds exactly the caller's notifications, each once, newest first |
| NotificationController.FindNotification | server/src/controllers/notification.controller.js:58 | `findById` finds the first notification with that id, or none when no notification has it |
| NotificationController.MarkAsRead | server/src/controllers/notification.controller.js:54-80 | the handler's new store and reply are those of the markAsRead specification |
| NotificationController.MarkAsReadOutcome | server/src/controllers/notification.controller.js:58-71 | an unknown id gives 404 and changes nothing; a success sets read on the caller's notification with that id and changes nothing else |
| NotificationController.MarkAsReadForbidden | server/src/controllers/notification.controller.js:62-66 | anyone but the recipient gets 403 and the read flag stays as it was |
| NotificationController.FindFirst | server/src/controllers/notification.controller.js:58 | the notification found is the first one with that id |
| NotificationController.MarkAsReadIdempotent | server/src/controllers/notification.controller.js:68-71 | after a success, marking the same notification again succeeds and changes nothing |
| UserModel.NormalizeEmailIdempotent | server/src/models/User.js:12-18 | the `lowercase` and `trim` setters give a value they leave unchanged, so a stored email is found by its own value |
| UserModel.FindByEmail | server/src/services/auth.service.js:96 | `User.findOne({email})` finds the first user whose stored email equals the normalised query, and finds none exactly when no stored email does |
| UserModel.FindOneByEmail | server/src/controllers/auth.controller.js:61 | the user `findOne` picks is a stored one; with an email it has that normalised email and nothing is found only when no user has it; a missing email (the condition is dropped) gives the first stored user, if there is one; a null email finds nobody |
| UserModel.NewUserSpec | server/src/models/User.js:5-35 | a new user is stored exactly when the name, email and password pass the schema and the email is not taken; it then holds the trimmed name, the normalised email, the provider and the hashed password |
| Passport.ProfileName | server/src/config/passport.js:28 | the new account's name is displayName, else username, else "Unnamed User", and never empty |
| Passport.FindLinked | server/src/config/passport.js:12 | finds a user linked to (provider, profile id), and finds none exactly when no user is |
| Passport.FindOrCreate | server/src/config/passport.js:8-34 | the method changes only the users, as the findOrCreate specification says |
| Passport.FindOrCreateLinkedWins | server/src/config/passport.js:12-13 | a user already linked to (provider, profile id) is returned unchanged and nothing is stored, even when the email belongs to another user |
| Passport.FindOrCreateRelinks | server/src/config/passport.js:16-23 | otherwise a user with the profile's email gets the provider and profile id written over its own and is returned; no account is added |
| Passport.FindOrCreateCreates | server/src/config/passport.js:26-33 | otherwise one user is appended with the fallback name, the provider, the profile id and no password; a schema failure stores nothing |
| Passport.FindOrCreateAtMostOne | server/src/config/passport.js:8-34 | each call adds at most one user and keeps every existing user's id and email |
| AuthService.SaveFailure | server/src/services/auth.service.js:30 | a failed save surfaces as a 500 error |
| AuthService.AuthenticateWithOAuth | server/src/services/auth.service.js:10-34 | the method changes only the users, as the authenticateWithOAuth specification says |
| AuthService.AuthenticateWithOAuthOutcome | server/src/services/auth.service.js:10-34 | a user with the profile's email is returned unchanged and nothing is stored; a profile without an email field gets the first stored user, or a schema failure when there is none; a null email stores nothing and fails the schema; otherwise a user with the provider and providerId = profile id is appended, with googleId = profile sub for Google and githubId = profile id for GitHub |
| AuthService.RegisterUser | server/src/services/auth.service.js:95-104 | the method changes only the users, as the registerUser specification says |
| AuthService.RegisterUserOutcome | server/src/services/auth.service.js:95-104 | a taken email gives 409 "Email already in use" and stores nothing; a success appends one local user with the normalised email and the hashed password and signs a token for it |
| AuthService.LoginUserOutcome | server/src/services/auth.service.js:107-115 | an unknown email and a wrong password both give 401 "Invalid credentials"; a login succeeds exactly when the first user with the email has a password bcrypt accepts, and returns that user's token |
| AuthService.RegisterThenLogin | server/src/services/auth.service.js:95-115 | logging in right after registering with the same password succeeds, given that bcrypt accepts a password against its own hash |
| AuthController.SessionCookie | server/src/controllers/auth.controller.js:9-15 | the session cookie is HTTP-only, lives 604800000 ms (7 days) and is secure exactly in production |
| AuthController.SessionReplies | server/src/controllers/auth.controller.js:20-39 | signup replies 201 with the new user and login 200 with a stored one, each with the normalised email and the accessToken cookie set to the token signed for that user with the 7-day HTTP-only options; a taken email gives 409 "Email already in use" and any failed login the one invalid-credentials error |
| AuthController.ForgotPassword | server/src/controllers/auth.controller.js:59-100 | the method changes only the users, as the forgotPassword specification says, for a missing, null or string email |
| AuthController.ForgotPasswordOutcome | server/src/controllers/auth.controller.js:59-100 | the reply is the same 200 message whether or not the email is registered; an unknown or null email changes nothing; a registered one stores sha256 of the raw token, never the raw token, with expiry now + 3600000 ms, and no other user changes; a body without an email stamps the first stored user, if any, and nobody else |
| AuthController.FindByResetToken | server/src/controllers/auth.controller.js:113-116 | finds the first user whose stored hash equals the presented hash and whose expiry is strictly later than now, and finds none exactly when no user qualifies |
| AuthController.ResetPassword | server/src/controllers/auth.controller.js:106-130 | the method changes only the users, as the resetPassword specification says |
| AuthController.ResetPasswordOutcome | server/src/controllers/auth.controller.js:110-129 | with no matching unexpired token the reply is 400 "Token is invalid or has expired." and nothing changes; a success (token matches and the new password passes the schema) sets the hashed password and clears token and expiry |
| AuthController.ResetAtExpiryFails | server/src/controllers/auth.controller.js:115 | a token whose expiry equals the current time no longer works |
| AuthController.ResetNotReusable | server/src/controllers/auth.controller.js:124-127 | after a successful reset the same token is refused at any later time |
| AuthController.ForgotAgainRevokesEarlierToken | server/src/controllers/auth.controller.js:72-77 | a second forgotPassword overwrites the stored hash, so the earlier token stops working |
| AuthController.ForgotThenReset | server/src/controllers/auth.controller.js:59-130 | a reset with the mailed token within the hour and a valid password succeeds |
| AuthMiddleware.FirstField | server/src/middleware/auth.middleware.js:13 | `split(" ")[1]` of the header is the text after "Bearer " up to the next space: a prefix with no space, followed by a space or the end |
| AuthMiddleware.TokenFrom | server/src/middleware/auth.middleware.js:9-14 | a chosen token is never empty |
| AuthMiddleware.TokenFromSpec | server/src/middleware/auth.middleware.js:9-18 | a non-empty accessToken cookie wins over the header; without it, a header not starting with "Bearer " gives no token, and so does a bare "Bearer " |
| AuthMiddleware.BearerTokenRoundTrip | server/src/middleware/auth.middleware.js:12-13 | "Bearer " + t gives back t, also when more space-separated fields follow |
| AuthMiddleware.FirstFieldOf | server/src/middleware/auth.middleware.js:13 | the first field of t followed by a space or nothing is t |
| AuthMiddleware.AuthenticateOutcome | server/src/middleware/auth.middleware.js:6-35 | no token gives 401 "Authentication token missing"; the request is authenticated exactly when the token verifies and its subject is a stored user, who is attached without the password; JsonWebTokenError and TokenExpiredError give 401 "Invalid or expired token" and any other error is passed on |
| ClientTypes.MapMatching | client/src/components/PostList.jsx:281-293 | `prev.map(post => post?._id === postId ? g(post) : post)`: same length, matching posts transformed and every other post kept; with no match the list comes back unchanged, and when `g` keeps ids every position keeps its id |
| PostList.PostCreatedOutcome | client/src/components/PostList.jsx:108-137 | a missing or invalid post changes nothing; a valid one is put at the front of both lists, keeps its id, author and content, keeps exactly its valid comments, and gets arrays for missing likes and savedBy; both lists are otherwise unchanged |
| PostList.WithCommentIdempotent | client/src/components/PostList.jsx:285-290 | adding a comment whose id is already present leaves the array alone, so adding twice equals adding once |
| PostList.UpdatePostsWithCommentIdempotent | client/src/components/PostList.jsx:275-309 | delivering the same commentAdded event twice has the effect of delivering it once |
| PostList.UpdatePostsWithCommentOutcome | client/src/components/PostList.jsx:275-309 | only the posts with the event's id change, and only in their comments; afterwards each holds the comment, a missing array becomes `[comment]`, and an array without that id gets it appended at the end |
| PostList.ReplaceComment | client/src/components/PostList.jsx:322-324 | same length and the same id at every position; each comment with the edited comment's id is replaced by it and the others are kept; the edited comment is present afterwards exactly when its id was, and an unknown id changes nothing |
| PostList.CommentEdited | client/src/components/PostList.jsx:154-160 | an event without a comment is ignored, leaving the feed unchanged |
| PostList.EditCommentInPostsOutcome | client/src/components/PostList.jsx:311-345 | in the matching posts the comments keep their count and order, with the edited one replaced, and a missing array becomes empty; other posts and fields are untouched |
| PostList.DeleteCommentInPostsOutcome | client/src/components/PostList.jsx:347-377 | in the matching posts exactly the comments with a different id remain; other posts are untouched |
| PostList.LikeUpdatedOutcome | client/src/components/PostList.jsx:170-184 | a falsy post id or a non-array likes is ignored; otherwise both lists keep their length and each matching post takes the new likes while every other post stays as it was |
| PostList.PostUpdatedOutcome | client/src/components/PostList.jsx:186-221 | a missing or invalid post changes nothing; otherwise both lists keep their length, posts with another id stay as they were, and the matching ones keep id, author, likes and comments while taking the event's content and media URL when those are non-empty and keeping their own otherwise |
| PostList.PostDeletedOutcome | client/src/components/PostList.jsx:223-231 | both lists keep exactly the posts with a different id, and are unchanged when no post has it |
| PostList.ResharePostOutcome | client/src/components/PostList.jsx:233-241 | a valid reshared post is put at the front of both lists and nothing else changes; a missing or invalid one is ignored |
| PostList.Search | client/src/components/PostList.jsx:506-528 | the full list is never changed; a blank query shows every post, any other query shows the fuzzy search's result |
| PostList.MapMatchingKeepsFeedValid | client/src/components/PostList.jsx:186-221 | an update that keeps each post's id and author keeps every post in the feed valid |
| PostList.CreatingKeepsFeedValid | client/src/components/PostList.jsx:108-137 | handlePostCreated and handleResharePost only ever add valid posts |
| PostList.CommentHandlersKeepFeedValid | client/src/components/PostList.jsx:139-168 | the three comment handlers keep every post valid |
| PostList.PostHandlersKeepFeedValid | client/src/components/PostList.jsx:170-241 | the like, update and delete handlers keep every post valid |
| PostList.SearchKeepsFeedValid | client/src/components/PostList.jsx:506-528 | a search whose results are drawn from the posts keeps the shown list valid |
| PostCard.IsLikedIff | client/src/components/PostCard.jsx:579-586 | the card shows the post as liked exactly when `likes` is an array and some entry names the user, an object through its `_id` and a raw value through itself |
| PostCard.AnyLikeIff | client/src/components/PostCard.jsx:580-585 | `likes.some(...)` holds exactly when some index holds a matching entry |
| PostCard.RawLikes | server/src/controllers/post.controller.js:185-189 | the server's likes reach the client as raw id strings, one per id, in order: every entry is raw, and an id is present exactly when the server's likes hold it |
| PostCard.ServerLikesShowToggle | client/src/components/PostCard.jsx:579-586 | on a server likes array the card's liked state is membership of the user's id, and after a toggle it is the opposite of what it was |
| PostCard.CommentWindow | client/src/components/PostCard.jsx:575-576 | expanded, every comment shows; collapsed, the last two (or all, when fewer) show in order, and "more comments" appears exactly when some comment is hidden |
| PostCard.SavedAfterSpec | client/src/components/PostCard.jsx:399-405 | after the optimistic save the user is in savedBy, after an unsave they are not; either way the other users' entries are kept, in order |
| PostCard.FilterAppend | client/src/components/PostCard.jsx:403-405 | filtering a concatenation filters each part |
| PostCard.FilterTwice | client/src/components/PostCard.jsx:403-405 | filtering twice with the same test is filtering once |
| PostCard.SaveRollbackRestores | client/src/components/PostCard.jsx:393-448 | the optimistic flip followed by the rollback of a failed request puts the user's membership back to the earlier isSaved and keeps the other users' entries |
| PostCard.FromServer | server/src/controllers/post.controller.js:185-189 | the toggleLike reply carries the new liked state and no requestId |
| PostCard.ServerLikeReplyDropped | client/src/components/PostCard.jsx:147-163 | a reply that echoes the request id would replace the likes, but the server's reply never does, so the card keeps its likes |
| PostCard.Card.constructor | client/src/components/PostCard.jsx:63-83 | the card starts from the post: missing likes, savedBy and comments become empty arrays, isSaved is membership of the user in savedBy, the editor holds the content, and nothing is in flight |
| PostCard.Card.StartLike | client/src/components/PostCard.jsx:116-120 | a like while one is in flight does nothing; otherwise the card becomes busy and remembers the new request id, with nothing else changed |
| PostCard.Card.FinishLike | client/src/components/PostCard.jsx:147-184 | the reply's likes are taken only when it echoes the request id (an array only); the card is then no longer busy and nothing else changes |
| PostCard.Card.StartSave | client/src/components/PostCard.jsx:393-409 | a save while one is in flight does nothing; otherwise isSaved flips and savedBy gains or loses the user at once |
| PostCard.Card.FinishSave | client/src/components/PostCard.jsx:413-448 | success takes the server's isSaved and savedBy (the old savedBy when none comes); failure restores isSaved and re-applies the old membership; the card is no longer saving |
| PostCard.Card.SaveEdit | client/src/components/PostCard.jsx:361-391 | blank content sends nothing and changes nothing; a success replaces likes and savedBy (empty when missing) and leaves edit mode; a failure changes nothing |
| PostCard.Card.OnLikeUpdated | client/src/components/PostCard.jsx:193-225 | a likeUpdated for this post sets its likes, keeping the old ones when the event's are not an array; other posts' events change nothing |
| PostCard.Card.OnPostSaved | client/src/components/PostCard.jsx:273-292 | only an event for this post and this user applies; it sets isSaved and the post's likes and savedBy |
| PostCard.Card.OnPostUpdated | client/src/components/PostCard.jsx:227-239 | an update of this post replaces likes, savedBy and comments, leaves edit mode and puts the new content in the editor; others are ignored |
| PostCard.Card.OnCommentsChanged | client/src/components/PostCard.jsx:248-271 | commentAdded and commentDeleted for this post replace the comments with the carried post's; other fields are unchanged |
| PostCard.Card.OnCommentEdited | client/src/components/PostCard.jsx:255-264 | commentEdited for this post replaces the comments and closes the comment editor when it was editing that comment |
| PostCard.LikeRoundTrip | client/src/components/PostCard.jsx:116-184 | a like against the real server leaves the card's likes as they were and the card ready for the next like |
| MyPosts.OnPostCreated | client/src/components/MyPosts.jsx:40-47 | the list grows by one exactly when the post is by the signed-in user, and then the post is at the front with the old list after it; otherwise nothing changes; a list of the user's own posts stays one |
| MyPosts.OnPostUpdatedOutcome | client/src/components/MyPosts.jsx:49-56 | only posts with the event's id change; with a post in the event such an entry becomes that post keeping only its two counters, without one it takes the event's content and updatedAt |
| MyPosts.OnPostDeletedOutcome | client/src/components/MyPosts.jsx:58-61 | exactly the posts with that id go, the rest stay; an unknown id changes nothing, and deleting twice is deleting once |
| MyPosts.OnLikeUpdatedOutcome | client/src/components/MyPosts.jsx:63-81 | only the matching posts change, and only in likes and likesCount, which take the event's values (missing ones included) |
| MyPosts.CountAfterDelete | client/src/components/MyPosts.jsx:125 | the comment count after a delete is never negative |
| MyPosts.CountAfterDeleteSpec | client/src/components/MyPosts.jsx:83-136 | a positive count goes down by one, a missing or zero count becomes 0, and a delete after an add gives back a non-negative count |
| MyPosts.CommentAddedTwice | client/src/components/MyPosts.jsx:83-99 | a commentAdded delivered twice appends two copies and counts two, since nothing checks for a copy |
| MyPosts.AddThenDeleteRestores | client/src/components/MyPosts.jsx:83-136 | adding a comment with a new id and then deleting it gives back the post's comments and its count, and other posts are untouched |
| MyPosts.OnCommentEditedOutcome | client/src/components/MyPosts.jsx:101-117 | only the comments with that id in the matching posts change, and only in their text; a post without comments keeps none |
| ChatEngine.ReceiveOutcome | client/src/components/chat/ChatEngine.jsx:49-66 | a message from or to the open chat's partner is appended once and never forwarded, and receiving it again changes nothing; any other message goes to the sidebar and leaves the list alone |
| ChatEngine.PopulatedSenderNotMatched | client/src/components/chat/ChatEngine.jsx:51-52 | `msg.sender === selectedUser._id` never holds for a populated sender, so the partner's own message to the user goes to the sidebar, while the same message with a raw sender id would join the chat |
| ChatEngine.SendMessageOutcome | client/src/components/chat/ChatEngine.jsx:115-131 | a send emits exactly when the content is not blank, both user ids are present and the socket is connected; it emits the trimmed text from the current user to the selected one, with the image flag and the sender's name |
| ChatEngine.Engine.constructor | client/src/components/chat/ChatEngine.jsx:10-14 | the hook starts with no chat open, no messages, nothing typing and nothing emitted |
| ChatEngine.Engine.Select | client/src/components/chat/ChatEngine.jsx:17-20 | choosing a user with both ids present clears the old conversation; otherwise the list stays |
| ChatEngine.Engine.HistoryLoaded | client/src/components/chat/ChatEngine.jsx:22-31 | a successful history fetch replaces the list, a failed one leaves it |
| ChatEngine.Engine.OnReceive | client/src/components/chat/ChatEngine.jsx:49-66 | the list and the forwarded message are exactly those of the receive specification, and nothing else changes |
| ChatEngine.Engine.OnPartnerTyping | client/src/components/chat/ChatEngine.jsx:68-80 | only the open chat's partner sets or clears the typing indicator |
| ChatEngine.Engine.Send | client/src/components/chat/ChatEngine.jsx:115-131 | the outbox grows by exactly the emit the send specification gives, and by nothing when it gives none |
| ChatEngine.Engine.TypingInput | client/src/components/chat/ChatEngine.jsx:134-153 | the first keystroke of a burst emits userTyping to the partner; later ones emit nothing; the typing flag is up and its timeout scheduled |
| ChatEngine.Engine.TypingTimeout | client/src/components/chat/ChatEngine.jsx:146-152 | the timeout emits userStopTyping once and lowers the typing flag |
| ChatEngine.TypingBurst | client/src/components/chat/ChatEngine.jsx:134-153 | any burst of keystrokes followed by the timeout emits exactly one userTyping and one userStopTyping |
| NotificationContext.OnNewOutcome | client/src/context/NotificationContext.jsx:22-30 | a message notification from the open chat's partner (or without a sender) is dropped; anything else becomes the newest entry and adds one to the unread counter |
| NotificationContext.NoActiveChatKeepsMessages | client/src/context/NotificationContext.jsx:27-30 | with no chat open, every notification with a sender is kept and counted |
| NotificationContext.OnMarkAsReadOutcome | client/src/context/NotificationContext.jsx:55-58 | markAsRead removes exactly the entries with that id and keeps the rest; the counter drops by one and never below zero |
| NotificationContext.CountId | client/src/context/NotificationContext.jsx:56 | the number of entries carrying an id is at most the list's length |
| NotificationContext.FilterIdLength | client/src/context/NotificationContext.jsx:56 | the filter removes exactly as many entries as carry the id |
| NotificationContext.MarkAsReadKeepsGap | client/src/context/NotificationContext.jsx:55-58 | reading an id held exactly once keeps the gap between the counter and the list's length |
| NotificationContext.MarkAsReadDrifts | client/src/context/NotificationContext.jsx:55-58 | reading an id not in the list still lowers the counter, and reading an id held twice removes two entries for one count, so the counter drifts from the list |
| NotificationContext.CountIdZero | client/src/context/NotificationContext.jsx:56 | an id counted zero times is carried by no entry |
| NotificationContext.Context.constructor | client/src/context/NotificationContext.jsx:12-14 | the store starts empty, with a zero counter and no open chat |
| NotificationContext.Context.OnNewNotification | client/src/context/NotificationContext.jsx:22-46 | the list and the counter become exactly those of the specification for a new notification |
| NotificationContext.Context.MarkAsRead | client/src/context/NotificationContext.jsx:55-58 | the list and the counter become exactly those of the markAsRead specification |
| NotificationContext.Context.SetActiveChat | client/src/components/ChatWindow.jsx:26-29 | opening or closing a chat records its partner and changes nothing else |
| NotificationContext.OpenChatSuppresses | client/src/context/NotificationContext.jsx:22-30 | while a chat is open its partner's message notification is dropped and a like notification still arrives and counts |
| ChatLayout.LowerIdempotent | client/src/components/ChatLayout.jsx:15 | lowercasing twice is lowercasing once |
| ChatLayout.IsImageUrlSpec | client/src/components/ChatLayout.jsx:12-23 | the empty string is never an image; the test ignores case; any listed extension at the end, "/image/" or "cloudinary" makes an image; an extension in the middle counts only with "http" somewhere |
| ChatLayout.NotContainedIn | client/src/components/ChatLayout.jsx:18-21 | a text missing the first character of a pattern does not contain the pattern |
| ChatLayout.OnReceiveOutcome | client/src/components/ChatLayout.jsx:67-81 | the preview is "[IMAGE]" exactly for an image message or a text that is itself "[IMAGE]"; it is stored under the receiver and under the sender's property name, and no other entry changes |
| ChatLayout.PopulatedSenderMissesPreview | client/src/components/ChatLayout.jsx:73-77 | a message with a populated sender is stored under "[object Object]", so the partner's own row keeps its old preview, where a raw sender id would update it |
| ChatLayout.AnyIdIs | client/src/components/ChatLayout.jsx:91 | `some(u => u?._id === id)` holds exactly when some entry has that id |
| ChatLayout.IsOnline | client/src/components/ChatLayout.jsx:89-92 | a user is online exactly when they have an id, the online list exists, and some entry has that id |
| ChatLayout.FilterUsersOutcome | client/src/components/ChatLayout.jsx:94-96 | the list keeps exactly the users with a name containing the search text, ignoring case; an empty search keeps every named user in order |
| ChatLayout.FilterSameKeep | client/src/components/ChatLayout.jsx:94-96 | two tests that agree everywhere filter alike |
| ChatLayout.SelectUser | client/src/components/ChatLayout.jsx:108-113 | a user without an id is ignored; any other is selected and the page goes to "/chat/" followed by that id |
| ChatLayout.SentMessageShowsInRow | client/src/components/ChatLayout.jsx:208-221 | after a message, the receiver's row shows "Image" for an image and the text otherwise |
| ChatSidebar.OnlineDotMatchesIsOnline | client/src/components/ChatSidebar.jsx:133 | for a user with an id the dot agrees with the page's isOnline; a user without an id gets a dot when some online entry also lacks one, where isOnline says no |
| ChatSidebar.EmptyTextWithoutSearch | client/src/components/ChatSidebar.jsx:23-25 | with an empty search and named users only, the message shows exactly when there are no users |
| ChatSidebar.SelectAgreesWithPage | client/src/components/ChatSidebar.jsx:35-42 | the sidebar and the chat page accept exactly the same users, and select the same one |
| ChatSidebar.SentImageShowsCamera | client/src/components/ChatSidebar.jsx:142-144 | an image the user sent shows as the camera and "Image" on the receiver's row |
| ChatWindow.ValidateImageSpec | client/src/components/ChatWindow.jsx:37-50 | a file passes exactly when it is a JPEG, PNG or GIF of at most 5 MiB; a wrong type is reported whatever the size; exactly 5 MiB passes and one byte more does not; WebP is refused |
| ChatWindow.ShowAsImageAgreesWithPreview | client/src/components/ChatWindow.jsx:132 | whatever renders as an image is previewed as "[IMAGE]", anything else is previewed as its content, and an unflagged message is an image only through its URL |
| ChatWindow.GroupedKeys | client/src/components/ChatWindow.jsx:93-107 | there is a bucket for exactly the days that occur |
| ChatWindow.GroupedBuckets | client/src/components/ChatWindow.jsx:93-107 | each bucket holds exactly that day's messages, in their original order |
| ChatWindow.NoneOnDay | client/src/components/ChatWindow.jsx:100-104 | messages none of which is on a day contribute nothing to that day's bucket |
| ChatWindow.DayOrderSpec | client/src/components/ChatWindow.jsx:120 | the days are listed once each, and exactly the days that have a bucket |
| ChatWindow.GroupMessagesByDate | client/src/components/ChatWindow.jsx:93-107 | a non-array gives no buckets; otherwise the loop builds exactly the day order and buckets above |
| ChatWindow.ShowAvatarSpec | client/src/components/ChatWindow.jsx:129-134 | with raw sender ids the avatar marks the first message of each run from one sender; with a populated sender on either side every message shows it; a change of sender always shows it |
| NotificationSidebar.PostIdOf | client/src/components/NotificationSidebar.jsx:37 | only a populated post object yields a post id |
| NotificationSidebar.Destination | client/src/components/NotificationSidebar.jsx:28-44 | a click ends in a navigation exactly when one of its effects is a navigation |
| NotificationSidebar.ClickOutcome | client/src/components/NotificationSidebar.jsx:10-48 | every click marks the notification read and closes the sidebar first; a message with a sender id stores and opens that chat; any other type with a post id opens the post; a missing id ends the click there |
| NotificationSidebar.SocketPostNotificationsDoNotNavigate | client/src/components/NotificationSidebar.jsx:35-43 | like and comment notifications carry no post and reshare ones a raw id, so clicking them only marks read and closes |
| NotificationSidebar.Label | client/src/components/NotificationSidebar.jsx:77-85 | the render throws exactly when the sender is missing; otherwise a message reads "New message from" and the sender's name after the speech balloon, and any other type reads the name, the type, then "ed your post" |
| Header.NextThemeCycle | client/src/components/Header.jsx:22-31 | the toggle cycles light, dark, system with period three and never stays put; any other stored value becomes light and joins the cycle |
| Header.LabelAndIconAgree | client/src/components/Header.jsx:33-42 | icon and label make the same three-way split (Moon with "Dark", Sun with "Light", Monitor with "System"), and "System" covers every value other than dark and light |
| HighlightMatch.Escape | client/src/utils/highlightMatch.js:5 | escaping never shortens the query |
| HighlightMatch.EscapeIsLiteral | client/src/utils/highlightMatch.js:5-6 | the escaped query leaves no regular-expression operator unescaped and stands for the query itself |
| HighlightMatch.PiecesSpec | client/src/utils/highlightMatch.js:6-8 | taking the inserted marks out gives back the text with its own casing, and every marked piece equals the query up to case |
| HighlightMatch.PlainPiecesDoNotMatch | client/src/utils/highlightMatch.js:6-8 | the global search leaves no match behind: no unmarked piece starts at a position where the query occurs up to case |
| HighlightMatch.RenderGrows | client/src/utils/highlightMatch.js:8 | the rendered text is never shorter than the text without marks, and strictly longer once some piece is marked |
| HighlightMatch.NoMarksNoMatch | client/src/utils/highlightMatch.js:6-8 | when nothing is marked, the query occurs nowhere in the text up to case |
| HighlightMatch.HighlightUnchangedIff | client/src/utils/highlightMatch.js:6-8 | for a non-empty query, the text comes back unchanged if and only if the query occurs nowhere in it up to case |
| HighlightMatch.NoMatchUnchanged | client/src/utils/highlightMatch.js:8 | a text with no case-insensitive occurrence of the query comes back unchanged |
| HighlightMatch.HighlightGuards | client/src/utils/highlightMatch.js:1-9 | a missing or empty text gives "", a missing or empty query gives the text back, and a query equal to the whole text up to case marks all of it |
| Settings.Field | client/src/pages/Settings.jsx:130-141 | a form field is present exactly when the form holds its key |
| Settings.ValidationErrorsSpec | client/src/pages/Settings.jsx:127-147 | each field's error appears exactly when its rule fails, with the right message, and no other key appears; the form is valid exactly when all four rules pass; two empty passwords pass |
| Settings.SettingsPage.constructor | client/src/pages/Settings.jsx:33-50 | the form starts from the user's name, username and email ("" when missing) with empty passwords; no errors; all five notification switches on |
| Settings.SettingsPage.LoadPreferences | client/src/pages/Settings.jsx:70-74 | the user's saved preferences, when present, replace the defaults; nothing else changes |
| Settings.SettingsPage.HandleChange | client/src/pages/Settings.jsx:101-114 | the field takes the value and its shown error is cleared to null; no other field or error changes |
| Settings.SettingsPage.HandleNotificationChange | client/src/pages/Settings.jsx:116-125 | the switch flips (a missing one becomes on) and the new preferences are sent at once |
| Settings.SettingsPage.Validate | client/src/pages/Settings.jsx:127-147 | the shown errors become exactly the validator's and the result says whether there are none; a valid form shows no errors |
| Settings.SettingsPage.HandleSubmit | client/src/pages/Settings.jsx:149-169 | the shown errors become the validator's; a valid form sends its name, email and username, an invalid one sends nothing |
| Settings.SettingsPage.HandlePasswordChange | client/src/pages/Settings.jsx:171-211 | an invalid form shows the validator's errors and sends nothing; an empty current password shows its error over the errors from before validating and sends nothing; otherwise the change is sent, and a success empties the three password fields and clears the errors, an "incorrect" failure shows that error over the old errors, and any other failure clears them |
| Settings.FlipTwice | client/src/pages/Settings.jsx:116-125 | flipping a switch twice restores every preference, after sending the flipped and then the restored set |
| Profile.WebsiteHref | client/src/pages/Profile.jsx:273-277 | the website link always starts with "http": kept when it does, otherwise "https://" is put in front |
| Profile.WordPrefix | client/src/pages/Profile.jsx:282 | `^\w+` matches the longest leading run of word characters |
| Profile.WebsiteDisplaySuffix | client/src/pages/Profile.jsx:282 | the displayed website is a suffix of the stored one |
| Profile.WordPrefixConcat | client/src/pages/Profile.jsx:282 | the word run of a word followed by a non-word character is that word |
| Profile.WebsiteDisplayOfHref | client/src/pages/Profile.jsx:273-282 | displaying "https://" + w gives back w, so an address that needed the prefix is shown as entered |
| Profile.WebsiteDisplayPlain | client/src/pages/Profile.jsx:282 | a scheme-less "//" is dropped, and an address with neither a scheme nor leading slashes is shown as stored |
| Profile.SocialHref | client/src/pages/Profile.jsx:316-320 | a handle starting with "http" is kept; any other is appended to the site's profile prefix |
| Profile.NoLinksNoteSpec | client/src/pages/Profile.jsx:309-406 | "No social links added yet." shows exactly when no link shows; at most three show, and a bare GitHub handle links under "https://github.com/" as the last one |
| Profile.AvatarLetter | client/src/pages/Profile.jsx:177 | the avatar letter exists exactly for a non-empty name; it is never an ASCII small letter and equals the name's first character up to case |
| EditProfile.Lookup | client/src/pages/EditProfile.jsx:66 | a property is found exactly when the object holds its key |
| EditProfile.Put | client/src/pages/EditProfile.jsx:69-72 | after `{...f, [k]: v}` the key holds v, every other key keeps its value, and a new key goes last |
| EditProfile.InitFormShaped | client/src/pages/EditProfile.jsx:47-62 | the initial form is the filled shape with each missing field and link as "" |
| EditProfile.ChangeRouting | client/src/pages/EditProfile.jsx:64-74 | a link name updates only socialLinks and within it only that link; any other name updates or appends that top-level field only |
| EditProfile.ChangeBeforeFill | client/src/pages/EditProfile.jsx:41-74 | an edit before the form is filled throws, so the empty form stays empty |
| EditProfile.PutAt | client/src/pages/EditProfile.jsx:69-72 | putting a key present at index i replaces that entry in place |
| EditProfile.LookupAt | client/src/pages/EditProfile.jsx:66 | the first entry with a key is what a lookup finds |
| EditProfile.ChangeLinkInShape | client/src/pages/EditProfile.jsx:66-70 | on a filled form, a link edit replaces that link inside socialLinks and nothing else |
| EditProfile.ChangeFieldInShape | client/src/pages/EditProfile.jsx:71-72 | on a filled form, a field edit replaces that field in place and nothing else |
| EditProfile.ChangeKeepsShape | client/src/pages/EditProfile.jsx:64-74 | editing any of the seven inputs keeps the form filled, with just that value changed |
| EditProfile.Decimal | client/src/pages/EditProfile.jsx:94 | an index written as a property name is never empty |
| EditProfile.ShapedFormParts | client/src/pages/EditProfile.jsx:91-100 | a filled form is sent as exactly seven text parts: name, bio, location, website, then socialLinks[twitter], [linkedin] and [github], each with its value |
| EditProfile.ShapedReadsBack | client/src/pages/EditProfile.jsx:49-59 | a filled form has the keys name, bio, location, website, socialLinks in that order, each field reads back as its value, and socialLinks reads back twitter, linkedin and github with theirs |
| EditProfile.EditProfilePage.constructor | client/src/pages/EditProfile.jsx:41-43 | the page starts with an empty form and no files |
| EditProfile.EditProfilePage.Init | client/src/pages/EditProfile.jsx:47-62 | a signed-in user fills the form; without one it stays; files are untouched |
| EditProfile.EditProfilePage.HandleChange | client/src/pages/EditProfile.jsx:64-74 | the form becomes the edit specification's result, and the files are untouched |
| EditProfile.EditProfilePage.HandleFileChange | client/src/pages/EditProfile.jsx:76-80 | "profile" sets the picture, "banner" sets the banner, anything else changes nothing |
| EditProfile.EditProfilePage.RemoveFile | client/src/pages/EditProfile.jsx:82-85 | "profile" clears the picture, "banner" clears the banner, and the form is untouched |
| EditProfile.EditProfilePage.Submit | client/src/pages/EditProfile.jsx:87-102 | the loops send exactly the form's parts in insertion order, socialLinks flattened, followed by the chosen files |
| ViewProfile.ChangeKeepsLinks | client/src/pages/ViewProfile.jsx:43-53 | an edit keeps a socialLinks entry present, so the form stays sendable, and an edit of any other name keeps it an object |
| ViewProfile.ChangeAgrees | client/src/pages/ViewProfile.jsx:43-53 | on a filled form an edit of any input changes just that value, exactly as the edit page's handler does |
| ViewProfile.ShapedTextParts | client/src/pages/ViewProfile.jsx:65-72 | a filled form is sent as the same seven text parts the edit page sends |
| ViewProfile.Applied | client/src/pages/ViewProfile.jsx:43-53 | a run of edits leaves seven values |
| ViewProfile.BothPagesSendTheSame | client/src/pages/ViewProfile.jsx:43-74 | from a filled form, any run of edits leaves both pages holding the same form, and both send the same parts |
| ViewProfile.ViewProfilePage.constructor | client/src/pages/ViewProfile.jsx:12-24 | the page starts with the empty filled form and no files |
| ViewProfile.ViewProfilePage.Init | client/src/pages/ViewProfile.jsx:27-41 | a signed-in user fills the form; without one it stays |
| ViewProfile.ViewProfilePage.HandleChange | client/src/pages/ViewProfile.jsx:43-53 | the form becomes the page's edit specification's result, and the files are untouched |
| ViewProfile.ViewProfilePage.HandleFileChange | client/src/pages/ViewProfile.jsx:55-59 | "profile" sets the picture, "banner" sets the banner, anything else changes nothing |
| ViewProfile.ViewProfilePage.Submit | client/src/pages/ViewProfile.jsx:61-74 | a form whose socialLinks is missing throws and sends nothing; otherwise the seven text parts are sent, followed by the chosen files |
| Common.TrimStartSpec | server/src/controllers/post.controller.js:254 | trimming the start removes exactly the leading white space: the result is a suffix that does not start with white space, and what went is all white space |
| Common.TrimEndSpec | server/src/controllers/post.controller.js:254 | trimming the end removes exactly the trailing white space |
| Common.TrimSpec | server/src/controllers/post.controller.js:271 | `trim()` is never longer than its input and neither starts nor ends with white space |
| Common.TrimEmptyIffBlank | server/src/controllers/post.controller.js:254 | `!text.trim()` holds exactly for a text made only of white space |
| Common.TrimIdempotent | server/src/controllers/post.controller.js:271 | trimming twice is trimming once |
| Common.LowerChar | client/src/components/ChatLayout.jsx:15 | the result is never an ASCII capital; a capital becomes a small letter, and any other character is kept |
| Common.UpperChar | client/src/pages/Profile.jsx:177 | the result is never an ASCII small letter; any other character is kept, and the result equals the character up to case |
| Common.LowerSpec | client/src/components/ChatLayout.jsx:15 | `toLowerCase()` leaves no ASCII capital in the text, and gives back unchanged a text that has none |
| Common.Utf16Length | server/src/models/Post.js:15-16 | a string's `length` counts UTF-16 units: it lies between the number of characters and twice that, is zero only for the empty string, and equals the number of characters when none is beyond U+FFFF |
| Common.EndsWithContains | client/src/components/ChatLayout.jsx:17-21 | a text that ends with a pattern contains it |
| Common.RemoveAll | server/src/controllers/post.controller.js:159 | `$pull` leaves no copy of the value, keeps every other element and adds nothing |
| Common.RemoveAllAbsent | server/src/controllers/post.controller.js:159 | pulling a value that is not there changes nothing |
| Common.RemoveAllAppend | server/src/controllers/post.controller.js:159 | pulling from a concatenation pulls from each part |
| Common.Filter | client/src/components/PostList.jsx:229 | `filter` keeps exactly the elements that pass, never grows, and keeps a list whose elements all pass |
| Common.FilterAppendOne | client/src/components/MyPosts.jsx:125 | filtering a list with one more element at the end adds that element exactly when it passes |
| Common.AddToSet | server/src/controllers/post.controller.js:160 | `$addToSet` leaves the value present, adds nothing but the value, keeps the old list as a prefix and grows by at most one; a list without duplicates stays without duplicates |
| Common.InsertByKeys | server/src/controllers/message.controller.js:16 | inserting keeps a lower bound on the keys |
| Common.InsertBySorted | server/src/controllers/message.controller.js:16 | inserting into a sorted list keeps it sorted |
| Common.InsertByElements | server/src/controllers/message.controller.js:16 | inserting adds exactly that element |
| Common.SortBySpec | server/src/controllers/message.controller.js:16 | `.sort({createdAt: 1})` returns the same elements in ascending order of the key |

## Left out

- Socket.IO transport, rooms and presence tracking: the server never creates the `io` instance in the files modelled here. Each emit is modelled as an entry appended to the event log, and each client listener as a method or reducer called with the event's payload.
- Client socket plumbing (SocketContext, SidebarOnlineUsers, UserStatus, SidebarMessageUsers): these only set up connections or project one field.
- Database machinery (Mongoose persistence, `populate`, `.lean()`, aggregation, ObjectId parsing): the store is an in-memory snapshot. `isValidObjectId` is an uninterpreted predicate, and fresh ids are parameters that must be unused.
- Concurrency and transactions: only single requests, one after another, are modelled. No atomicity is claimed for the like toggle, which reads the post and then updates it in a separate step.
- bcrypt, JWT signing and verification, `crypto.randomBytes` and sha256: these are uninterpreted function parameters. The model relies only on hashing being a function.
- Sending email (nodemailer): only whether sending succeeded is a parameter.
- The Google and GitHub HTTP token exchanges in auth.service.js: the profile they return is a parameter.
- The Facebook strategy in passport.js is not modelled. Its `findOrCreate` is the same function the Google and GitHub strategies use, and that function is modelled.
- Wall-clock time: `Date.now()` is an integer-millisecond parameter. Date parsing and formatting (date-fns) become a function parameter that gives each message its day key.
- Fuse.js fuzzy search: for a non-blank query, the search is a function parameter applied to the feed.
- Joi request validation and validate.middleware.js: their email-format semantics belong to the library. Handlers are modelled from the body they receive.
- Image upload through Cloudinary and multer: a chosen file is modelled only by its MIME type and size.
- The post routes import `getFeed` and `likePost`, which the post controller does not export. This is wiring and is not modelled; the controller's handlers are.
- `createPost` is modelled as its guard and the stored post. Its `scheduledAt` field is not modelled: no code acts on it.
- React rendering, animation, styling, i18n text lookup, toasts and notification sounds are not modelled. Error and label texts are modelled as codes or literal strings.
- localStorage and DOM side effects are not modelled. This covers Settings' dark mode, font size and active sessions, and the persistence of ChatLayout's previews.
- AuthContext, ThemeContext and the axios instance are not modelled; they are configuration.
- ChatPage passes `onSelectUser` where ChatSidebar expects `setSelectedUser`. Selection is modelled through ChatLayout's wiring, which passes the setter.
- Case-insensitive matching uses ASCII case mapping. Unicode case folding is not modelled.
- `null` entries inside client arrays are not modelled. `JsArray.Absent` covers a field that is `undefined` or `null`. `ChatSidebar`'s `onlineUsers` defaults to `[]` when undefined; a `null` there would throw, and that case is not modelled.
- Properties inherited from `Object.prototype` are not modelled: a key lookup with `in` sees only the object's own keys.
- `savedBy` entries are raw ids on the server and id-or-object on the client.
- ChatEngine re-registers its socket listeners whenever the selected chat changes (`useCallback` dependencies). Each event is delivered with the current selection; an event that reaches a listener from before the change is not modelled.
- Inputs and documents are limited to the fields the modelled handlers read or write.
- Common.Trim, Common.TrimStart and Common.TrimEnd carry no ensures of their own. What they guarantee is stated by separate lemmas about them, which keeps every proof that uses them small.
- PostModel.SaveCheck carries no ensures of its own. Its outcome is stated by lemmas about the handlers that save.
- PostCard.Card.constructor requires the post to have a string id. The feed renders only posts that passed `validatePost`.
- ChatEngine.Engine.TypingInput and ChatEngine.Engine.TypingTimeout require an open chat and a signed-in user. The source registers the typing handler only in that state.
- MyPosts.Updated spreads the event's post over the old one. The model takes that post as carrying every field it models, so a field the event omits is cleared rather than kept; absent and `null` fields are treated alike.
- AuthController: the 500 replies carry fixed texts ("Email could not be sent", "The data argument must be of type string", "User validation failed") where the source replies with the thrown error's `err.message`. The actual wording comes from nodemailer, Node or Mongoose and is not modelled; the status and the failing step are.
- MyPosts.OnCommentAdded: only an event that carries a comment is modelled. The server's `commentAdded` carries none (`PostController.AddCommentAppends`); the source then appends `undefined` to the post's comments, raises `commentsCount` by one, and throws at `comment._id` in its log line. The client's comment arrays hold comment objects only, so that path is not modelled, and MyPosts.CommentAddedTwice and MyPosts.AddThenDeleteRestores speak of events with a comment.
- NotificationContext: the toast for a non-message notification without a sender throws. The notification is still added, because the state updates were queued before the toast ran.
