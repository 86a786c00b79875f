/** The post handlers of server/src/controllers/post.controller.js. Each handler is a
    specification function from the old store snapshot to the new snapshot and the
    HTTP reply, and a method that changes the store step by step in the order the
    handler does and is proved to agree with that function. Ids the database would
    mint (a new post, comment or notification) and the clock are parameters. */
module PostController {
  import opened Common
  import opened PostModel
  import opened ServerStore
  import PostService

  /** The payload of a successful reply. */
  datatype Reply =
    | Liked(isLiked: bool, likes: seq<UserId>)
    | CommentReply(comment: Option<Comment>)
    | PostReply(postId: PostId)
    | Saved(isSaved: bool)
    | Done

  const UnauthorizedMessage := "Unauthorized: Invalid or missing user"
  /** The TypeError text of reading `_id` of a populated author that is `null`. */
  const NullAuthorMessage := "Cannot read properties of null (reading '_id')"
  /** A like notification is suppressed when an identical one is younger than this many milliseconds. */
  const LikeDebounceMs: int := 1000

  /** Records a notification and emits `newNotification` to the recipient's room. */
  function Notify(s: Snapshot, nid: NotificationId, recipient: UserId, sender: UserId,
                  kind: NotificationKind, post: PostId, now: int): Snapshot
  {
    s.(notifications := s.notifications + [Notification(nid, recipient, sender, kind, Some(post), false, now)],
       log := s.log + [ToRoom(recipient, NewNotification(nid, kind, sender))])
  }

  /** The `Notification.findOne` query of toggleLike: a like notification for the
      same recipient, sender and post created at or after `now - 1000`. */
  predicate RecentLikeNotification(ns: seq<Notification>, recipient: UserId, sender: UserId, post: PostId, now: int)
  {
    exists i :: 0 <= i < |ns| && LikeWithin(ns[i], recipient, sender, post, now)
  }

  predicate LikeWithin(n: Notification, recipient: UserId, sender: UserId, post: PostId, now: int)
  {
    && n.recipient == recipient && n.sender == sender && n.kind == LikeKind
    && n.post == Some(post) && n.createdAt >= now - LikeDebounceMs
  }

  /** The `likes` array after `$pull` (when present) or `$addToSet` (when absent). */
  function LikesAfterToggle(likes: seq<UserId>, u: UserId): seq<UserId>
  {
    if u in likes then RemoveAll(likes, u) else AddToSet(likes, u)
  }

  // ---------------------------------------------------------------- createPost

  function CreatePostSpec(isValidId: string -> bool, s: Snapshot, caller: Caller,
                          content: Option<string>, file: Option<string>, newId: PostId)
    : (Snapshot, Response<Reply>)
    requires newId !in s.posts
  {
    if Unauthorized(isValidId, caller) then (s, Failure(401, UnauthorizedMessage))
    else if OrElse(content, "") == "" && OrElse(file, "") == "" then
      (s, Failure(400, "Post must have content or media"))
    else
      var p := Post(caller.id, SetTrimmed(content), file, [], [], None, []);
      if SaveCheck(s.posts, p).Some? then (s, Failure(500, "Failed to create post"))
      else
        (s.(posts := s.posts[newId := p], log := s.log + [ToAll(PostCreated(newId, caller.id, false))]),
         Success(201, PostReply(newId)))
  }

  method CreatePost(db: Db, caller: Caller, content: Option<string>, file: Option<string>, newId: PostId)
    returns (r: Response<Reply>)
    requires newId !in db.posts
    modifies db
    ensures (db.State(), r) == CreatePostSpec(db.isValidId, old(db.State()), caller, content, file, newId)
  {
    if Unauthorized(db.isValidId, caller) {
      return Failure(401, UnauthorizedMessage);
    }
    var mediaUrl := file;
    if OrElse(content, "") == "" && OrElse(mediaUrl, "") == "" {
      return Failure(400, "Post must have content or media");
    }
    var post := Post(caller.id, SetTrimmed(content), mediaUrl, [], [], None, []);
    if SaveCheck(db.posts, post).Some? {
      return Failure(500, "Failed to create post");
    }
    db.posts := db.posts[newId := post];
    db.log := db.log + [ToAll(PostCreated(newId, caller.id, false))];
    r := Success(201, PostReply(newId));
  }

  /** createPost stores exactly one new post, authored by the caller, holding the
      trimmed content, no likes, comments or saves, and not a reshare. Whitespace-only
      content passes the guard and is stored as the empty string. */
  lemma CreatePostStores(isValidId: string -> bool, s: Snapshot, caller: Caller,
                         content: Option<string>, file: Option<string>, newId: PostId)
    requires newId !in s.posts
    ensures var (s', r) := CreatePostSpec(isValidId, s, caller, content, file, newId);
      && (r.Success? ==>
            && s'.posts.Keys == s.posts.Keys + {newId}
            && s'.posts[newId].author == caller.id
            && s'.posts[newId].likes == [] && s'.posts[newId].comments == [] && s'.posts[newId].savedBy == []
            && s'.posts[newId].sharedFrom.None?
            && (content.Some? ==> s'.posts[newId].content == Some(Trim(content.value))))
      && (r.Failure? ==> s' == s)
      && ((!Unauthorized(isValidId, caller) && content.Some? && content.value != "" && IsBlank(content.value))
            ==> r.Success? && s'.posts[newId].content == Some(""))
  {
    if !Unauthorized(isValidId, caller) && content.Some? && content.value != "" && IsBlank(content.value) {
      TrimEmptyIffBlank(content.value);
    }
  }

  // ---------------------------------------------------------------- toggleLike

  function ToggleLikeSpec(isValidId: string -> bool, s: Snapshot, postId: PostId, caller: Caller,
                          now: int, nid: NotificationId): (Snapshot, Response<Reply>)
  {
    if !isValidId(postId) then (s, Failure(500, "Error toggling like"))
    else if postId !in s.posts then (s, Failure(404, "Post not found"))
    else
      var post := s.posts[postId];
      var wasLiked := caller.id in post.likes;
      var likes := LikesAfterToggle(post.likes, caller.id);
      var s1 := s.(posts := s.posts[postId := post.(likes := likes)],
                   log := s.log + [ToAll(LikeUpdated(postId, caller.id, !wasLiked, likes))]);
      // `post.author._id` throws on an author whose account is gone; the 200 and
      // `likeUpdated` have already been sent, and no notification is created.
      var s2 :=
        if !wasLiked && UserById(s.users, post.author).Some? && post.author != caller.id
           && !RecentLikeNotification(s.notifications, post.author, caller.id, postId, now)
        then Notify(s1, nid, post.author, caller.id, LikeKind, postId, now)
        else s1;
      (s2, Success(200, Liked(!wasLiked, likes)))
  }

  method ToggleLike(db: Db, postId: PostId, caller: Caller, now: int, nid: NotificationId)
    returns (r: Response<Reply>)
    modifies db
    ensures (db.State(), r) == ToggleLikeSpec(db.isValidId, old(db.State()), postId, caller, now, nid)
  {
    if !db.isValidId(postId) {
      return Failure(500, "Error toggling like");
    }
    if postId !in db.posts {
      return Failure(404, "Post not found");
    }
    var post := db.posts[postId];
    var isLiked := caller.id in post.likes;
    var likes := if isLiked then RemoveAll(post.likes, caller.id) else AddToSet(post.likes, caller.id);
    db.posts := db.posts[postId := post.(likes := likes)];
    r := Success(200, Liked(!isLiked, likes));
    db.log := db.log + [ToAll(LikeUpdated(postId, caller.id, !isLiked, likes))];
    if !isLiked && UserById(db.users, post.author).Some? && post.author != caller.id {
      var recent := RecentLikeNotification(db.notifications, post.author, caller.id, postId, now);
      if !recent {
        db.notifications := db.notifications
          + [Notification(nid, post.author, caller.id, LikeKind, Some(postId), false, now)];
        db.log := db.log + [ToRoom(post.author, NewNotification(nid, LikeKind, caller.id))];
      }
    }
  }

  /** An unknown post gives 404 and changes nothing. Otherwise the caller is removed
      from likes when present (every copy) and added when absent, the reply's isLiked
      is the negation of the prior membership and carries the updated array, and no
      other post and no other field of the post changes. */
  lemma ToggleLikeOutcome(isValidId: string -> bool, s: Snapshot, postId: PostId, caller: Caller,
                          now: int, nid: NotificationId)
    ensures var (s', r) := ToggleLikeSpec(isValidId, s, postId, caller, now, nid);
      && (isValidId(postId) && postId !in s.posts ==> s' == s && r == Failure(404, "Post not found"))
      && (r.Success? ==>
            var was := s.posts[postId].likes;
            && postId in s.posts && s'.posts.Keys == s.posts.Keys
            && r.value == Liked(caller.id !in was, s'.posts[postId].likes)
            && (caller.id in s'.posts[postId].likes <==> caller.id !in was)
            && (forall v :: v != caller.id ==> (v in s'.posts[postId].likes <==> v in was))
            && s'.posts[postId].(likes := was) == s.posts[postId]
            && (forall q :: q in s.posts && q != postId ==> s'.posts[q] == s.posts[q])
            && s'.users == s.users && s'.messages == s.messages)
  {
  }

  /** A like notification is recorded exactly when the toggle was a like, the
      author's account still exists, the liker is not the author, and no like
      notification for the same recipient, sender and post was created within the
      last 1000 ms. A like on a post whose author is gone still succeeds but sends
      nothing to anyone. */
  lemma ToggleLikeNotifies(isValidId: string -> bool, s: Snapshot, postId: PostId, caller: Caller,
                           now: int, nid: NotificationId)
    requires isValidId(postId) && postId in s.posts
    ensures var (s', _) := ToggleLikeSpec(isValidId, s, postId, caller, now, nid);
      var author := s.posts[postId].author;
      var due := && caller.id !in s.posts[postId].likes
                 && UserById(s.users, author).Some?
                 && author != caller.id
                 && !(exists i :: 0 <= i < |s.notifications| && LikeWithin(s.notifications[i], author, caller.id, postId, now));
      && (due ==> s'.notifications == s.notifications + [Notification(nid, author, caller.id, LikeKind, Some(postId), false, now)])
      && (!due ==> s'.notifications == s.notifications)
      && (UserById(s.users, author).None? ==> s'.log == s.log + [ToAll(LikeUpdated(postId, caller.id,
            caller.id !in s.posts[postId].likes, s'.posts[postId].likes))])
  {
  }

  /** The controller's `$pull`/`$addToSet` pair computes the same array as the
      service's filter/push. */
  lemma {:induction false} ControllerToggleMatchesService(likes: seq<UserId>, u: UserId)
    ensures LikesAfterToggle(likes, u) == PostService.ToggledLikes(likes, u)
  {
  }

  // ---------------------------------------------------------------- addComment

  /** `updatedPost.comments.find(c => c.text === text && c.user.toString() === id)`
      after `populate("comments.user")`. A populated user document prints as its
      fields, never as its bare id, so no comment matches and `find` yields undefined.
      A comment with that text whose user no longer exists is populated as `null`, and
      `null.toString()` throws: the result is the position of the first such comment,
      where the scan stops with an error. */
  function NullUserCommentAt(users: seq<User>, cs: seq<Comment>, text: string): (r: Option<nat>)
    ensures r.Some? ==> r.value < |cs| && cs[r.value].text == text && UserById(users, cs[r.value].user).None?
    ensures r.Some? ==> forall i :: 0 <= i < r.value ==> !(cs[i].text == text && UserById(users, cs[i].user).None?)
    ensures r.None? ==> forall i :: 0 <= i < |cs| ==> !(cs[i].text == text && UserById(users, cs[i].user).None?)
  {
    if cs == [] then None
    else if cs[0].text == text && UserById(users, cs[0].user).None? then Some(0)
    else match NullUserCommentAt(users, cs[1..], text)
      case None => None
      case Some(k) => Some(k + 1)
  }

  function AddCommentSpec(isValidId: string -> bool, s: Snapshot, postId: PostId, caller: Caller,
                          text: Option<string>, cid: CommentId, now: int, nid: NotificationId)
    : (Snapshot, Response<Reply>)
  {
    if !isValidId(postId) then (s, Failure(400, "Invalid post ID"))
    else if Unauthorized(isValidId, caller) then (s, Failure(401, UnauthorizedMessage))
    else if text.None? || Trim(text.value) == "" then (s, Failure(400, "Comment text is required"))
    else if postId !in s.posts then (s, Failure(404, "Post not found"))
    else
      var post := s.posts[postId];
      var post' := post.(comments := post.comments + [Comment(cid, caller.id, Trim(text.value))]);
      if SaveCheck(s.posts, post').Some? then (s, Failure(500, "Failed to add comment"))
      else
        var saved := s.(posts := s.posts[postId := post']);
        if NullUserCommentAt(s.users, post'.comments, Trim(text.value)).Some? then
          (saved, Failure(500, "Failed to add comment"))
        else
          var s1 := saved.(log := s.log + [ToAll(CommentAdded(postId, None))]);
          var s2 :=
            if post.author != caller.id && UserById(s.users, caller.id).Some?
            then Notify(s1, nid, post.author, caller.id, CommentKind, postId, now)
            else s1;
          (s2, Success(201, CommentReply(None)))
  }

  method AddComment(db: Db, postId: PostId, caller: Caller, text: Option<string>,
                    cid: CommentId, now: int, nid: NotificationId)
    returns (r: Response<Reply>)
    modifies db
    ensures (db.State(), r) == AddCommentSpec(db.isValidId, old(db.State()), postId, caller, text, cid, now, nid)
  {
    if !db.isValidId(postId) {
      return Failure(400, "Invalid post ID");
    }
    if Unauthorized(db.isValidId, caller) {
      return Failure(401, UnauthorizedMessage);
    }
    if text.None? || Trim(text.value) == "" {
      return Failure(400, "Comment text is required");
    }
    if postId !in db.posts {
      return Failure(404, "Post not found");
    }
    var post := db.posts[postId];
    var newComment := Comment(cid, caller.id, Trim(text.value));
    var updated := post.(comments := post.comments + [newComment]);
    if SaveCheck(db.posts, updated).Some? {
      return Failure(500, "Failed to add comment");
    }
    db.posts := db.posts[postId := updated];
    if NullUserCommentAt(db.users, updated.comments, newComment.text).Some? {
      return Failure(500, "Failed to add comment");
    }
    var added: Option<Comment> := None;
    db.log := db.log + [ToAll(CommentAdded(postId, added))];
    if post.author != caller.id {
      var user := UserById(db.users, caller.id);
      if user.Some? {
        db.notifications := db.notifications
          + [Notification(nid, post.author, caller.id, CommentKind, Some(postId), false, now)];
        db.log := db.log + [ToRoom(post.author, NewNotification(nid, CommentKind, caller.id))];
      }
    }
    r := Success(201, CommentReply(added));
  }

  /** The error order of addComment: 400 for a malformed post id, 401 for a missing
      user, 400 for missing or whitespace-only text, 404 for an unknown post; none of
      them changes the store. No failure broadcasts or notifies; only the 500 raised
      after the save leaves the new comment stored. */
  lemma AddCommentRejects(isValidId: string -> bool, s: Snapshot, postId: PostId, caller: Caller,
                          text: Option<string>, cid: CommentId, now: int, nid: NotificationId)
    ensures var (s', r) := AddCommentSpec(isValidId, s, postId, caller, text, cid, now, nid);
      && (r.Failure? ==> s'.log == s.log && s'.notifications == s.notifications && s'.users == s.users)
      && (r.Failure? && r.status != 500 ==> s' == s)
      && (!isValidId(postId) ==> r.status == 400)
      && (isValidId(postId) && Unauthorized(isValidId, caller) ==> r.status == 401)
      && ((isValidId(postId) && !Unauthorized(isValidId, caller) && (text.None? || IsBlank(text.value)))
            ==> r == Failure(400, "Comment text is required"))
      && ((isValidId(postId) && !Unauthorized(isValidId, caller) && text.Some? && !IsBlank(text.value)
           && postId !in s.posts) ==> r == Failure(404, "Post not found"))
  {
    if text.Some? {
      TrimEmptyIffBlank(text.value);
    }
  }

  /** Whenever addComment stores anything, it has appended exactly one comment, the
      trimmed text by the caller, to that post and touched no other post. It then
      fails with 500, the comment already saved and nothing broadcast, exactly when a
      comment on the post with that text belongs to a user that no longer exists;
      otherwise it replies 201, and neither the reply nor the broadcast carries the
      comment. */
  lemma AddCommentAppends(isValidId: string -> bool, s: Snapshot, postId: PostId, caller: Caller,
                          text: Option<string>, cid: CommentId, now: int, nid: NotificationId)
    ensures var (s', r) := AddCommentSpec(isValidId, s, postId, caller, text, cid, now, nid);
      (r.Success? || s'.posts != s.posts) ==>
        && text.Some? && postId in s.posts && s'.posts.Keys == s.posts.Keys
        && s'.posts[postId] == s.posts[postId].(comments := s.posts[postId].comments + [Comment(cid, caller.id, Trim(text.value))])
        && (forall q :: q in s.posts && q != postId ==> s'.posts[q] == s.posts[q])
        && (r.Success? <==>
              forall i :: 0 <= i < |s'.posts[postId].comments| ==>
                !(s'.posts[postId].comments[i].text == Trim(text.value)
                  && UserById(s.users, s'.posts[postId].comments[i].user).None?))
        && (r.Success? ==> r.value == CommentReply(None) && s'.log[|s.log|] == ToAll(CommentAdded(postId, None)))
        && (r.Failure? ==> r == Failure(500, "Failed to add comment") && s'.log == s.log && s'.notifications == s.notifications)
  {
    var (s', r) := AddCommentSpec(isValidId, s, postId, caller, text, cid, now, nid);
    if r.Success? || s'.posts != s.posts {
      var p := s.posts[postId];
      var p' := p.(comments := p.comments + [Comment(cid, caller.id, Trim(text.value))]);
      assert s'.posts == s.posts[postId := p'];
      var at := NullUserCommentAt(s.users, p'.comments, Trim(text.value));
      if at.Some? {
        assert p'.comments[at.value].text == Trim(text.value);
      }
    }
  }

  /** A caller whose user record no longer exists never gets a 201 and nothing is
      broadcast, whatever the text: the comment just added populates its user as
      `null`, so the lookup throws. */
  lemma AddCommentByMissingUserFails(isValidId: string -> bool, s: Snapshot, postId: PostId, caller: Caller,
                                     text: Option<string>, cid: CommentId, now: int, nid: NotificationId)
    requires UserById(s.users, caller.id).None?
    ensures var (s', r) := AddCommentSpec(isValidId, s, postId, caller, text, cid, now, nid);
      r.Failure? && s'.log == s.log
  {
    if isValidId(postId) && !Unauthorized(isValidId, caller) && text.Some? && Trim(text.value) != ""
       && postId in s.posts
    {
      var p := s.posts[postId];
      var p' := p.(comments := p.comments + [Comment(cid, caller.id, Trim(text.value))]);
      assert p'.comments[|p.comments|].text == Trim(text.value) && p'.comments[|p.comments|].user == caller.id;
    }
  }

  /** A comment notification goes to the author exactly when the commenter is not the
      author (and the commenter's user record is found). */
  lemma AddCommentNotifies(isValidId: string -> bool, s: Snapshot, postId: PostId, caller: Caller,
                           text: Option<string>, cid: CommentId, now: int, nid: NotificationId)
    ensures var (s', r) := AddCommentSpec(isValidId, s, postId, caller, text, cid, now, nid);
      r.Success? ==>
        var author := s.posts[postId].author;
        && (author == caller.id ==> s'.notifications == s.notifications)
        && (author != caller.id && UserById(s.users, caller.id).Some? ==>
              s'.notifications == s.notifications + [Notification(nid, author, caller.id, CommentKind, Some(postId), false, now)]
              && s'.log[|s'.log| - 1] == ToRoom(author, NewNotification(nid, CommentKind, caller.id)))
  {
  }

  // ---------------------------------------------------------------- editComment

  function EditCommentSpec(isValidId: string -> bool, s: Snapshot, postId: PostId, commentId: CommentId,
                           caller: Caller, text: Option<string>): (Snapshot, Response<Reply>)
  {
    if !isValidId(postId) || !isValidId(commentId) then (s, Failure(400, "Invalid post or comment ID"))
    else if Unauthorized(isValidId, caller) then (s, Failure(401, UnauthorizedMessage))
    else if postId !in s.posts then (s, Failure(404, "Post not found"))
    else
      var post := s.posts[postId];
      match CommentIndex(post.comments, commentId)
      case None => (s, Failure(404, "Comment not found"))
      case Some(k) =>
        if post.comments[k].user != caller.id then (s, Failure(403, "Unauthorized to edit this comment"))
        else if text.None? then (s, Failure(500, "Failed to update comment"))
        else
          var c := post.comments[k].(text := Trim(text.value));
          var post' := post.(comments := post.comments[k := c]);
          if SaveCheck(s.posts, post').Some? then (s, Failure(500, "Failed to update comment"))
          else
            (s.(posts := s.posts[postId := post'], log := s.log + [ToAll(CommentEdited(postId, commentId, c.text))]),
             Success(200, CommentReply(Some(c))))
  }

  method EditComment(db: Db, postId: PostId, commentId: CommentId, caller: Caller, text: Option<string>)
    returns (r: Response<Reply>)
    modifies db
    ensures (db.State(), r) == EditCommentSpec(db.isValidId, old(db.State()), postId, commentId, caller, text)
  {
    if !db.isValidId(postId) || !db.isValidId(commentId) {
      return Failure(400, "Invalid post or comment ID");
    }
    if Unauthorized(db.isValidId, caller) {
      return Failure(401, UnauthorizedMessage);
    }
    if postId !in db.posts {
      return Failure(404, "Post not found");
    }
    var post := db.posts[postId];
    var k := CommentIndex(post.comments, commentId);
    if k.None? {
      return Failure(404, "Comment not found");
    }
    var comment := post.comments[k.value];
    if comment.user != caller.id {
      return Failure(403, "Unauthorized to edit this comment");
    }
    if text.None? {
      return Failure(500, "Failed to update comment");
    }
    comment := comment.(text := Trim(text.value));
    post := post.(comments := post.comments[k.value := comment]);
    if SaveCheck(db.posts, post).Some? {
      return Failure(500, "Failed to update comment");
    }
    db.posts := db.posts[postId := post];
    db.log := db.log + [ToAll(CommentEdited(postId, commentId, comment.text))];
    r := Success(200, CommentReply(Some(comment)));
  }

  /** editComment: 404 for a missing post or comment and 403 for someone else's
      comment, each leaving the store unchanged; on success only that comment's text
      changes, to the trimmed new text. Whitespace-only text is not rejected by the
      handler: the schema's minimum length turns it into a 500. */
  lemma EditCommentOutcome(isValidId: string -> bool, s: Snapshot, postId: PostId, commentId: CommentId,
                           caller: Caller, text: Option<string>)
    requires isValidId(postId) && isValidId(commentId) && !Unauthorized(isValidId, caller)
    ensures var (s', r) := EditCommentSpec(isValidId, s, postId, commentId, caller, text);
      && (r.Failure? ==> s' == s)
      && (postId !in s.posts ==> r == Failure(404, "Post not found"))
      && ((postId in s.posts && forall i :: 0 <= i < |s.posts[postId].comments| ==> s.posts[postId].comments[i].id != commentId)
            ==> r == Failure(404, "Comment not found"))
      && (postId in s.posts && text.Some? && IsBlank(text.value) ==> r.Failure?)
      && (r.Success? ==>
            exists k :: 0 <= k < |s.posts[postId].comments|
              && s.posts[postId].comments[k].id == commentId
              && s.posts[postId].comments[k].user == caller.id
              && s'.posts[postId].comments == s.posts[postId].comments[k := s.posts[postId].comments[k].(text := Trim(text.value))]
              && s'.posts == s.posts[postId := s'.posts[postId]])
  {
    if postId in s.posts && text.Some? && IsBlank(text.value) {
      TrimEmptyIffBlank(text.value);
      var (s', r) := EditCommentSpec(isValidId, s, postId, commentId, caller, text);
      var k := CommentIndex(s.posts[postId].comments, commentId);
      if k.Some? && s.posts[postId].comments[k.value].user == caller.id {
        var post' := s.posts[postId].(comments := s.posts[postId].comments[k.value := s.posts[postId].comments[k.value].(text := "")]);
        assert !CommentValid(post'.comments[k.value]);
      }
    }
  }

  /** A comment by someone other than the caller is never edited. */
  lemma EditCommentForbidden(isValidId: string -> bool, s: Snapshot, postId: PostId, k: nat,
                             caller: Caller, text: Option<string>)
    requires isValidId(postId) && !Unauthorized(isValidId, caller) && postId in s.posts
    requires k < |s.posts[postId].comments| && isValidId(s.posts[postId].comments[k].id)
    requires forall j :: 0 <= j < k ==> s.posts[postId].comments[j].id != s.posts[postId].comments[k].id
    requires s.posts[postId].comments[k].user != caller.id
    ensures EditCommentSpec(isValidId, s, postId, s.posts[postId].comments[k].id, caller, text)
            == (s, Failure(403, "Unauthorized to edit this comment"))
  {
  }

  // ---------------------------------------------------------------- deleteComment

  function DeleteCommentSpec(isValidId: string -> bool, s: Snapshot, postId: PostId, commentId: CommentId,
                             caller: Caller): (Snapshot, Response<Reply>)
  {
    if !isValidId(postId) || !isValidId(commentId) then (s, Failure(400, "Invalid post or comment ID"))
    else if Unauthorized(isValidId, caller) then (s, Failure(401, UnauthorizedMessage))
    else if postId !in s.posts then (s, Failure(404, "Post not found"))
    else
      var post := s.posts[postId];
      match CommentIndex(post.comments, commentId)
      case None => (s, Failure(404, "Comment not found"))
      case Some(k) =>
        if post.comments[k].user != caller.id then (s, Failure(403, "Unauthorized to delete this comment"))
        else
          var post' := post.(comments := PullComment(post.comments, commentId));
          if SaveCheck(s.posts, post').Some? then (s, Failure(500, "Failed to delete comment"))
          else
            (s.(posts := s.posts[postId := post'], log := s.log + [ToAll(CommentDeleted(postId, commentId))]),
             Success(200, Done))
  }

  method DeleteComment(db: Db, postId: PostId, commentId: CommentId, caller: Caller)
    returns (r: Response<Reply>)
    modifies db
    ensures (db.State(), r) == DeleteCommentSpec(db.isValidId, old(db.State()), postId, commentId, caller)
  {
    if !db.isValidId(postId) || !db.isValidId(commentId) {
      return Failure(400, "Invalid post or comment ID");
    }
    if Unauthorized(db.isValidId, caller) {
      return Failure(401, UnauthorizedMessage);
    }
    if postId !in db.posts {
      return Failure(404, "Post not found");
    }
    var post := db.posts[postId];
    var k := CommentIndex(post.comments, commentId);
    if k.None? {
      return Failure(404, "Comment not found");
    }
    if post.comments[k.value].user != caller.id {
      return Failure(403, "Unauthorized to delete this comment");
    }
    post := post.(comments := PullComment(post.comments, commentId));
    if SaveCheck(db.posts, post).Some? {
      return Failure(500, "Failed to delete comment");
    }
    db.posts := db.posts[postId := post];
    db.log := db.log + [ToAll(CommentDeleted(postId, commentId))];
    r := Success(200, Done);
  }

  /** With comment ids unique within the post, a successful deleteComment removes
      exactly that comment and keeps the others in order; a failed one changes
      nothing. */
  lemma DeleteCommentRemovesOnlyIt(isValidId: string -> bool, s: Snapshot, postId: PostId, commentId: CommentId,
                                   caller: Caller)
    requires postId in s.posts
    requires forall i, j :: 0 <= i < j < |s.posts[postId].comments| ==>
               s.posts[postId].comments[i].id != s.posts[postId].comments[j].id
    ensures var (s', r) := DeleteCommentSpec(isValidId, s, postId, commentId, caller);
      && (r.Failure? ==> s' == s)
      && (r.Success? ==>
            exists k :: 0 <= k < |s.posts[postId].comments|
              && s.posts[postId].comments[k].id == commentId
              && s.posts[postId].comments[k].user == caller.id
              && s'.posts == s.posts[postId := s.posts[postId].(comments :=
                   s.posts[postId].comments[..k] + s.posts[postId].comments[k + 1..])])
  {
    var (s', r) := DeleteCommentSpec(isValidId, s, postId, commentId, caller);
    if r.Success? {
      var cs := s.posts[postId].comments;
      var k := CommentIndex(cs, commentId).value;
      forall i | 0 <= i < |cs| && i != k ensures cs[i].id != cs[k].id {
        if i < k { assert cs[i].id != cs[k].id; } else { assert cs[k].id != cs[i].id; }
      }
      PullCommentAt(cs, k);
    }
  }

  // ---------------------------------------------------------------- editPost

  function EditPostSpec(isValidId: string -> bool, s: Snapshot, postId: PostId, caller: Caller,
                        content: Option<string>): (Snapshot, Response<Reply>)
  {
    if !isValidId(postId) then (s, Failure(400, "Invalid post ID"))
    else if Unauthorized(isValidId, caller) then (s, Failure(401, UnauthorizedMessage))
    else if postId !in s.posts then (s, Failure(404, "Post not found"))
    else if s.posts[postId].author != caller.id then (s, Failure(403, "Unauthorized to edit this post"))
    else if content.None? || Trim(content.value) == "" then (s, Failure(400, "Post content cannot be empty"))
    else
      var post' := s.posts[postId].(content := Some(Trim(content.value)));
      if SaveCheck(s.posts, post').Some? then (s, Failure(500, "Failed to update post"))
      else
        (s.(posts := s.posts[postId := post'], log := s.log + [ToAll(PostUpdated(postId, content.value))]),
         Success(200, PostReply(postId)))
  }

  method EditPost(db: Db, postId: PostId, caller: Caller, content: Option<string>)
    returns (r: Response<Reply>)
    modifies db
    ensures (db.State(), r) == EditPostSpec(db.isValidId, old(db.State()), postId, caller, content)
  {
    if !db.isValidId(postId) {
      return Failure(400, "Invalid post ID");
    }
    if Unauthorized(db.isValidId, caller) {
      return Failure(401, UnauthorizedMessage);
    }
    if postId !in db.posts {
      return Failure(404, "Post not found");
    }
    var post := db.posts[postId];
    if post.author != caller.id {
      return Failure(403, "Unauthorized to edit this post");
    }
    if content.None? || Trim(content.value) == "" {
      return Failure(400, "Post content cannot be empty");
    }
    post := post.(content := Some(Trim(content.value)));
    if SaveCheck(db.posts, post).Some? {
      return Failure(500, "Failed to update post");
    }
    db.posts := db.posts[postId := post];
    db.log := db.log + [ToAll(PostUpdated(postId, content.value))];
    r := Success(200, PostReply(postId));
  }

  /** Only the author may edit: ownership is checked before the content, so a
      stranger sending empty content gets 403, not 400. A successful edit changes only
      that post's content, to the trimmed text, while the broadcast carries the text
      as sent. */
  lemma EditPostOutcome(isValidId: string -> bool, s: Snapshot, postId: PostId, caller: Caller,
                        content: Option<string>)
    ensures var (s', r) := EditPostSpec(isValidId, s, postId, caller, content);
      && (r.Failure? ==> s' == s)
      && ((isValidId(postId) && !Unauthorized(isValidId, caller) && postId in s.posts
           && s.posts[postId].author != caller.id) ==> r == Failure(403, "Unauthorized to edit this post"))
      && (r.Success? ==>
            && content.Some? && s.posts[postId].author == caller.id
            && s'.posts == s.posts[postId := s.posts[postId].(content := Some(Trim(content.value)))]
            && s'.log == s.log + [ToAll(PostUpdated(postId, content.value))])
  {
  }

  // ---------------------------------------------------------------- deletePost

  function DeletePostSpec(isValidId: string -> bool, s: Snapshot, postId: PostId, caller: Caller)
    : (Snapshot, Response<Reply>)
  {
    if !isValidId(postId) then (s, Failure(400, "Invalid post ID"))
    else if Unauthorized(isValidId, caller) then (s, Failure(401, UnauthorizedMessage))
    else if postId !in s.posts then (s, Failure(404, "Post not found"))
    else if s.posts[postId].author != caller.id then (s, Failure(403, "Unauthorized to delete this post"))
    else
      (s.(posts := s.posts - {postId}, log := s.log + [ToAll(PostDeleted(postId))]), Success(200, Done))
  }

  method DeletePost(db: Db, postId: PostId, caller: Caller) returns (r: Response<Reply>)
    modifies db
    ensures (db.State(), r) == DeletePostSpec(db.isValidId, old(db.State()), postId, caller)
  {
    if !db.isValidId(postId) {
      return Failure(400, "Invalid post ID");
    }
    if Unauthorized(db.isValidId, caller) {
      return Failure(401, UnauthorizedMessage);
    }
    if postId !in db.posts {
      return Failure(404, "Post not found");
    }
    if db.posts[postId].author != caller.id {
      return Failure(403, "Unauthorized to delete this post");
    }
    db.posts := db.posts - {postId};
    db.log := db.log + [ToAll(PostDeleted(postId))];
    r := Success(200, Done);
  }

  /** Only the author may delete; a deletion removes exactly that post. Reshares of
      it stay stored, and from then on every save of such a reshare fails the
      pre-save hook. */
  lemma DeletePostOutcome(isValidId: string -> bool, s: Snapshot, postId: PostId, caller: Caller, reshareId: PostId)
    ensures var (s', r) := DeletePostSpec(isValidId, s, postId, caller);
      && (r.Failure? ==> s' == s)
      && (r.Success? ==> postId in s.posts && s.posts[postId].author == caller.id
                         && s'.posts.Keys == s.posts.Keys - {postId}
                         && (forall q :: q in s'.posts ==> s'.posts[q] == s.posts[q]))
      && (r.Success? && reshareId in s'.posts && s'.posts[reshareId].sharedFrom == Some(postId)
          ==> SaveCheck(s'.posts, s'.posts[reshareId]).Some?)
  {
  }

  // ---------------------------------------------------------------- resharePost

  predicate AlreadyReshared(posts: map<PostId, Post>, user: UserId, original: PostId)
  {
    exists q :: q in posts && posts[q].author == user && posts[q].sharedFrom == Some(original)
  }

  function ResharePostSpec(isValidId: string -> bool, s: Snapshot, postId: PostId, caller: Caller,
                           newId: PostId, now: int, nid: NotificationId): (Snapshot, Response<Reply>)
    requires newId !in s.posts
  {
    if !isValidId(postId) then (s, Failure(500, "Cast to ObjectId failed"))
    else if AlreadyReshared(s.posts, caller.id, postId) then (s, Failure(400, "You have already reshared this post"))
    else if postId !in s.posts then (s, Failure(404, ""))
    else
      var original := s.posts[postId];
      if UserById(s.users, original.author).None? then (s, Failure(500, NullAuthorMessage))
      else if original.author == caller.id then (s, Failure(400, "You cannot reshare your own post"))
      else
        var reshare := Post(caller.id, SetTrimmed(original.content), original.mediaUrl, [], [], Some(postId), []);
        if SaveCheck(s.posts, reshare).Some? then (s, Failure(500, "Post validation failed"))
        else
          var s1 := s.(posts := s.posts[newId := reshare], log := s.log + [ToAll(PostCreated(newId, caller.id, true))]);
          (Notify(s1, nid, original.author, caller.id, ReshareKind, postId, now), Success(201, PostReply(newId)))
  }

  method ResharePost(db: Db, postId: PostId, caller: Caller, newId: PostId, now: int, nid: NotificationId)
    returns (r: Response<Reply>)
    requires newId !in db.posts
    modifies db
    ensures (db.State(), r) == ResharePostSpec(db.isValidId, old(db.State()), postId, caller, newId, now, nid)
  {
    if !db.isValidId(postId) {
      return Failure(500, "Cast to ObjectId failed");
    }
    if AlreadyReshared(db.posts, caller.id, postId) {
      return Failure(400, "You have already reshared this post");
    }
    if postId !in db.posts {
      return Failure(404, "");
    }
    var original := db.posts[postId];
    if UserById(db.users, original.author).None? {
      return Failure(500, NullAuthorMessage);
    }
    if original.author == caller.id {
      return Failure(400, "You cannot reshare your own post");
    }
    var reshare := Post(caller.id, SetTrimmed(original.content), original.mediaUrl, [], [], Some(postId), []);
    if SaveCheck(db.posts, reshare).Some? {
      return Failure(500, "Post validation failed");
    }
    db.posts := db.posts[newId := reshare];
    db.log := db.log + [ToAll(PostCreated(newId, caller.id, true))];
    db.notifications := db.notifications
      + [Notification(nid, original.author, caller.id, ReshareKind, Some(postId), false, now)];
    db.log := db.log + [ToRoom(original.author, NewNotification(nid, ReshareKind, caller.id))];
    r := Success(201, PostReply(newId));
  }

  /** The repeat check runs first: a user who already reshared gets 400 even when the
      original has since been deleted. A missing original gives 404. An original
      whose author's account is gone gives 500 (reading `_id` of the null populated
      author throws) before anything is stored, and one's own post gives 400. A
      success stores one new post by the caller that points at the original and
      copies its content and media, and notifies the original author. */
  lemma ResharePostOutcome(isValidId: string -> bool, s: Snapshot, postId: PostId, caller: Caller,
                           newId: PostId, now: int, nid: NotificationId)
    requires isValidId(postId)
    requires newId !in s.posts
    requires StoreValid(s.posts)
    ensures var (s', r) := ResharePostSpec(isValidId, s, postId, caller, newId, now, nid);
      && (r.Failure? ==> s' == s)
      && (AlreadyReshared(s.posts, caller.id, postId) ==> r == Failure(400, "You have already reshared this post"))
      && (!AlreadyReshared(s.posts, caller.id, postId) && postId !in s.posts ==> r.status == 404)
      && (!AlreadyReshared(s.posts, caller.id, postId) && postId in s.posts ==>
            if UserById(s.users, s.posts[postId].author).None? then r == Failure(500, NullAuthorMessage)
            else if s.posts[postId].author == caller.id then r == Failure(400, "You cannot reshare your own post")
            else
              && r == Success(201, PostReply(newId))
              && s'.posts == s.posts[newId := Post(caller.id, s.posts[postId].content, s.posts[postId].mediaUrl,
                                                   [], [], Some(postId), [])]
              && s'.notifications == s.notifications
                   + [Notification(nid, s.posts[postId].author, caller.id, ReshareKind, Some(postId), false, now)])
  {
    if && !AlreadyReshared(s.posts, caller.id, postId) && postId in s.posts
       && UserById(s.users, s.posts[postId].author).Some? && s.posts[postId].author != caller.id {
      var c := s.posts[postId].content;
      if c.Some? {
        assert SchemaValid(s.posts[postId]);
        StoredContentIsTrimmed(s.posts[postId]);
      }
    }
  }

  /** Content stored through the trim setter is its own trimmed form. */
  lemma StoredContentIsTrimmed(p: Post)
    requires p.content.Some?
    ensures SetTrimmed(p.content) == Some(Trim(p.content.value))
  {
  }

  // ---------------------------------------------------------------- toggleSavePost

  function ToggleSaveSpec(isValidId: string -> bool, s: Snapshot, postId: PostId, caller: Caller)
    : (Snapshot, Response<Reply>)
  {
    if !isValidId(postId) then (s, Failure(400, "Invalid post ID"))
    else if Unauthorized(isValidId, caller) then (s, Failure(401, UnauthorizedMessage))
    else if postId !in s.posts then (s, Failure(404, "Post not found"))
    else
      var post := s.posts[postId];
      var wasSaved := caller.id in post.savedBy;
      var savedBy := if wasSaved then RemoveAll(post.savedBy, caller.id) else AddToSet(post.savedBy, caller.id);
      (s.(posts := s.posts[postId := post.(savedBy := savedBy)],
          log := s.log + [ToAll(PostSaved(postId, caller.id, !wasSaved, savedBy))]),
       Success(200, Saved(!wasSaved)))
  }

  method ToggleSavePost(db: Db, postId: PostId, caller: Caller) returns (r: Response<Reply>)
    modifies db
    ensures (db.State(), r) == ToggleSaveSpec(db.isValidId, old(db.State()), postId, caller)
  {
    if !db.isValidId(postId) {
      return Failure(400, "Invalid post ID");
    }
    if Unauthorized(db.isValidId, caller) {
      return Failure(401, UnauthorizedMessage);
    }
    var userId := caller.id;
    if postId !in db.posts {
      return Failure(404, "Post not found");
    }
    var post := db.posts[postId];
    var isSaved := userId in post.savedBy;
    var savedBy := if isSaved then RemoveAll(post.savedBy, userId) else AddToSet(post.savedBy, userId);
    db.posts := db.posts[postId := post.(savedBy := savedBy)];
    db.log := db.log + [ToAll(PostSaved(postId, userId, !isSaved, savedBy))];
    r := Success(200, Saved(!isSaved));
  }

  /** A save toggle flips the caller's membership in savedBy, keeps every other
      user's, reports the new membership, broadcasts `postSaved` with the new array,
      and changes nothing else; toggling twice restores membership. */
  lemma ToggleSaveOutcome(isValidId: string -> bool, s: Snapshot, postId: PostId, caller: Caller)
    ensures var (s', r) := ToggleSaveSpec(isValidId, s, postId, caller);
      && (r.Failure? ==> s' == s)
      && (r.Success? ==>
            && postId in s.posts
            && r.value == Saved(caller.id in s'.posts[postId].savedBy)
            && (caller.id in s'.posts[postId].savedBy <==> caller.id !in s.posts[postId].savedBy)
            && (forall v :: v != caller.id ==> (v in s'.posts[postId].savedBy <==> v in s.posts[postId].savedBy))
            && s'.posts == s.posts[postId := s.posts[postId].(savedBy := s'.posts[postId].savedBy)]
            && s'.users == s.users && s'.messages == s.messages && s'.notifications == s.notifications
            && s'.log == s.log + [ToAll(PostSaved(postId, caller.id, caller.id !in s.posts[postId].savedBy,
                                                  s'.posts[postId].savedBy))]
            && var (s'', r') := ToggleSaveSpec(isValidId, s', postId, caller);
               forall v :: v in s''.posts[postId].savedBy <==> v in s.posts[postId].savedBy)
  {
  }

  // ---------------------------------------------------------------- the schema invariant

  lemma StoreValidPut(posts: map<PostId, Post>, id: PostId, p: Post)
    requires StoreValid(posts) && SchemaValid(p) && Trimmed(p)
    ensures StoreValid(posts[id := p])
  {
  }

  lemma TrimmedAppend(p: Post, c: Comment)
    requires Trimmed(p) && IsTrimmed(c.text)
    ensures Trimmed(p.(comments := p.comments + [c]))
  {
    var cs := p.comments + [c];
    forall i | 0 <= i < |cs| ensures IsTrimmed(cs[i].text) {
      if i < |p.comments| { assert cs[i] == p.comments[i]; }
    }
  }

  /** Creating a post or a reshare never stores a post that breaks the schema. */
  lemma CreatingKeepsStoreValid(isValidId: string -> bool, s: Snapshot, postId: PostId, caller: Caller,
                                content: Option<string>, file: Option<string>, newId: PostId, now: int, nid: NotificationId)
    requires StoreValid(s.posts)
    requires newId !in s.posts
    ensures StoreValid(CreatePostSpec(isValidId, s, caller, content, file, newId).0.posts)
    ensures StoreValid(ResharePostSpec(isValidId, s, postId, caller, newId, now, nid).0.posts)
  {
    CreateKeepsStoreValid(isValidId, s, caller, content, file, newId);
    ReshareKeepsStoreValid(isValidId, s, postId, caller, newId, now, nid);
  }

  lemma CreateKeepsStoreValid(isValidId: string -> bool, s: Snapshot, caller: Caller,
                              content: Option<string>, file: Option<string>, newId: PostId)
    requires StoreValid(s.posts)
    requires newId !in s.posts
    ensures StoreValid(CreatePostSpec(isValidId, s, caller, content, file, newId).0.posts)
  {
    var (s1, r1) := CreatePostSpec(isValidId, s, caller, content, file, newId);
    if r1.Success? {
      var p := Post(caller.id, SetTrimmed(content), file, [], [], None, []);
      assert SaveCheck(s.posts, p).None? && Trimmed(p);
      StoreValidPut(s.posts, newId, p);
      assert s1.posts == s.posts[newId := p];
    }
  }

  lemma ReshareKeepsStoreValid(isValidId: string -> bool, s: Snapshot, postId: PostId, caller: Caller,
                               newId: PostId, now: int, nid: NotificationId)
    requires StoreValid(s.posts)
    requires newId !in s.posts
    ensures StoreValid(ResharePostSpec(isValidId, s, postId, caller, newId, now, nid).0.posts)
  {
    var (s2, r2) := ResharePostSpec(isValidId, s, postId, caller, newId, now, nid);
    if r2.Success? {
      var o := s.posts[postId];
      var p := Post(caller.id, SetTrimmed(o.content), o.mediaUrl, [], [], Some(postId), []);
      assert SaveCheck(s.posts, p).None? && Trimmed(p);
      StoreValidPut(s.posts, newId, p);
      assert s2.posts == s.posts[newId := p];
    }
  }

  /** Toggling a like or a save and deleting a post keep every stored post valid. */
  lemma TogglingKeepsStoreValid(isValidId: string -> bool, s: Snapshot, postId: PostId, caller: Caller,
                                now: int, nid: NotificationId)
    requires StoreValid(s.posts)
    ensures StoreValid(ToggleLikeSpec(isValidId, s, postId, caller, now, nid).0.posts)
    ensures StoreValid(ToggleSaveSpec(isValidId, s, postId, caller).0.posts)
    ensures StoreValid(DeletePostSpec(isValidId, s, postId, caller).0.posts)
  {
    ToggleLikeKeepsStoreValid(isValidId, s, postId, caller, now, nid);
    ToggleSaveKeepsStoreValid(isValidId, s, postId, caller);
  }

  lemma ToggleLikeKeepsStoreValid(isValidId: string -> bool, s: Snapshot, postId: PostId, caller: Caller,
                                  now: int, nid: NotificationId)
    requires StoreValid(s.posts)
    ensures StoreValid(ToggleLikeSpec(isValidId, s, postId, caller, now, nid).0.posts)
  {
  }

  lemma ToggleSaveKeepsStoreValid(isValidId: string -> bool, s: Snapshot, postId: PostId, caller: Caller)
    requires StoreValid(s.posts)
    ensures StoreValid(ToggleSaveSpec(isValidId, s, postId, caller).0.posts)
  {
  }

  /** Adding a comment keeps every stored post valid. */
  lemma AddCommentKeepsStoreValid(isValidId: string -> bool, s: Snapshot, postId: PostId, commentId: CommentId,
                                  caller: Caller, text: Option<string>, now: int, nid: NotificationId)
    requires StoreValid(s.posts)
    ensures StoreValid(AddCommentSpec(isValidId, s, postId, caller, text, commentId, now, nid).0.posts)
  {
    var (s1, r1) := AddCommentSpec(isValidId, s, postId, caller, text, commentId, now, nid);
    if isValidId(postId) && !Unauthorized(isValidId, caller) && text.Some? && Trim(text.value) != ""
       && postId in s.posts
    {
      var p := s.posts[postId];
      var c := Comment(commentId, caller.id, Trim(text.value));
      var p' := p.(comments := p.comments + [c]);
      if SaveCheck(s.posts, p').None? {
        TrimIdempotent(text.value);
        TrimmedAppend(p, c);
        StoreValidPut(s.posts, postId, p');
        assert s1.posts == s.posts[postId := p'];
      }
    }
  }

  /** Editing a post keeps every stored post valid. */
  lemma EditPostKeepsStoreValid(isValidId: string -> bool, s: Snapshot, postId: PostId, caller: Caller,
                                content: Option<string>)
    requires StoreValid(s.posts)
    ensures StoreValid(EditPostSpec(isValidId, s, postId, caller, content).0.posts)
  {
    var (s2, r2) := EditPostSpec(isValidId, s, postId, caller, content);
    if r2.Success? {
      var p' := s.posts[postId].(content := Some(Trim(content.value)));
      TrimIdempotent(content.value);
      assert SaveCheck(s.posts, p').None?;
      StoreValidPut(s.posts, postId, p');
      assert s2.posts == s.posts[postId := p'];
    } else {
      assert s2 == s;
    }
  }

  /** Editing a comment keeps every stored post valid. */
  lemma EditCommentKeepsStoreValid(isValidId: string -> bool, s: Snapshot, postId: PostId, commentId: CommentId,
                                   caller: Caller, text: Option<string>)
    requires StoreValid(s.posts)
    ensures StoreValid(EditCommentSpec(isValidId, s, postId, commentId, caller, text).0.posts)
  {
    var (s1, r1) := EditCommentSpec(isValidId, s, postId, commentId, caller, text);
    if r1.Success? {
      var p := s.posts[postId];
      var k := CommentIndex(p.comments, commentId).value;
      var cs := p.comments[k := p.comments[k].(text := Trim(text.value))];
      TrimIdempotent(text.value);
      forall i | 0 <= i < |cs| ensures IsTrimmed(cs[i].text) {
        if i != k { assert cs[i] == p.comments[i]; }
      }
      assert SaveCheck(s.posts, p.(comments := cs)).None?;
      StoreValidPut(s.posts, postId, p.(comments := cs));
      assert s1.posts == s.posts[postId := p.(comments := cs)];
    } else {
      assert s1 == s;
    }
  }

  /** Deleting a comment keeps every stored post valid. */
  lemma DeleteCommentKeepsStoreValid(isValidId: string -> bool, s: Snapshot, postId: PostId, commentId: CommentId,
                                     caller: Caller)
    requires StoreValid(s.posts)
    ensures StoreValid(DeleteCommentSpec(isValidId, s, postId, commentId, caller).0.posts)
  {
    var (s2, r2) := DeleteCommentSpec(isValidId, s, postId, commentId, caller);
    if r2.Success? {
      var p := s.posts[postId];
      var cs := PullComment(p.comments, commentId);
      forall i | 0 <= i < |cs| ensures IsTrimmed(cs[i].text) {
        assert cs[i] in p.comments;
      }
      assert SaveCheck(s.posts, p.(comments := cs)).None?;
      StoreValidPut(s.posts, postId, p.(comments := cs));
      assert s2.posts == s.posts[postId := p.(comments := cs)];
    } else {
      assert s2 == s;
    }
  }
}
