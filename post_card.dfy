/** The card of client/src/components/PostCard.jsx: the values it derives from its
    local copy of the post (whether the user likes it, which comments are shown), the
    like request with its in-flight guard and request-id check, the optimistic save
    toggle with its rollback, and the socket events that overwrite its state. Each
    asynchronous handler is split at its `await`: a method for what happens before
    the request and a method that takes the reply. */
module PostCard {
  import opened Common
  import opened ClientTypes
  import PostController

  // ---------------------------------------------------------------- derived values

  /** One entry of `likes` names the user: an object through its `_id`, anything else
      through its own string value; null names nobody. */
  predicate LikeMatches(e: LikeEntry, uid: string)
  {
    match e
    case LikeObj(id) => id == Some(uid)
    case LikeRaw(v) => v == uid
    case LikeNull => false
  }

  /** `likes.some(...)`, scanning from the front. */
  function AnyLike(xs: seq<LikeEntry>, uid: string): bool
  {
    if xs == [] then false else LikeMatches(xs[0], uid) || AnyLike(xs[1..], uid)
  }

  /** The card's `isLiked`: false unless `likes` is an array. */
  function IsLiked(likes: JsArray<LikeEntry>, uid: string): bool
  {
    likes.Arr? && AnyLike(likes.items, uid)
  }

  /** The user likes the post exactly when some entry of an array `likes` names them. */
  lemma {:induction false} IsLikedIff(likes: JsArray<LikeEntry>, uid: string)
    ensures IsLiked(likes, uid) <==> likes.Arr? && exists i :: 0 <= i < |likes.items| && LikeMatches(likes.items[i], uid)
  {
    if likes.Arr? {
      AnyLikeIff(likes.items, uid);
    }
  }

  lemma {:induction false} AnyLikeIff(xs: seq<LikeEntry>, uid: string)
    ensures AnyLike(xs, uid) <==> exists i :: 0 <= i < |xs| && LikeMatches(xs[i], uid)
  {
    if xs != [] {
      AnyLikeIff(xs[1..], uid);
      if exists i :: 0 <= i < |xs| && LikeMatches(xs[i], uid) {
        var i :| 0 <= i < |xs| && LikeMatches(xs[i], uid);
        if i > 0 {
          assert LikeMatches(xs[1..][i - 1], uid);
        }
      }
    }
  }

  /** The server's `likes` array as the client receives it: raw id strings. */
  function RawLikes(ids: seq<string>): (r: seq<LikeEntry>)
    ensures |r| == |ids|
    ensures forall i :: 0 <= i < |ids| ==> r[i] == LikeRaw(ids[i])
    ensures forall e :: e in r ==> e.LikeRaw?
    ensures forall u :: LikeRaw(u) in r <==> u in ids
  {
    seq(|ids|, i requires 0 <= i < |ids| => LikeRaw(ids[i]))
  }

  /** On a likes array from the server the card's `isLiked` is plain membership, so
      after the server's toggle it agrees with the `isLiked` the server replies with. */
  lemma ServerLikesShowToggle(likes: seq<string>, uid: string)
    ensures IsLiked(Arr(RawLikes(likes)), uid) <==> uid in likes
    ensures IsLiked(Arr(RawLikes(PostController.LikesAfterToggle(likes, uid))), uid) <==> uid !in likes
  {
    IsLikedIff(Arr(RawLikes(likes)), uid);
    var after := PostController.LikesAfterToggle(likes, uid);
    IsLikedIff(Arr(RawLikes(after)), uid);
    if uid in likes {
      assert uid !in after;
    } else {
      assert after[|after| - 1] == uid;
      assert LikeMatches(RawLikes(after)[|after| - 1], uid);
    }
  }

  /** `showAllComments ? comments : comments.slice(-2)`. */
  function CommentsToShow(comments: seq<ClientComment>, showAll: bool): seq<ClientComment>
  {
    if showAll then comments else comments[|comments| - (if |comments| < 2 then |comments| else 2)..]
  }

  /** `comments.length > 2`. */
  predicate HasMoreComments(comments: seq<ClientComment>)
  {
    |comments| > 2
  }

  /** The collapsed view shows the last two comments (all of them when there are
      fewer), in order; the "more comments" control appears exactly when the collapsed
      view hides some comment. */
  lemma CommentWindow(comments: seq<ClientComment>)
    ensures CommentsToShow(comments, true) == comments
    ensures var shown := CommentsToShow(comments, false);
      && |shown| == (if |comments| < 2 then |comments| else 2)
      && comments == comments[..|comments| - |shown|] + shown
      && (HasMoreComments(comments) <==> |shown| < |comments|)
  {
  }

  /** One entry of `savedBy` names the user (entries are populated user objects). */
  predicate SavedMatches(u: UserRef, uid: string)
  {
    IdIs(u.id, uid)
  }

  /** `savedBy.some(...)`. */
  predicate SavedIn(savedBy: seq<UserRef>, uid: string)
  {
    exists i :: 0 <= i < |savedBy| && SavedMatches(savedBy[i], uid)
  }

  /** The `savedBy` array after an optimistic save (`save`) or unsave: the user object
      appended, or every entry naming the user filtered out. */
  function SavedAfter(savedBy: seq<UserRef>, save: bool, uid: string, name: Option<string>): seq<UserRef>
  {
    if save then savedBy + [UserRef(StrId(uid), name)]
    else Filter(savedBy, (u: UserRef) => !SavedMatches(u, uid))
  }

  /** The entries that do not name the user. */
  function Others(savedBy: seq<UserRef>, uid: string): seq<UserRef>
  {
    Filter(savedBy, (u: UserRef) => !SavedMatches(u, uid))
  }

  /** Saving puts the user in `savedBy` and unsaving takes every entry of theirs out;
      either way the entries of other users are kept, in order. */
  lemma {:induction false} SavedAfterSpec(savedBy: seq<UserRef>, save: bool, uid: string, name: Option<string>)
    ensures SavedIn(SavedAfter(savedBy, save, uid, name), uid) == save
    ensures Others(SavedAfter(savedBy, save, uid, name), uid) == Others(savedBy, uid)
  {
    var r := SavedAfter(savedBy, save, uid, name);
    if save {
      assert SavedMatches(r[|savedBy|], uid);
      FilterAppend(savedBy, [UserRef(StrId(uid), name)], (u: UserRef) => !SavedMatches(u, uid));
    } else {
      FilterTwice(savedBy, (u: UserRef) => !SavedMatches(u, uid));
    }
  }

  lemma {:induction false} FilterAppend<T(!new)>(xs: seq<T>, ys: seq<T>, keep: T -> bool)
    ensures Filter(xs + ys, keep) == Filter(xs, keep) + Filter(ys, keep)
  {
    if xs == [] {
      assert xs + ys == ys;
    } else {
      assert (xs + ys)[1..] == xs[1..] + ys;
      FilterAppend(xs[1..], ys, keep);
    }
  }

  lemma FilterTwice<T(!new)>(xs: seq<T>, keep: T -> bool)
    ensures Filter(Filter(xs, keep), keep) == Filter(xs, keep)
  {
  }

  /** The optimistic flip followed by the rollback of a failed request leaves the
      user's membership in `savedBy` equal to the `isSaved` the card had before, and
      the other users' entries as they were. */
  lemma SaveRollbackRestores(savedBy: seq<UserRef>, prevSaved: bool, uid: string, name: Option<string>)
    ensures var rolledBack := SavedAfter(SavedAfter(savedBy, !prevSaved, uid, name), prevSaved, uid, name);
      && SavedIn(rolledBack, uid) == prevSaved
      && Others(rolledBack, uid) == Others(savedBy, uid)
  {
    SavedAfterSpec(savedBy, !prevSaved, uid, name);
    SavedAfterSpec(SavedAfter(savedBy, !prevSaved, uid, name), prevSaved, uid, name);
  }

  // ---------------------------------------------------------------- replies

  /** The body of a successful like request, as the card reads it. */
  datatype LikeReply = LikeOk(likes: JsArray<LikeEntry>, isLiked: bool, requestId: Option<string>) | LikeFailed

  /** The server's reply to a toggle: `{success, isLiked, likes}`, without a requestId. */
  function FromServer(r: PostController.Reply): (c: LikeReply)
    requires r.Liked?
    ensures c.LikeOk? && c.requestId.None? && c.isLiked == r.isLiked
  {
    LikeOk(Arr(RawLikes(r.likes)), r.isLiked, None)
  }

  /** The `likes` the card holds after a like reply: only a reply carrying the
      request's own id is applied, and then a non-array `likes` keeps the old one. */
  function AfterLikeReply(likes: seq<LikeEntry>, requestId: string, reply: LikeReply): seq<LikeEntry>
  {
    if reply.LikeOk? && reply.requestId == Some(requestId) then ItemsOr(reply.likes, likes) else likes
  }

  /** A reply that echoes the request id replaces the card's likes, but the server's
      reply never echoes it, so the card never takes its likes from the reply. */
  lemma ServerLikeReplyDropped(likes: seq<LikeEntry>, requestId: string, r: PostController.Reply, echoed: seq<LikeEntry>)
    requires r.Liked?
    ensures AfterLikeReply(likes, requestId, FromServer(r)) == likes
    ensures AfterLikeReply(likes, requestId, LikeOk(Arr(echoed), r.isLiked, Some(requestId))) == echoed
  {
  }

  /** The body of a save request: the new `isSaved` and the post with its `savedBy`. */
  datatype SaveReply = SaveOk(isSaved: bool, savedBy: JsArray<UserRef>) | SaveFailed

  /** The body of an edit request: the updated post (which `|| {}` may leave empty). */
  datatype EditReply = EditOk(post: Option<ClientPost>) | EditFailed

  // ---------------------------------------------------------------- the card

  class Card {
    const postId: string
    const userId: string
    const userName: Option<string>
    /** `localPost.likes` and `localPost.savedBy`, both arrays from the start. */
    var likes: seq<LikeEntry>
    var savedBy: seq<UserRef>
    var comments: seq<ClientComment>
    var isSaved: bool
    var isSaving: bool
    var isLiking: bool
    var lastRequestId: Option<string>
    var showAllComments: bool
    var editMode: bool
    var editedContent: string
    var editCommentId: Option<string>
    var editCommentText: string

    /** The initial state for a post and the signed-in user. */
    constructor(post: ClientPost, uid: string, name: Option<string>)
      requires post.id.StrId?
      ensures postId == post.id.s && userId == uid && userName == name
      ensures likes == ItemsOr(post.likes, []) && savedBy == ItemsOr(post.savedBy, [])
      ensures comments == ItemsOr(post.comments, [])
      ensures isSaved == SavedIn(ItemsOr(post.savedBy, []), uid)
      ensures !isSaving && !isLiking && lastRequestId.None? && !showAllComments && !editMode
      ensures editedContent == OrElse(post.content, "") && editCommentId.None? && editCommentText == ""
    {
      postId := post.id.s;
      userId := uid;
      userName := name;
      likes := ItemsOr(post.likes, []);
      savedBy := ItemsOr(post.savedBy, []);
      comments := ItemsOr(post.comments, []);
      isSaved := SavedIn(ItemsOr(post.savedBy, []), uid);
      isSaving := false;
      isLiking := false;
      lastRequestId := None;
      showAllComments := false;
      editMode := false;
      editedContent := OrElse(post.content, "");
      editCommentId := None;
      editCommentText := "";
    }

    /** The `isLiked` the card renders. */
    function Liked(): bool
      reads this
    {
      IsLiked(Arr(likes), userId)
    }

    /** handleLike up to the request: nothing while a like is in flight; otherwise the
        card marks itself busy and remembers the new request id. */
    method StartLike(requestId: string) returns (sent: bool)
      modifies this
      ensures sent == !old(isLiking)
      ensures !sent ==> unchanged(this)
      ensures sent ==> isLiking && lastRequestId == Some(requestId)
      ensures sent ==> likes == old(likes) && savedBy == old(savedBy) && isSaved == old(isSaved) && isSaving == old(isSaving)
      ensures sent ==> comments == old(comments) && showAllComments == old(showAllComments) && editMode == old(editMode)
      ensures sent ==> editedContent == old(editedContent) && editCommentId == old(editCommentId) && editCommentText == old(editCommentText)
    {
      if isLiking {
        return false;
      }
      isLiking := true;
      lastRequestId := Some(requestId);
      sent := true;
    }

    /** handleLike after the request: the reply is applied only when it echoes the
        request id, and the card is no longer busy. */
    method FinishLike(requestId: string, reply: LikeReply)
      modifies this
      ensures likes == AfterLikeReply(old(likes), requestId, reply)
      ensures !isLiking
      ensures savedBy == old(savedBy) && isSaved == old(isSaved) && isSaving == old(isSaving) && lastRequestId == old(lastRequestId)
      ensures comments == old(comments) && showAllComments == old(showAllComments) && editMode == old(editMode)
      ensures editedContent == old(editedContent) && editCommentId == old(editCommentId) && editCommentText == old(editCommentText)
    {
      if reply.LikeOk? && reply.requestId == Some(requestId) {
        if reply.likes.Arr? {
          likes := reply.likes.items;
        }
      }
      isLiking := false;
    }

    /** handleSavePost up to the request: nothing while a save is in flight;
        otherwise `isSaved` flips and `savedBy` gains or loses the user at once. */
    method StartSave() returns (started: bool, prevSaved: bool)
      modifies this
      ensures started == !old(isSaving) && prevSaved == old(isSaved)
      ensures !started ==> unchanged(this)
      ensures started ==> isSaving && isSaved == !prevSaved
      ensures started ==> savedBy == SavedAfter(old(savedBy), !prevSaved, userId, userName)
      ensures started ==> likes == old(likes) && isLiking == old(isLiking) && lastRequestId == old(lastRequestId)
      ensures started ==> comments == old(comments) && showAllComments == old(showAllComments) && editMode == old(editMode)
      ensures started ==> editedContent == old(editedContent) && editCommentId == old(editCommentId) && editCommentText == old(editCommentText)
    {
      prevSaved := isSaved;
      if isSaving {
        return false, prevSaved;
      }
      isSaving := true;
      isSaved := !prevSaved;
      savedBy := SavedAfter(savedBy, !prevSaved, userId, userName);
      started := true;
    }

    /** handleSavePost after the request: a success takes the server's `isSaved` and
        `savedBy`; a failure restores `isSaved` and re-applies the old membership. */
    method FinishSave(prevSaved: bool, reply: SaveReply)
      modifies this
      ensures !isSaving
      ensures reply.SaveOk? ==> isSaved == reply.isSaved && savedBy == ItemsOr(reply.savedBy, old(savedBy))
      ensures reply.SaveFailed? ==> isSaved == prevSaved && savedBy == SavedAfter(old(savedBy), prevSaved, userId, userName)
      ensures likes == old(likes) && isLiking == old(isLiking) && lastRequestId == old(lastRequestId)
      ensures comments == old(comments) && showAllComments == old(showAllComments) && editMode == old(editMode)
      ensures editedContent == old(editedContent) && editCommentId == old(editCommentId) && editCommentText == old(editCommentText)
    {
      if reply.SaveOk? {
        if reply.savedBy.Arr? {
          savedBy := reply.savedBy.items;
        }
        isSaved := reply.isSaved;
      } else {
        isSaved := prevSaved;
        savedBy := SavedAfter(savedBy, prevSaved, userId, userName);
      }
      isSaving := false;
    }

    /** handleSaveEdit: whitespace-only content sends nothing and changes nothing; a
        successful reply replaces the local post's likes and savedBy (defaulting to [])
        and leaves edit mode. */
    method SaveEdit(reply: EditReply) returns (sent: bool)
      modifies this
      ensures sent == !IsBlank(old(editedContent))
      ensures !sent || reply.EditFailed? ==> unchanged(this)
      ensures sent && reply.EditOk? ==>
        var post := reply.post;
        && likes == (if post.Some? then ItemsOr(post.value.likes, []) else [])
        && savedBy == (if post.Some? then ItemsOr(post.value.savedBy, []) else [])
        && !editMode
        && comments == old(comments) && isSaved == old(isSaved) && isSaving == old(isSaving) && isLiking == old(isLiking)
        && lastRequestId == old(lastRequestId) && showAllComments == old(showAllComments)
        && editedContent == old(editedContent) && editCommentId == old(editCommentId) && editCommentText == old(editCommentText)
    {
      TrimEmptyIffBlank(editedContent);
      if Trim(editedContent) == "" {
        return false;
      }
      sent := true;
      if reply.EditOk? {
        var post := reply.post;
        likes := if post.Some? then ItemsOr(post.value.likes, []) else [];
        savedBy := if post.Some? then ItemsOr(post.value.savedBy, []) else [];
        editMode := false;
      }
    }

    /** The likeUpdated listener: an event for this post sets its likes, keeping the
        old array when the event's is not one. */
    method OnLikeUpdated(evPostId: string, evLikes: JsArray<LikeEntry>)
      modifies this
      ensures likes == (if evPostId == postId then ItemsOr(evLikes, old(likes)) else old(likes))
      ensures savedBy == old(savedBy) && isSaved == old(isSaved) && isSaving == old(isSaving) && isLiking == old(isLiking)
      ensures lastRequestId == old(lastRequestId) && comments == old(comments) && showAllComments == old(showAllComments)
      ensures editMode == old(editMode) && editedContent == old(editedContent)
      ensures editCommentId == old(editCommentId) && editCommentText == old(editCommentText)
    {
      if evPostId == postId {
        likes := ItemsOr(evLikes, likes);
      }
    }

    /** The postSaved listener: applied only when both the post and the user match;
        the local post becomes the event's post and `isSaved` its status. */
    method OnPostSaved(evPostId: string, evUserId: string, evIsSaved: bool, post: ClientPost)
      modifies this
      ensures !(evPostId == postId && evUserId == userId) ==> unchanged(this)
      ensures evPostId == postId && evUserId == userId ==>
        && isSaved == evIsSaved
        && likes == ItemsOr(post.likes, []) && savedBy == ItemsOr(post.savedBy, [])
        && isSaving == old(isSaving) && isLiking == old(isLiking) && lastRequestId == old(lastRequestId)
        && comments == old(comments) && showAllComments == old(showAllComments) && editMode == old(editMode)
        && editedContent == old(editedContent) && editCommentId == old(editCommentId) && editCommentText == old(editCommentText)
    {
      if evPostId == postId && evUserId == userId {
        likes := ItemsOr(post.likes, []);
        savedBy := ItemsOr(post.savedBy, []);
        isSaved := evIsSaved;
      }
    }

    /** The postUpdated listener: an update of this post replaces the local post and
        its comments and leaves edit mode with the new content in the editor. */
    method OnPostUpdated(post: ClientPost)
      modifies this
      ensures !IdIs(post.id, postId) ==> unchanged(this)
      ensures IdIs(post.id, postId) ==>
        && likes == ItemsOr(post.likes, []) && savedBy == ItemsOr(post.savedBy, [])
        && comments == ItemsOr(post.comments, []) && !editMode && editedContent == OrElse(post.content, "")
        && isSaved == old(isSaved) && isSaving == old(isSaving) && isLiking == old(isLiking)
        && lastRequestId == old(lastRequestId) && showAllComments == old(showAllComments)
        && editCommentId == old(editCommentId) && editCommentText == old(editCommentText)
    {
      if IdIs(post.id, postId) {
        likes := ItemsOr(post.likes, []);
        savedBy := ItemsOr(post.savedBy, []);
        comments := ItemsOr(post.comments, []);
        editMode := false;
        editedContent := OrElse(post.content, "");
      }
    }

    /** The commentAdded and commentDeleted listeners: an event for this post takes
        the comments of the post it carries. */
    method OnCommentsChanged(evPostId: string, post: ClientPost)
      modifies this
      ensures comments == (if evPostId == postId then ItemsOr(post.comments, []) else old(comments))
      ensures likes == old(likes) && savedBy == old(savedBy) && isSaved == old(isSaved) && isSaving == old(isSaving)
      ensures isLiking == old(isLiking) && lastRequestId == old(lastRequestId) && showAllComments == old(showAllComments)
      ensures editMode == old(editMode) && editedContent == old(editedContent)
      ensures editCommentId == old(editCommentId) && editCommentText == old(editCommentText)
    {
      if evPostId == postId {
        comments := ItemsOr(post.comments, []);
      }
    }

    /** The commentEdited listener: like the other comment events, and an edit of
        the comment being edited here also closes its editor. */
    method OnCommentEdited(evPostId: string, commentId: string, post: ClientPost)
      modifies this
      ensures evPostId != postId ==> unchanged(this)
      ensures evPostId == postId ==>
        && comments == ItemsOr(post.comments, [])
        && (old(editCommentId) == Some(commentId) ==> editCommentId.None? && editCommentText == "")
        && (old(editCommentId) != Some(commentId) ==> editCommentId == old(editCommentId) && editCommentText == old(editCommentText))
        && likes == old(likes) && savedBy == old(savedBy) && isSaved == old(isSaved) && isSaving == old(isSaving)
        && isLiking == old(isLiking) && lastRequestId == old(lastRequestId) && showAllComments == old(showAllComments)
        && editMode == old(editMode) && editedContent == old(editedContent)
    {
      if evPostId == postId {
        comments := ItemsOr(post.comments, []);
        if editCommentId == Some(commentId) {
          editCommentId := None;
          editCommentText := "";
        }
      }
    }
  }

  /** A like round trip against the real server changes the card's likes only through
      the likeUpdated broadcast: the reply itself is dropped, and once it is handled
      the card accepts the next like. */
  method LikeRoundTrip(card: Card, requestId: string, r: PostController.Reply)
    requires r.Liked? && !card.isLiking
    modifies card
    ensures card.likes == old(card.likes) && !card.isLiking && card.lastRequestId == Some(requestId)
  {
    var sent := card.StartLike(requestId);
    card.FinishLike(requestId, FromServer(r));
    ServerLikeReplyDropped(old(card.likes), requestId, r, []);
  }
}
