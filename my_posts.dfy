/** The list of client/src/components/MyPosts.jsx: the signed-in user's own posts,
    kept current by socket handlers that each map or filter the previous array. Unlike
    the feed, these handlers validate nothing, do not deduplicate comments, and keep
    their own `likesCount` and `commentsCount`. */
module MyPosts {
  import opened Common
  import opened ClientTypes

  /** The post's author is the user with id `uid`. */
  predicate AuthoredBy(p: ClientPost, uid: string)
  {
    p.author.Some? && IdIs(p.author.value.id, uid)
  }

  /** handlePostCreated: prepends the post when its author is the user. A post without
      an author makes the handler throw, which leaves the list as it was. So the list
      grows by at most one post, at the front, exactly when the user wrote it; the
      earlier posts follow in their order; and a list of the user's own posts stays
      one. */
  function OnPostCreated(ps: seq<ClientPost>, uid: string, post: ClientPost): (r: seq<ClientPost>)
    ensures |ps| <= |r| <= |ps| + 1 && r[|r| - |ps|..] == ps
    ensures |r| == |ps| + 1 <==> AuthoredBy(post, uid)
    ensures |r| == |ps| + 1 ==> r[0] == post
    ensures (forall i :: 0 <= i < |ps| ==> AuthoredBy(ps[i], uid)) ==> forall i :: 0 <= i < |r| ==> AuthoredBy(r[i], uid)
  {
    if post.author.Some? && IdIs(post.author.value.id, uid) then [post] + ps else ps
  }

  /** `{...p, content, updatedAt, ...post}`: the event's post, when it carries one,
      overrides every document field, and only the client's own counters survive. */
  function Updated(p: ClientPost, content: Option<string>, updatedAt: Option<string>, post: Option<ClientPost>): ClientPost
  {
    if post.Some? then post.value.(likesCount := p.likesCount, commentsCount := p.commentsCount)
    else p.(content := content, updatedAt := updatedAt)
  }

  /** handlePostUpdated. */
  function OnPostUpdated(ps: seq<ClientPost>, postId: string, content: Option<string>, updatedAt: Option<string>,
                         post: Option<ClientPost>): seq<ClientPost>
  {
    MapMatching(ps, postId, (p: ClientPost) => Updated(p, content, updatedAt, post))
  }

  /** postUpdated changes only the posts with the event's `postId`. With a post in the
      event a matching entry becomes that post, keeping only its own two counters;
      without one it takes the event's content and updatedAt, missing ones included. */
  lemma OnPostUpdatedOutcome(ps: seq<ClientPost>, postId: string, content: Option<string>, updatedAt: Option<string>,
                             post: Option<ClientPost>)
    ensures var r := OnPostUpdated(ps, postId, content, updatedAt, post);
      && |r| == |ps|
      && forall i :: 0 <= i < |ps| ==>
           && (!IdIs(ps[i].id, postId) ==> r[i] == ps[i])
           && (IdIs(ps[i].id, postId) && post.Some? ==>
                 r[i] == post.value.(likesCount := ps[i].likesCount, commentsCount := ps[i].commentsCount))
           && (IdIs(ps[i].id, postId) && post.None? ==>
                 r[i] == ps[i].(content := content, updatedAt := updatedAt))
  {
  }

  /** handlePostDeleted: `prev.filter(post => post._id !== postId)`. */
  function OnPostDeleted(ps: seq<ClientPost>, postId: string): seq<ClientPost>
  {
    Filter(ps, (p: ClientPost) => !IdIs(p.id, postId))
  }

  /** postDeleted removes exactly the posts with that id and keeps the rest in order;
      deleting an id the list does not hold changes nothing. */
  lemma OnPostDeletedOutcome(ps: seq<ClientPost>, postId: string)
    ensures forall p :: p in OnPostDeleted(ps, postId) <==> p in ps && !IdIs(p.id, postId)
    ensures (forall i :: 0 <= i < |ps| ==> !IdIs(ps[i].id, postId)) ==> OnPostDeleted(ps, postId) == ps
    ensures OnPostDeleted(OnPostDeleted(ps, postId), postId) == OnPostDeleted(ps, postId)
  {
    var once := OnPostDeleted(ps, postId);
    assert forall i :: 0 <= i < |once| ==> !IdIs(once[i].id, postId);
  }

  /** handleLikeUpdated: the matching post takes the event's `likes` and `likesCount`. */
  function OnLikeUpdated(ps: seq<ClientPost>, postId: string, likes: JsArray<LikeEntry>, likesCount: Option<int>)
    : seq<ClientPost>
  {
    MapMatching(ps, postId, (p: ClientPost) => p.(likes := likes, likesCount := likesCount))
  }

  /** Only the matching posts change, and only in `likes` and `likesCount`. The
      server's likeUpdated event carries no `likesCount`, so on a real event the
      matching posts lose their count. */
  lemma OnLikeUpdatedOutcome(ps: seq<ClientPost>, postId: string, likes: JsArray<LikeEntry>, likesCount: Option<int>)
    ensures var r := OnLikeUpdated(ps, postId, likes, likesCount);
      && |r| == |ps|
      && forall i :: 0 <= i < |ps| ==>
           && (!IdIs(ps[i].id, postId) ==> r[i] == ps[i])
           && (IdIs(ps[i].id, postId) ==>
                 r[i].likes == likes && r[i].likesCount == likesCount
                 && r[i].(likes := ps[i].likes, likesCount := ps[i].likesCount) == ps[i])
  {
  }

  /** `(count || 0) + 1`. */
  function CountAfterAdd(count: Option<int>): int
  {
    (if count.Some? && count.value != 0 then count.value else 0) + 1
  }

  /** `Math.max((count || 1) - 1, 0)`. */
  function CountAfterDelete(count: Option<int>): (r: int)
    ensures r >= 0
  {
    var c := if count.Some? && count.value != 0 then count.value else 1;
    if c - 1 > 0 then c - 1 else 0
  }

  /** handleCommentAdded: appends the comment, without looking for a copy, and counts it. */
  function OnCommentAdded(ps: seq<ClientPost>, postId: string, comment: ClientComment): seq<ClientPost>
  {
    MapMatching(ps, postId, (p: ClientPost) =>
      p.(comments := Arr(ItemsOr(p.comments, []) + [comment]), commentsCount := Some(CountAfterAdd(p.commentsCount))))
  }

  /** `comments?.map(c => c._id === commentId ? {...c, text} : c)`. */
  function EditText(cs: JsArray<ClientComment>, commentId: string, text: string): JsArray<ClientComment>
  {
    match cs
    case Absent => Absent
    case Arr(xs) => Arr(seq(|xs|, k requires 0 <= k < |xs| => if IdIs(xs[k].id, commentId) then xs[k].(text := text) else xs[k]))
  }

  /** handleCommentEdited. */
  function OnCommentEdited(ps: seq<ClientPost>, postId: string, commentId: string, text: string): seq<ClientPost>
  {
    MapMatching(ps, postId, (p: ClientPost) => p.(comments := EditText(p.comments, commentId, text)))
  }

  /** `comments?.filter(c => c._id !== commentId)`. */
  function DropComment(cs: JsArray<ClientComment>, commentId: string): JsArray<ClientComment>
  {
    match cs
    case Absent => Absent
    case Arr(xs) => Arr(Filter(xs, (c: ClientComment) => !IdIs(c.id, commentId)))
  }

  /** handleCommentDeleted. */
  function OnCommentDeleted(ps: seq<ClientPost>, postId: string, commentId: string): seq<ClientPost>
  {
    MapMatching(ps, postId, (p: ClientPost) =>
      p.(comments := DropComment(p.comments, commentId), commentsCount := Some(CountAfterDelete(p.commentsCount))))
  }

  /** The count after a delete is one less than a positive count and never negative;
      a missing or zero count becomes 0. */
  lemma CountAfterDeleteSpec(count: Option<int>)
    ensures count.Some? && count.value >= 1 ==> CountAfterDelete(count) == count.value - 1
    ensures count.None? || count.value <= 1 ==> CountAfterDelete(count) == 0
    ensures CountAfterDelete(Some(CountAfterAdd(count))) == (if count.Some? && count.value >= 0 then count.value else 0)
  {
  }

  /** A commentAdded event delivered twice adds two copies and counts two. */
  lemma CommentAddedTwice(ps: seq<ClientPost>, postId: string, comment: ClientComment, i: nat)
    requires i < |ps| && IdIs(ps[i].id, postId)
    ensures var r := OnCommentAdded(OnCommentAdded(ps, postId, comment), postId, comment);
      && r[i].comments == Arr(ItemsOr(ps[i].comments, []) + [comment, comment])
      && r[i].commentsCount == Some(CountAfterAdd(Some(CountAfterAdd(ps[i].commentsCount))))
  {
    var once := OnCommentAdded(ps, postId, comment);
    assert once[i].comments == Arr(ItemsOr(ps[i].comments, []) + [comment]);
    assert ItemsOr(ps[i].comments, []) + [comment] + [comment] == ItemsOr(ps[i].comments, []) + [comment, comment];
  }

  /** Adding a comment with a new id and then deleting it gives back the post's
      comments and a non-negative count. */
  lemma AddThenDeleteRestores(ps: seq<ClientPost>, postId: string, comment: ClientComment, commentId: string, i: nat)
    requires comment.id == StrId(commentId)
    requires i < |ps| && IdIs(ps[i].id, postId) && ps[i].comments.Arr?
    requires forall k :: 0 <= k < |ps[i].comments.items| ==> !IdIs(ps[i].comments.items[k].id, commentId)
    ensures var r := OnCommentDeleted(OnCommentAdded(ps, postId, comment), postId, commentId);
      && |r| == |ps|
      && r[i].comments == ps[i].comments
      && (ps[i].commentsCount.Some? && ps[i].commentsCount.value >= 0 ==> r[i].commentsCount == ps[i].commentsCount)
      && (forall j :: 0 <= j < |ps| && !IdIs(ps[j].id, postId) ==> r[j] == ps[j])
  {
    var xs := ps[i].comments.items;
    var keep := (c: ClientComment) => !IdIs(c.id, commentId);
    assert Filter(xs, keep) == xs;
    FilterAppendOne(xs, comment, keep);
  }

  /** commentEdited changes the text, and nothing else, of exactly the comments with
      that id in the matching posts; a post without a comments array keeps none. */
  lemma OnCommentEditedOutcome(ps: seq<ClientPost>, postId: string, commentId: string, text: string)
    ensures var r := OnCommentEdited(ps, postId, commentId, text);
      && |r| == |ps|
      && forall i :: 0 <= i < |ps| ==>
           && (!IdIs(ps[i].id, postId) ==> r[i] == ps[i])
           && (IdIs(ps[i].id, postId) ==>
                 && r[i] == ps[i].(comments := r[i].comments)
                 && (ps[i].comments.Absent? ==> r[i].comments.Absent?)
                 && (ps[i].comments.Arr? ==>
                       && r[i].comments.Arr? && |r[i].comments.items| == |ps[i].comments.items|
                       && forall k :: 0 <= k < |ps[i].comments.items| ==>
                            var c := ps[i].comments.items[k];
                            r[i].comments.items[k] == (if IdIs(c.id, commentId) then c.(text := text) else c)))
  {
  }
}
