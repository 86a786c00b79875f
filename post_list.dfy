/** The feed of client/src/components/PostList.jsx: the validators it applies to
    incoming posts and comments, and the reducers that fold socket events into its
    two lists, `posts` and the search result `filteredPosts`. Each reducer replaces
    both lists wholesale with the same map or filter, so each is a function of the
    old feed. The Fuse.js search is a parameter. */
module PostList {
  import opened Common
  import opened ClientTypes

  /** `validatePost`: an object with a string `_id` and an author with a string `_id`. */
  predicate ValidatePost(p: ClientPost)
  {
    ValidId(p.id) && p.author.Some? && ValidId(p.author.value.id)
  }

  /** `validateComment`: an object with a string `_id` and a user with a string `_id`. */
  predicate ValidateComment(c: ClientComment)
  {
    ValidId(c.id) && c.user.Some? && ValidId(c.user.value.id)
  }

  /** The component's `posts` and `filteredPosts` state. */
  datatype Feed = Feed(posts: seq<ClientPost>, filtered: seq<ClientPost>)

  /** Every post the feed holds passed `validatePost`. */
  predicate FeedValid(f: Feed)
  {
    && (forall i :: 0 <= i < |f.posts| ==> ValidatePost(f.posts[i]))
    && (forall i :: 0 <= i < |f.filtered| ==> ValidatePost(f.filtered[i]))
  }

  function Prepend(f: Feed, p: ClientPost): Feed
  {
    Feed([p] + f.posts, [p] + f.filtered)
  }

  // ---------------------------------------------------------------- postCreated

  /** The post handlePostCreated stores: only valid comments are kept, and missing
      `likes` and `savedBy` arrays become []. */
  function Normalize(p: ClientPost): ClientPost
  {
    p.(comments := Arr(Filter(ItemsOr(p.comments, []), ValidateComment)),
       likes := Arr(ItemsOr(p.likes, [])),
       savedBy := Arr(ItemsOr(p.savedBy, [])))
  }

  /** handlePostCreated: an event whose post is missing or invalid is ignored;
      otherwise the normalised post is validated again and prepended to both lists. */
  function PostCreated(f: Feed, post: Option<ClientPost>): Feed
  {
    if post.None? || !ValidatePost(post.value) then f
    else
      var np := Normalize(post.value);
      if ValidatePost(np) then Prepend(f, np) else f
  }

  /** A valid created post is prepended to both lists with its id and author, only its
      valid comments in their order, and `likes`/`savedBy` defaulted to []; anything
      else leaves the feed unchanged. */
  lemma PostCreatedOutcome(f: Feed, post: Option<ClientPost>)
    ensures var r := PostCreated(f, post);
      && (post.None? || !ValidatePost(post.value) ==> r == f)
      && (post.Some? && ValidatePost(post.value) ==>
            var p := post.value;
            && |r.posts| == |f.posts| + 1 && |r.filtered| == |f.filtered| + 1
            && r.posts[1..] == f.posts && r.filtered[1..] == f.filtered
            && r.posts[0] == r.filtered[0]
            && var np := r.posts[0];
            && np.id == p.id && np.author == p.author && np.content == p.content
            && np.comments.Arr? && np.likes.Arr? && np.savedBy.Arr?
            && (forall c :: c in np.comments.items <==> p.comments.Arr? && c in p.comments.items && ValidateComment(c))
            && (p.likes.Arr? ==> np.likes == p.likes) && (p.likes.Absent? ==> np.likes == Arr([]))
            && (p.savedBy.Arr? ==> np.savedBy == p.savedBy) && (p.savedBy.Absent? ==> np.savedBy == Arr([])))
  {
  }

  // ---------------------------------------------------------------- commentAdded

  /** The comments array after updatePostsWithComment: unchanged when a comment with
      the same `_id` is present, the comment appended otherwise, and `[comment]` in
      place of a missing array. */
  function WithComment(cs: JsArray<ClientComment>, c: ClientComment): JsArray<ClientComment>
  {
    match cs
    case Absent => Arr([c])
    case Arr(xs) => if exists k :: 0 <= k < |xs| && xs[k].id == c.id then cs else Arr(xs + [c])
  }

  /** updatePostsWithComment, applied to one of the two lists. */
  function UpdatePostsWithComment(ps: seq<ClientPost>, postId: string, c: ClientComment): seq<ClientPost>
  {
    if !ValidateComment(c) then ps
    else MapMatching(ps, postId, (p: ClientPost) => p.(comments := WithComment(p.comments, c)))
  }

  /** handleCommentAdded: a falsy `postId` or an invalid comment is ignored. */
  function CommentAdded(f: Feed, postId: string, comment: Option<ClientComment>): Feed
  {
    if postId == "" || comment.None? || !ValidateComment(comment.value) then f
    else Feed(UpdatePostsWithComment(f.posts, postId, comment.value),
              UpdatePostsWithComment(f.filtered, postId, comment.value))
  }

  lemma WithCommentIdempotent(cs: JsArray<ClientComment>, c: ClientComment)
    ensures WithComment(WithComment(cs, c), c) == WithComment(cs, c)
  {
    var once := WithComment(cs, c);
    assert once.items[|once.items| - 1].id == c.id || exists k :: 0 <= k < |once.items| && once.items[k].id == c.id;
  }

  /** Delivering the same comment twice has the effect of delivering it once. */
  lemma {:induction false} UpdatePostsWithCommentIdempotent(ps: seq<ClientPost>, postId: string, c: ClientComment)
    ensures UpdatePostsWithComment(UpdatePostsWithComment(ps, postId, c), postId, c)
            == UpdatePostsWithComment(ps, postId, c)
  {
    var once := UpdatePostsWithComment(ps, postId, c);
    var twice := UpdatePostsWithComment(once, postId, c);
    if ValidateComment(c) {
      forall i | 0 <= i < |ps| ensures twice[i] == once[i] {
        if IdIs(ps[i].id, postId) {
          WithCommentIdempotent(ps[i].comments, c);
        }
      }
    }
  }

  /** A valid comment ends up exactly once-appended in the matching posts: it is
      appended when no comment there has its `_id`, the list is kept when one does, and
      a missing list becomes `[comment]`. Every other post is untouched. */
  lemma UpdatePostsWithCommentOutcome(ps: seq<ClientPost>, postId: string, c: ClientComment)
    requires ValidateComment(c)
    ensures var r := UpdatePostsWithComment(ps, postId, c);
      && |r| == |ps|
      && forall i :: 0 <= i < |ps| ==>
           && (!IdIs(ps[i].id, postId) ==> r[i] == ps[i])
           && (IdIs(ps[i].id, postId) ==>
                 && r[i] == ps[i].(comments := r[i].comments)
                 && r[i].comments.Arr?
                 && (exists k :: 0 <= k < |r[i].comments.items| && r[i].comments.items[k].id == c.id)
                 && (ps[i].comments.Absent? ==> r[i].comments.items == [c])
                 && ((ps[i].comments.Arr? && (forall k :: 0 <= k < |ps[i].comments.items| ==> ps[i].comments.items[k].id != c.id))
                       ==> r[i].comments.items == ps[i].comments.items + [c])
                 && ((ps[i].comments.Arr? && (exists k :: 0 <= k < |ps[i].comments.items| && ps[i].comments.items[k].id == c.id))
                       ==> r[i].comments == ps[i].comments))
  {
    var r := UpdatePostsWithComment(ps, postId, c);
    forall i | 0 <= i < |ps| && IdIs(ps[i].id, postId)
      ensures exists k :: 0 <= k < |r[i].comments.items| && r[i].comments.items[k].id == c.id
    {
      var items := r[i].comments.items;
      assert items[|items| - 1].id == c.id || exists k :: 0 <= k < |items| && items[k].id == c.id;
    }
  }

  // ---------------------------------------------------------------- commentEdited

  /** `comments.map(c => c?._id === comment._id ? comment : c)`: the comments keep
      their ids in order, every comment with the edited one's id becomes the edited
      comment, the others are kept, and an edit whose id no comment has changes
      nothing. */
  function ReplaceComment(xs: seq<ClientComment>, c: ClientComment): (r: seq<ClientComment>)
    ensures |r| == |xs|
    ensures forall k :: 0 <= k < |xs| ==> r[k].id == xs[k].id
    ensures forall k :: 0 <= k < |xs| ==> r[k] == if xs[k].id == c.id then c else xs[k]
    ensures (exists k :: 0 <= k < |xs| && xs[k].id == c.id) ==> c in r
    ensures (forall k :: 0 <= k < |xs| ==> xs[k].id != c.id) ==> r == xs
  {
    seq(|xs|, k requires 0 <= k < |xs| => if xs[k].id == c.id then c else xs[k])
  }

  /** editCommentInPosts, applied to one of the two lists; a missing comments array
      of the matching post becomes []. */
  function EditCommentInPosts(ps: seq<ClientPost>, postId: string, c: ClientComment): seq<ClientPost>
  {
    if !ValidateComment(c) then ps
    else MapMatching(ps, postId, (p: ClientPost) => p.(comments := Arr(ReplaceComment(ItemsOr(p.comments, []), c))))
  }

  /** handleCommentEdited: reads a `comment` from the event and ignores the event
      unless it is valid. The server's commentEdited event carries `commentId` and
      `text` but no `comment`, so the feed never changes on it. */
  function CommentEdited(f: Feed, postId: string, comment: Option<ClientComment>): (r: Feed)
    ensures comment.None? ==> r == f
  {
    if postId == "" || comment.None? || !ValidateComment(comment.value) then f
    else Feed(EditCommentInPosts(f.posts, postId, comment.value),
              EditCommentInPosts(f.filtered, postId, comment.value))
  }

  /** In the matching posts every comment with the edited comment's `_id` is replaced
      by it and every other comment stays where it was; other posts are untouched. */
  lemma EditCommentInPostsOutcome(ps: seq<ClientPost>, postId: string, c: ClientComment)
    requires ValidateComment(c)
    ensures var r := EditCommentInPosts(ps, postId, c);
      && |r| == |ps|
      && forall i :: 0 <= i < |ps| ==>
           && (!IdIs(ps[i].id, postId) ==> r[i] == ps[i])
           && (IdIs(ps[i].id, postId) ==>
                 && r[i] == ps[i].(comments := r[i].comments)
                 && r[i].comments.Arr?
                 && (ps[i].comments.Absent? ==> r[i].comments.items == [])
                 && (ps[i].comments.Arr? ==>
                       && |r[i].comments.items| == |ps[i].comments.items|
                       && forall k :: 0 <= k < |ps[i].comments.items| ==>
                            (ps[i].comments.items[k].id == c.id ==> r[i].comments.items[k] == c)
                            && (ps[i].comments.items[k].id != c.id ==> r[i].comments.items[k] == ps[i].comments.items[k])))
  {
  }

  // ---------------------------------------------------------------- commentDeleted

  /** `comments.filter(c => c?._id !== commentId)`. */
  function WithoutComment(xs: seq<ClientComment>, commentId: string): seq<ClientComment>
  {
    Filter(xs, (c: ClientComment) => !IdIs(c.id, commentId))
  }

  /** deleteCommentInPosts, applied to one of the two lists. */
  function DeleteCommentInPosts(ps: seq<ClientPost>, postId: string, commentId: string): seq<ClientPost>
  {
    if postId == "" || commentId == "" then ps
    else MapMatching(ps, postId, (p: ClientPost) => p.(comments := Arr(WithoutComment(ItemsOr(p.comments, []), commentId))))
  }

  /** handleCommentDeleted: both ids must be truthy. */
  function CommentDeleted(f: Feed, postId: string, commentId: string): Feed
  {
    if postId == "" || commentId == "" then f
    else Feed(DeleteCommentInPosts(f.posts, postId, commentId), DeleteCommentInPosts(f.filtered, postId, commentId))
  }

  /** The matching posts keep exactly their comments whose `_id` is not the deleted
      one; every other post is untouched. */
  lemma DeleteCommentInPostsOutcome(ps: seq<ClientPost>, postId: string, commentId: string)
    requires postId != "" && commentId != ""
    ensures var r := DeleteCommentInPosts(ps, postId, commentId);
      && |r| == |ps|
      && forall i :: 0 <= i < |ps| ==>
           && (!IdIs(ps[i].id, postId) ==> r[i] == ps[i])
           && (IdIs(ps[i].id, postId) ==>
                 && r[i] == ps[i].(comments := r[i].comments)
                 && r[i].comments.Arr?
                 && (forall c :: c in r[i].comments.items <==>
                       ps[i].comments.Arr? && c in ps[i].comments.items && !IdIs(c.id, commentId)))
  {
  }

  // ---------------------------------------------------------------- likeUpdated

  /** updateLikesInPosts, applied to one of the two lists. */
  function UpdateLikesInPosts(ps: seq<ClientPost>, postId: string, likes: JsArray<LikeEntry>): seq<ClientPost>
  {
    if postId == "" || likes.Absent? then ps
    else MapMatching(ps, postId, (p: ClientPost) => p.(likes := likes))
  }

  /** handleLikeUpdated: the event's `likes` must be an array. */
  function LikeUpdated(f: Feed, postId: string, likes: JsArray<LikeEntry>): Feed
  {
    if postId == "" || likes.Absent? then f
    else Feed(UpdateLikesInPosts(f.posts, postId, likes), UpdateLikesInPosts(f.filtered, postId, likes))
  }

  /** The matching posts take the event's likes array wholesale and nothing else
      changes; a missing array changes nothing at all. */
  lemma LikeUpdatedOutcome(f: Feed, postId: string, likes: JsArray<LikeEntry>)
    ensures var r := LikeUpdated(f, postId, likes);
      && (likes.Absent? || postId == "" ==> r == f)
      && (likes.Arr? && postId != "" ==>
            && |r.posts| == |f.posts| && |r.filtered| == |f.filtered|
            && (forall i :: 0 <= i < |f.posts| ==>
                  r.posts[i] == if IdIs(f.posts[i].id, postId) then f.posts[i].(likes := likes) else f.posts[i])
            && (forall i :: 0 <= i < |f.filtered| ==>
                  r.filtered[i] == if IdIs(f.filtered[i].id, postId) then f.filtered[i].(likes := likes) else f.filtered[i]))
  {
  }

  // ---------------------------------------------------------------- postUpdated, postDeleted, resharePost

  /** The fields handlePostUpdated takes from the event's post: a falsy content,
      updatedAt or mediaUrl keeps the old value. */
  function Edited(p: ClientPost, post: ClientPost): ClientPost
  {
    p.(content := Or(post.content, p.content),
       updatedAt := Or(post.updatedAt, p.updatedAt),
       mediaUrl := Or(post.mediaUrl, p.mediaUrl))
  }

  /** handlePostUpdated: an invalid post is ignored; otherwise the posts with its
      `_id` take its truthy content, updatedAt and mediaUrl. */
  function PostUpdated(f: Feed, post: Option<ClientPost>): Feed
  {
    if post.None? || !ValidatePost(post.value) then f
    else
      var q := post.value;
      Feed(MapMatching(f.posts, q.id.s, (p: ClientPost) => Edited(p, q)), MapMatching(f.filtered, q.id.s, (p: ClientPost) => Edited(p, q)))
  }

  /** An invalid post changes nothing. A valid one changes only the posts with its
      `_id`, in both lists: each keeps its id, author, likes and comments and takes
      the event's content, updatedAt and mediaUrl where those are non-empty. */
  lemma PostUpdatedOutcome(f: Feed, post: Option<ClientPost>)
    ensures post.None? || !ValidatePost(post.value) ==> PostUpdated(f, post) == f
    ensures post.Some? && ValidatePost(post.value) ==>
      var r := PostUpdated(f, post);
      var q := post.value;
      && |r.posts| == |f.posts| && |r.filtered| == |f.filtered|
      && (forall i :: 0 <= i < |f.posts| && f.posts[i].id != q.id ==> r.posts[i] == f.posts[i])
      && (forall i :: 0 <= i < |f.filtered| && f.filtered[i].id != q.id ==> r.filtered[i] == f.filtered[i])
      && (forall i :: 0 <= i < |f.posts| && f.posts[i].id == q.id ==>
            && r.posts[i].id == q.id && r.posts[i].author == f.posts[i].author
            && r.posts[i].likes == f.posts[i].likes && r.posts[i].comments == f.posts[i].comments
            && (Truthy(q.content) ==> r.posts[i].content == q.content)
            && (!Truthy(q.content) ==> r.posts[i].content == f.posts[i].content)
            && (Truthy(q.mediaUrl) ==> r.posts[i].mediaUrl == q.mediaUrl)
            && (!Truthy(q.mediaUrl) ==> r.posts[i].mediaUrl == f.posts[i].mediaUrl))
  {
  }

  /** handlePostDeleted: `prev.filter(post => post?._id !== postId)` on both lists. */
  function PostDeleted(f: Feed, postId: string): Feed
  {
    if postId == "" then f
    else
      var keep := (p: ClientPost) => !IdIs(p.id, postId);
      Feed(Filter(f.posts, keep), Filter(f.filtered, keep))
  }

  /** After a postDeleted event neither list holds a post with that id, and every
      other post of each list is still there. */
  lemma PostDeletedOutcome(f: Feed, postId: string)
    requires postId != ""
    ensures var r := PostDeleted(f, postId);
      && (forall p :: p in r.posts <==> p in f.posts && !IdIs(p.id, postId))
      && (forall p :: p in r.filtered <==> p in f.filtered && !IdIs(p.id, postId))
      && ((forall i :: 0 <= i < |f.posts| ==> !IdIs(f.posts[i].id, postId)) ==> r.posts == f.posts)
  {
  }

  /** handleResharePost: a valid post is prepended to both lists as received. */
  function ResharePost(f: Feed, post: Option<ClientPost>): Feed
  {
    if post.None? || !ValidatePost(post.value) then f else Prepend(f, post.value)
  }

  /** A valid reshared post goes, unchanged, to the front of both lists; anything
      else is ignored. */
  lemma ResharePostOutcome(f: Feed, post: Option<ClientPost>)
    ensures post.Some? && ValidatePost(post.value) ==>
      ResharePost(f, post) == Feed([post.value] + f.posts, [post.value] + f.filtered)
    ensures post.None? || !ValidatePost(post.value) ==> ResharePost(f, post) == f
  {
  }

  // ---------------------------------------------------------------- search

  /** handleSearch: a blank query (or a non-string one) shows the whole list again;
      any other query shows what the fuzzy search `fuse` returns for the list. */
  function Search(f: Feed, query: Option<string>, fuse: seq<ClientPost> -> seq<ClientPost>): (r: Feed)
    ensures r.posts == f.posts
    ensures IsBlank(OrElse(query, "")) ==> r.filtered == f.posts
    ensures !IsBlank(OrElse(query, "")) ==> r.filtered == fuse(f.posts)
  {
    var text := if query.Some? then query.value else "";
    if IsBlank(text) then f.(filtered := f.posts) else f.(filtered := fuse(f.posts))
  }

  // ---------------------------------------------------------------- the feed invariant

  lemma MapMatchingKeepsFeedValid(f: Feed, postId: string, g: ClientPost -> ClientPost)
    requires FeedValid(f)
    requires forall p :: ValidatePost(p) ==> g(p).id == p.id && g(p).author == p.author
    ensures FeedValid(Feed(MapMatching(f.posts, postId, g), MapMatching(f.filtered, postId, g)))
  {
  }

  /** Every socket handler keeps the feed free of posts that fail `validatePost`:
      created and reshared posts are validated first, and the other handlers never
      change a post's `_id` or author. */
  lemma CreatingKeepsFeedValid(f: Feed, post: Option<ClientPost>)
    requires FeedValid(f)
    ensures FeedValid(PostCreated(f, post))
    ensures FeedValid(ResharePost(f, post))
  {
  }

  lemma CommentHandlersKeepFeedValid(f: Feed, postId: string, commentId: string, comment: Option<ClientComment>)
    requires FeedValid(f)
    ensures FeedValid(CommentAdded(f, postId, comment))
    ensures FeedValid(CommentEdited(f, postId, comment))
    ensures FeedValid(CommentDeleted(f, postId, commentId))
  {
    if comment.Some? && ValidateComment(comment.value) {
      var c := comment.value;
      MapMatchingKeepsFeedValid(f, postId, (p: ClientPost) => p.(comments := WithComment(p.comments, c)));
      MapMatchingKeepsFeedValid(f, postId, (p: ClientPost) => p.(comments := Arr(ReplaceComment(ItemsOr(p.comments, []), c))));
    }
    MapMatchingKeepsFeedValid(f, postId, (p: ClientPost) => p.(comments := Arr(WithoutComment(ItemsOr(p.comments, []), commentId))));
  }

  lemma PostHandlersKeepFeedValid(f: Feed, post: Option<ClientPost>, postId: string, likes: JsArray<LikeEntry>)
    requires FeedValid(f)
    ensures FeedValid(LikeUpdated(f, postId, likes))
    ensures FeedValid(PostUpdated(f, post))
    ensures FeedValid(PostDeleted(f, postId))
  {
    MapMatchingKeepsFeedValid(f, postId, (p: ClientPost) => p.(likes := likes));
    if post.Some? && ValidatePost(post.value) {
      var q := post.value;
      MapMatchingKeepsFeedValid(f, q.id.s, (p: ClientPost) => Edited(p, q));
    }
    var r := PostDeleted(f, postId);
    forall i | 0 <= i < |r.posts| ensures ValidatePost(r.posts[i]) {
      assert r.posts[i] in f.posts;
    }
    forall i | 0 <= i < |r.filtered| ensures ValidatePost(r.filtered[i]) {
      assert r.filtered[i] in f.filtered;
    }
  }

  /** A search keeps the feed valid as long as the fuzzy search only returns posts of
      the list it is given. */
  lemma SearchKeepsFeedValid(f: Feed, query: Option<string>, fuse: seq<ClientPost> -> seq<ClientPost>)
    requires FeedValid(f)
    requires forall p :: p in fuse(f.posts) ==> p in f.posts
    ensures FeedValid(Search(f, query, fuse))
  {
    var r := Search(f, query, fuse);
    forall i | 0 <= i < |r.filtered| ensures ValidatePost(r.filtered[i]) {
      assert r.filtered[i] in f.posts;
    }
  }
}
