/** The in-memory like toggle of server/src/services/post.service.js: load the post,
    filter the user out of `likes` or push the user onto it, then save. */
module PostService {
  import opened Common
  import opened PostModel
  import opened ServerStore

  /** The new `likes` array: every entry equal to `u` filtered out when `u` is
      present, otherwise `u` pushed at the end. */
  function ToggledLikes(likes: seq<UserId>, u: UserId): (r: seq<UserId>)
    ensures u in r <==> u !in likes
    ensures forall v :: v != u ==> (v in r <==> v in likes)
    ensures u !in likes ==> r == likes + [u]
  {
    if u in likes then RemoveAll(likes, u) else likes + [u]
  }

  /** Removing a user keeps every other entry in its order. */
  lemma {:induction false} ToggleOffKeepsOrder(before: seq<UserId>, after: seq<UserId>, u: UserId)
    requires u !in before && u !in after
    ensures ToggledLikes(before + [u] + after, u) == before + after
  {
    var likes := before + [u] + after;
    assert likes[|before|] == u;
    calc {
      ToggledLikes(likes, u);
      RemoveAll(likes, u);
      { RemoveAllAppend(before + [u], after, u); }
      RemoveAll(before + [u], u) + RemoveAll(after, u);
      { RemoveAllAppend(before, [u], u); }
      RemoveAll(before, u) + RemoveAll([u], u) + RemoveAll(after, u);
      { RemoveAllAbsent(before, u); RemoveAllAbsent(after, u); assert RemoveAll([u], u) == []; }
      before + [] + after;
    }
  }

  /** Two toggles by the same user always restore who has liked the post. */
  lemma TwoTogglesRestoreMembership(likes: seq<UserId>, u: UserId, v: UserId)
    ensures v in ToggledLikes(ToggledLikes(likes, u), u) <==> v in likes
  {
  }

  /** Starting from a duplicate-free list, two toggles restore the list exactly when
      the user was absent or was the most recent like. */
  lemma {:induction false} TwoTogglesRestoreList(likes: seq<UserId>, u: UserId)
    requires NoDuplicates(likes)
    ensures ToggledLikes(ToggledLikes(likes, u), u) == likes <==> u !in likes || likes[|likes| - 1] == u
  {
    if u in likes && likes[|likes| - 1] != u {
      var r := ToggledLikes(ToggledLikes(likes, u), u);
      assert u !in ToggledLikes(likes, u);
      assert r[|r| - 1] == u;
    } else if u !in likes {
      RemoveAllAppend(likes, [u], u);
      RemoveAllAbsent(likes, u);
      assert RemoveAll([u], u) == [];
    } else {
      var before := likes[..|likes| - 1];
      assert likes == before + [u] + [];
      assert u !in before by {
        forall i | 0 <= i < |before| ensures before[i] != u {
          assert before[i] == likes[i];
        }
      }
      ToggleOffKeepsOrder(before, [], u);
      assert before + [] == before;
    }
  }

  /** Otherwise the order changes: a like that is not the latest moves to the end. */
  lemma TwoTogglesReorder()
    ensures ToggledLikes(ToggledLikes(["u", "v"], "u"), "u") == ["v", "u"]
  {
    assert "u" != "v";
    assert RemoveAll(["v"], "u") == ["v"];
    assert RemoveAll(["u", "v"], "u") == ["v"];
  }

  datatype ServiceError = CastError | PostNotFound | SaveFailed(reason: SaveError)

  /** What `toggleLike({postId, userId})` does to the stored posts, and what it
      returns or throws. */
  function ToggleLikeSpec(isValidId: string -> bool, posts: map<PostId, Post>, postId: PostId, userId: UserId)
    : (map<PostId, Post>, Result<Post, ServiceError>)
  {
    if !isValidId(postId) then (posts, Err(CastError))
    else if postId !in posts then (posts, Err(PostNotFound))
    else
      var p := posts[postId].(likes := ToggledLikes(posts[postId].likes, userId));
      match SaveCheck(posts, p)
      case Some(e) => (posts, Err(SaveFailed(e)))
      case None => (posts[postId := p], Ok(p))
  }

  /** An unknown post throws "Post not found" and changes nothing; a successful
      toggle flips the user's membership, changes no other field of the post and
      no other post. */
  lemma ToggleLikeSpecOutcome(isValidId: string -> bool, posts: map<PostId, Post>, postId: PostId, userId: UserId)
    ensures var (posts', r) := ToggleLikeSpec(isValidId, posts, postId, userId);
      && (isValidId(postId) && postId !in posts ==> r == Err(PostNotFound) && posts' == posts)
      && (r.Err? ==> posts' == posts)
      && (r.Ok? ==>
            && postId in posts && posts'.Keys == posts.Keys
            && posts'[postId] == r.value
            && (userId in r.value.likes <==> userId !in posts[postId].likes)
            && r.value.(likes := posts[postId].likes) == posts[postId]
            && (forall q :: q in posts && q != postId ==> posts'[q] == posts[q]))
  {
  }

  /** `post.service.js` toggleLike on the store: only the posts collection changes. */
  method ToggleLike(db: Db, postId: PostId, userId: UserId) returns (r: Result<Post, ServiceError>)
    modifies db
    ensures (db.posts, r) == ToggleLikeSpec(db.isValidId, old(db.posts), postId, userId)
    ensures db.State() == old(db.State()).(posts := db.posts)
  {
    if !db.isValidId(postId) {
      return Err(CastError);
    }
    if postId !in db.posts {
      return Err(PostNotFound);
    }
    var post := db.posts[postId];
    if userId in post.likes {
      post := post.(likes := RemoveAll(post.likes, userId));
    } else {
      post := post.(likes := post.likes + [userId]);
    }
    var failure := SaveCheck(db.posts, post);
    if failure.Some? {
      return Err(SaveFailed(failure.value));
    }
    db.posts := db.posts[postId := post];
    r := Ok(post);
  }
}
