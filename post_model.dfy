/** The Post document of server/src/models/Post.js: its comment sub-document, the
    field constraints Mongoose applies when a post is saved, and the pre-save hook
    that refuses a reshare whose original post is gone. */
module PostModel {
  import opened Common

  type UserId = string
  type PostId = string
  type CommentId = string

  /** A comment sub-document: its own id, the commenting user and the (trimmed) text. */
  datatype Comment = Comment(id: CommentId, user: UserId, text: string)

  /** A post document. `likes` and `savedBy` are arrays of user ids; `sharedFrom`
      names the original of a reshare (default null). */
  datatype Post = Post(
    author: UserId,
    content: Option<string>,
    mediaUrl: Option<string>,
    likes: seq<UserId>,
    comments: seq<Comment>,
    sharedFrom: Option<PostId>,
    savedBy: seq<UserId>)

  const CommentMaxLength: nat := 500
  const ContentMaxLength: nat := 1000

  /** The `trim: true` setter: assigning a string stores it trimmed. */
  function SetTrimmed(s: Option<string>): (r: Option<string>)
    ensures r.None? <==> s.None?
    ensures r.Some? ==> IsTrimmed(r.value)
  {
    match s
    case None => None
    case Some(v) => TrimIdempotent(v); Some(Trim(v))
  }

  /** The comment sub-schema: `text` is required, and once trimmed has 1 to 500 characters. */
  predicate CommentValid(c: Comment)
  {
    1 <= Utf16Length(c.text) <= CommentMaxLength
  }

  /** The post schema: content is optional and has at most 1000 characters; every
      comment satisfies the comment sub-schema. */
  predicate SchemaValid(p: Post)
  {
    && (p.content.Some? ==> Utf16Length(p.content.value) <= ContentMaxLength)
    && forall i :: 0 <= i < |p.comments| ==> CommentValid(p.comments[i])
  }

  /** Why `post.save()` rejects a document. */
  datatype SaveError = ValidationFailed | OriginalMissing

  /** `post.save()` against the stored posts: schema validation first, then the
      pre-save hook, which requires a set `sharedFrom` to name a stored post. */
  function SaveCheck(posts: map<PostId, Post>, p: Post): Option<SaveError>
  {
    if !SchemaValid(p) then Some(ValidationFailed)
    else if p.sharedFrom.Some? && p.sharedFrom.value !in posts then Some(OriginalMissing)
    else None
  }

  /** Trimming leaves `s` as it is. */
  predicate IsTrimmed(s: string)
  {
    Trim(s) == s
  }

  /** Every string that went through a `trim: true` setter is stored trimmed. */
  predicate Trimmed(p: Post)
  {
    && (p.content.Some? ==> IsTrimmed(p.content.value))
    && forall i :: 0 <= i < |p.comments| ==> IsTrimmed(p.comments[i].text)
  }

  /** Every stored post satisfies the schema and holds trimmed strings. */
  predicate StoreValid(posts: map<PostId, Post>)
  {
    forall id :: id in posts ==> SchemaValid(posts[id]) && Trimmed(posts[id])
  }

  /** The index of the comment with id `cid` (`post.comments.id(cid)`), if any. */
  function CommentIndex(cs: seq<Comment>, cid: CommentId): (r: Option<nat>)
    ensures r.Some? ==> r.value < |cs| && cs[r.value].id == cid
    ensures r.Some? ==> forall j :: 0 <= j < r.value ==> cs[j].id != cid
    ensures r.None? ==> forall j :: 0 <= j < |cs| ==> cs[j].id != cid
  {
    if cs == [] then None
    else if cs[0].id == cid then Some(0)
    else match CommentIndex(cs[1..], cid)
      case None => None
      case Some(k) => Some(k + 1)
  }

  /** `post.comments.pull(cid)`: removes every comment with that id. */
  function PullComment(cs: seq<Comment>, cid: CommentId): (r: seq<Comment>)
    ensures forall i :: 0 <= i < |r| ==> r[i].id != cid && r[i] in cs
    ensures forall i :: 0 <= i < |cs| && cs[i].id != cid ==> cs[i] in r
  {
    if cs == [] then []
    else if cs[0].id == cid then PullComment(cs[1..], cid)
    else [cs[0]] + PullComment(cs[1..], cid)
  }

  /** Pulling keeps the remaining comments in their order: with unique ids, pulling
      the comment at index `k` leaves exactly the comments before and after it. */
  lemma {:induction false} PullCommentAt(cs: seq<Comment>, k: nat)
    requires k < |cs|
    requires forall i :: 0 <= i < |cs| && i != k ==> cs[i].id != cs[k].id
    ensures PullComment(cs, cs[k].id) == cs[..k] + cs[k + 1..]
  {
    var cid := cs[k].id;
    if k == 0 {
      forall i | 0 <= i < |cs[1..]| ensures cs[1..][i].id != cid {
        assert cs[1..][i] == cs[i + 1];
      }
      PullCommentAbsent(cs[1..], cid);
    } else {
      var tail := cs[1..];
      assert tail[k - 1] == cs[k];
      forall i | 0 <= i < |tail| && i != k - 1 ensures tail[i].id != tail[k - 1].id {
        assert tail[i] == cs[i + 1];
      }
      PullCommentAt(tail, k - 1);
      assert cs[0].id != cid;
      assert PullComment(cs, cid) == [cs[0]] + PullComment(tail, cid);
      assert tail[..k - 1] == cs[1..k];
      assert tail[k..] == cs[k + 1..];
      assert cs[..k] == [cs[0]] + cs[1..k];
    }
  }

  lemma {:induction false} PullCommentAbsent(cs: seq<Comment>, cid: CommentId)
    requires forall i :: 0 <= i < |cs| ==> cs[i].id != cid
    ensures PullComment(cs, cid) == cs
  {
    if cs != [] {
      PullCommentAbsent(cs[1..], cid);
      assert cs == [cs[0]] + cs[1..];
    }
  }
}
