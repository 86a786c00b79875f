/** The shapes the React client holds for posts, comments and likes. A JSON `_id` can be
    missing, a string, or some other value, and the client tests each of these with
    `typeof` and `===`; arrays the server may leave out are told apart from real
    arrays with `Array.isArray` or `||`. */
module ClientTypes {
  import opened Common

  /** The value of an `_id` property: missing (undefined or null), a string, or
      anything else (a number, an object). */
  datatype JsId = NoId | StrId(s: string) | OtherId

  /** `!x._id || typeof x._id !== "string"` rejects exactly the ids that are not a
      non-empty string. */
  predicate ValidId(i: JsId)
  {
    i.StrId? && i.s != ""
  }

  /** `x?._id === s` for a string `s`: strict equality holds only for the same string. */
  predicate IdIs(i: JsId, s: string)
  {
    i == StrId(s)
  }

  /** A property that should hold an array: an array, or missing (undefined or null). */
  datatype JsArray<T> = Arr(items: seq<T>) | Absent

  /** `Array.isArray(a) ? a : d`, which here is also `a || d`. */
  function ItemsOr<T>(a: JsArray<T>, d: seq<T>): seq<T>
  {
    if a.Arr? then a.items else d
  }

  /** A populated reference to a user: its `_id` and `name`. */
  datatype UserRef = UserRef(id: JsId, name: Option<string>)

  datatype ClientComment = ClientComment(id: JsId, user: Option<UserRef>, text: string)

  /** An entry of a post's `likes` array: a populated object (with or without
      `_id`), a raw id string, or null. */
  datatype LikeEntry = LikeObj(id: Option<string>) | LikeRaw(value: string) | LikeNull

  /** A post as the client holds it. `likesCount` and `commentsCount` are not
      document fields; only the client's own reducers set them. */
  datatype ClientPost = ClientPost(
    id: JsId,
    author: Option<UserRef>,
    content: Option<string>,
    mediaUrl: Option<string>,
    updatedAt: Option<string>,
    likes: JsArray<LikeEntry>,
    comments: JsArray<ClientComment>,
    savedBy: JsArray<UserRef>,
    likesCount: Option<int>,
    commentsCount: Option<int>)

  /** `prev.map(p => p?._id === postId ? g(p) : p)`: the list keeps its length and
      order, a post with another id is kept as it was, and a matching one is
      replaced by its update. When no post has the id nothing changes, and an
      update that keeps ids keeps the list of ids. */
  function MapMatching(ps: seq<ClientPost>, postId: string, g: ClientPost -> ClientPost): (r: seq<ClientPost>)
    ensures |r| == |ps|
    ensures forall i :: 0 <= i < |ps| ==> r[i] == if IdIs(ps[i].id, postId) then g(ps[i]) else ps[i]
    ensures (forall i :: 0 <= i < |ps| ==> !IdIs(ps[i].id, postId)) ==> r == ps
    ensures (forall i :: 0 <= i < |ps| && IdIs(ps[i].id, postId) ==> g(ps[i]).id == ps[i].id) ==>
              forall i :: 0 <= i < |ps| ==> r[i].id == ps[i].id
  {
    seq(|ps|, i requires 0 <= i < |ps| => if IdIs(ps[i].id, postId) then g(ps[i]) else ps[i])
  }

  /** `a || b` on two optional strings. */
  function Or(a: Option<string>, b: Option<string>): Option<string>
  {
    if Truthy(a) then a else b
  }
}
