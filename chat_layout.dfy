/** The chat page of client/src/components/ChatLayout.jsx: which message content is
    treated as an image, the per-user preview of the latest message, presence,
    the user search, and selecting a user. */
module ChatLayout {
  import opened Common
  import opened ClientTypes
  import opened ChatEngine

  /** An entry of the `/users` list: its `_id` and `name`, either possibly missing. */
  datatype ChatUser = ChatUser(id: Option<string>, name: Option<string>)

  /** The file extensions that mark a URL as an image. */
  const ImageExtensions: seq<string> := [".jpg", ".jpeg", ".png", ".gif", ".webp"]

  /** isImageUrl: a non-empty string that, lowercased, ends with an image extension,
      contains "/image/" or "cloudinary", or contains "http" and an image extension
      anywhere. */
  predicate IsImageUrl(s: string)
  {
    var l := Lower(s);
    s != "" &&
    ((exists e | e in ImageExtensions :: EndsWith(l, e))
     || Contains(l, "/image/")
     || Contains(l, "cloudinary")
     || (Contains(l, "http") && exists e | e in ImageExtensions :: Contains(l, e)))
  }

  lemma LowerIdempotent(s: string)
    ensures Lower(Lower(s)) == Lower(s)
  {
  }

  /** The empty string is never an image; the test ignores case; each extension at
      the end, "/image/" or "cloudinary" anywhere makes any string an image; an
      extension in the middle counts only next to "http". */
  lemma IsImageUrlSpec(s: string)
    ensures !IsImageUrl("")
    ensures IsImageUrl(s) == IsImageUrl(Lower(s))
    ensures forall e | e in ImageExtensions :: EndsWith(Lower(s), e) ==> IsImageUrl(s)
    ensures Contains(Lower(s), "/image/") || Contains(Lower(s), "cloudinary") ==> IsImageUrl(s)
    ensures IsImageUrl("HTTP://X/A.PNG?w=1") && !IsImageUrl("a.png?w=1")
  {
    LowerIdempotent(s);
    assert |Lower(s)| == |s|;
    var withHttp := "HTTP://X/A.PNG?w=1";
    assert Lower(withHttp) == "http://x/a.png?w=1";
    assert OccursAt(Lower(withHttp), "http", 0);
    assert OccursAt(Lower(withHttp), ".png", 10);
    assert ImageExtensions[2] == ".png" && Contains(Lower(withHttp), ImageExtensions[2]);
    assert Contains(Lower(withHttp), "http");
    var bare := "a.png?w=1";
    assert Lower(bare) == bare;
    NotContainedIn(bare, "http");
    NotContainedIn(bare, "/image/");
    NotContainedIn(bare, "cloudinary");
    forall e | e in ImageExtensions
      ensures !EndsWith(bare, e)
    {
      assert bare[|bare| - 4..] == "?w=1";
    }
  }

  /** A text that does not hold the first character of `t` does not contain `t`. */
  lemma NotContainedIn(s: string, t: string)
    requires t != [] && t[0] !in s
    ensures !Contains(s, t)
  {
    forall i | 0 <= i <= |s| - |t|
      ensures !OccursAt(s, t, i)
    {
      assert s[i..i + |t|][0] == s[i];
    }
  }

  /** What handleReceive stores as the preview: "[IMAGE]" for an image, the content
      otherwise. */
  function PreviewText(msg: ChatMessage): string
  {
    if msg.isImage || IsImageUrl(msg.content) then "[IMAGE]" else msg.content
  }

  /** The property name a sender becomes in `{[message.sender]: ...}`: a string
      stays itself, an object is converted to "[object Object]". */
  function SenderKey(u: JsUser): string
  {
    match u
    case UserIdStr(s) => s
    case UserObj(_, _) => "[object Object]"
  }

  /** The receiveMessage listener's update of recentMessages. */
  function OnReceive(recent: map<string, string>, msg: ChatMessage): map<string, string>
  {
    var p := PreviewText(msg);
    recent[SenderKey(msg.sender) := p][msg.receiver := p]
  }

  /** The preview is "[IMAGE]" exactly for an image message or a text that is itself
      "[IMAGE]"; it is stored under the receiver and under the sender's key, and no
      other entry changes. */
  lemma OnReceiveOutcome(recent: map<string, string>, msg: ChatMessage)
    ensures PreviewText(msg) == "[IMAGE]" <==> msg.isImage || IsImageUrl(msg.content) || msg.content == "[IMAGE]"
    ensures var r := OnReceive(recent, msg);
      && r[msg.receiver] == PreviewText(msg) && r[SenderKey(msg.sender)] == PreviewText(msg)
      && r.Keys == recent.Keys + {msg.receiver, SenderKey(msg.sender)}
      && forall k | k in recent && k != msg.receiver && k != SenderKey(msg.sender) :: r[k] == recent[k]
  {
  }

  /** A message broadcast with a populated sender updates the preview of its
      receiver and of the key "[object Object]", never the sender's own entry: when
      the partner writes to the user, the partner's row keeps its old preview. A
      string sender would update it. */
  lemma PopulatedSenderMissesPreview(recent: map<string, string>, me: string, partner: string,
                                     name: Option<string>, msg: ChatMessage)
    requires msg.sender == UserObj(partner, name) && msg.receiver == me
    requires partner != me && partner != "[object Object]"
    ensures var r := OnReceive(recent, msg);
      && (partner in r <==> partner in recent)
      && (partner in recent ==> r[partner] == recent[partner])
      && r[me] == PreviewText(msg)
    ensures OnReceive(recent, msg.(sender := UserIdStr(partner)))[partner] == PreviewText(msg)
  {
  }

  /** `xs.some(u => u?._id === id)`. */
  function AnyIdIs(xs: seq<Option<string>>, id: Option<string>): (r: bool)
    ensures r <==> exists k :: 0 <= k < |xs| && xs[k] == id
  {
    if xs == [] then false else xs[0] == id || AnyIdIs(xs[1..], id)
  }

  /** isOnline: false without a list or an id, otherwise whether some online entry
      has that id. `online` holds each entry's `_id`. */
  function IsOnline(online: JsArray<Option<string>>, userId: Option<string>): (r: bool)
    ensures r <==> Truthy(userId) && online.Arr? && exists k :: 0 <= k < |online.items| && online.items[k] == userId
  {
    Truthy(userId) && online.Arr? && AnyIdIs(online.items, userId)
  }

  /** `u?.name?.toLowerCase().includes(search.toLowerCase())`. */
  predicate NameMatches(u: ChatUser, search: string)
  {
    u.name.Some? && Contains(Lower(u.name.value), Lower(search))
  }

  /** filteredUsers. */
  function FilterUsers(users: seq<ChatUser>, search: string): seq<ChatUser>
  {
    Filter(users, (u: ChatUser) => NameMatches(u, search))
  }

  /** The filter keeps exactly the named users whose name contains the search text,
      ignoring case; an empty search keeps every named user, in order. */
  lemma FilterUsersOutcome(users: seq<ChatUser>, search: string)
    ensures forall u :: u in FilterUsers(users, search) <==>
      u in users && u.name.Some? && Contains(Lower(u.name.value), Lower(search))
    ensures forall u | u in FilterUsers(users, search) :: u.name.Some?
    ensures search == "" ==> FilterUsers(users, search) == Filter(users, (u: ChatUser) => u.name.Some?)
  {
    if search == "" {
      forall u: ChatUser | u.name.Some?
        ensures NameMatches(u, search)
      {
        assert OccursAt(Lower(u.name.value), "", 0);
      }
      FilterSameKeep(users, (u: ChatUser) => NameMatches(u, search), (u: ChatUser) => u.name.Some?);
    }
  }

  /** Two tests that agree on every element filter alike. */
  lemma {:induction false} FilterSameKeep<T(!new)>(xs: seq<T>, f: T -> bool, g: T -> bool)
    requires forall x :: f(x) == g(x)
    ensures Filter(xs, f) == Filter(xs, g)
  {
    if xs != [] {
      FilterSameKeep(xs[1..], f, g);
    }
  }

  /** handleUserSelect: a user without an id is ignored; otherwise it becomes the
      selected user and the page navigates to its chat. */
  function SelectUser(user: Option<ChatUser>): (r: Option<(ChatUser, string)>)
    ensures r.Some? <==> user.Some? && Truthy(user.value.id)
    ensures r.Some? ==> r.value.0 == user.value && StartsWith(r.value.1, "/chat/")
                        && r.value.1[|"/chat/"|..] == user.value.id.value
  {
    if user.Some? && Truthy(user.value.id) then
      var path := "/chat/" + user.value.id.value;
      assert path[..|"/chat/"|] == "/chat/";
      Some((user.value, path))
    else None
  }

  /** `recentMessages[user?._id]`: a missing id looks up the key "undefined". */
  function PreviewKey(id: Option<string>): string
  {
    if id.Some? then id.value else "undefined"
  }

  /** The preview line of a row in the page's own list: "Image", the stored text, or
      "No messages yet" when nothing non-empty is stored. */
  function RowPreview(recent: map<string, string>, id: Option<string>): string
  {
    var key := PreviewKey(id);
    if key in recent && recent[key] != "" then (if recent[key] == "[IMAGE]" then "Image" else recent[key])
    else "No messages yet"
  }

  /** After the user sends a message, the receiver's row shows it: "Image" for an
      image and the text otherwise. */
  lemma SentMessageShowsInRow(recent: map<string, string>, msg: ChatMessage)
    requires msg.content != ""
    ensures RowPreview(OnReceive(recent, msg), Some(msg.receiver)) ==
      (if PreviewText(msg) == "[IMAGE]" then "Image" else msg.content)
  {
  }
}
