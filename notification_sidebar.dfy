/** The click handler and entry label of client/src/components/NotificationSidebar.jsx. */
module NotificationSidebar {
  import opened Common
  import opened NotificationContext

  /** One visible effect of a click, in the order the handler performs them. */
  datatype Effect =
    | MarkRead(id: string)
    | Close
    | StoreOpenChat(userId: string)
    | Navigate(path: string)

  /** `notif.post?._id`: only a populated post object has one; on a raw id string the
      property is undefined. */
  function PostIdOf(p: NotifPost): (r: Option<string>)
    ensures r.Some? ==> p.PostObj?
  {
    if p.PostObj? then p.postId else None
  }

  /** handleNotificationClick: the notification is marked read and the sidebar
      closed first; then a message opens the chat with its sender and any other type
      opens its post, each only when the id it needs is present. */
  function Click(n: ClientNotification): seq<Effect>
  {
    [MarkRead(n.id), Close] +
    if n.kind == "message" then
      (if n.sender.Some? && Truthy(n.sender.value.id) then
         [StoreOpenChat(n.sender.value.id.value), Navigate("/chat/" + n.sender.value.id.value)]
       else [])
    else
      (if Truthy(PostIdOf(n.post)) then [Navigate("/post/" + PostIdOf(n.post).value)] else [])
  }

  /** The navigation a click ends in, if any. */
  function Destination(effects: seq<Effect>): (r: Option<string>)
    ensures r.Some? <==> exists k :: 0 <= k < |effects| && effects[k].Navigate?
  {
    if effects == [] then None
    else if effects[0].Navigate? then Some(effects[0].path)
    else Destination(effects[1..])
  }

  /** Every click marks the notification read and closes the sidebar before anything
      else; a message with a sender id stores and opens that chat; any other type with
      a post id opens the post; with the id missing nothing further happens. */
  lemma ClickOutcome(n: ClientNotification)
    ensures var e := Click(n);
      && |e| >= 2 && e[0] == MarkRead(n.id) && e[1] == Close
      && (n.kind == "message" && n.sender.Some? && Truthy(n.sender.value.id) ==>
            e[2..] == [StoreOpenChat(n.sender.value.id.value), Navigate("/chat/" + n.sender.value.id.value)]
            && Destination(e) == Some("/chat/" + n.sender.value.id.value))
      && (n.kind == "message" && !(n.sender.Some? && Truthy(n.sender.value.id)) ==>
            |e| == 2 && Destination(e).None?)
      && (n.kind != "message" && n.post.PostObj? && Truthy(n.post.postId) ==>
            e[2..] == [Navigate("/post/" + n.post.postId.value)]
            && Destination(e) == Some("/post/" + n.post.postId.value))
      && (n.kind != "message" && !(n.post.PostObj? && Truthy(n.post.postId)) ==>
            |e| == 2 && Destination(e).None?)
  {
    var e := Click(n);
    assert e[0] == MarkRead(n.id) && e[1] == Close;
    assert e[1..][1..] == e[2..];
    assert Destination(e) == Destination(e[2..]);
    if |e| > 2 && e[2].StoreOpenChat? {
      assert e[2..][1..] == e[3..];
      assert Destination(e[2..]) == Destination(e[3..]);
      assert e[3..] == [e[3]] && e[3].Navigate?;
      assert Destination(e[3..]) == Some(e[3].path);
    }
  }

  /** The like and comment events carry no post and the reshare event carries the
      post as a raw id, so a click on any of them only marks it read and closes. */
  lemma SocketPostNotificationsDoNotNavigate(n: ClientNotification)
    requires n.kind in {"like", "comment", "reshare"}
    requires n.post.NoPost? || n.post.RawPostId?
    ensures Click(n) == [MarkRead(n.id), Close]
    ensures Destination(Click(n)).None?
  {
    ClickOutcome(n);
  }

  /** The emoji that opens a message notification's label. */
  const SpeechBalloon: char := '\U{1F4AC}'

  /** The entry's text: "💬 New message from <name>" for a message and
      "<name> <type>ed your post" otherwise; a missing name renders as nothing.
      An entry without a sender (a deleted account populates as `null`) makes the
      render throw at `notif.sender.name`, which is `None` here. */
  function Label(n: ClientNotification): (r: Option<string>)
    ensures r.None? <==> n.sender.None?
    ensures r.Some? && n.kind == "message" ==> StartsWith(r.value, [SpeechBalloon] + " New message from ")
    ensures r.Some? && n.kind == "message" ==> EndsWith(r.value, OrElse(n.sender.value.name, ""))
    ensures r.Some? && n.kind != "message" ==> StartsWith(r.value, OrElse(n.sender.value.name, "") + " " + n.kind)
    ensures r.Some? && n.kind != "message" ==> EndsWith(r.value, "ed your post")
  {
    if n.sender.None? then None
    else
      var name := OrElse(n.sender.value.name, "");
      if n.kind == "message" then
        var prefix := [SpeechBalloon] + " New message from ";
        assert (prefix + name)[..|prefix|] == prefix;
        Some(prefix + name)
      else
        var head := name + " " + n.kind;
        assert (head + "ed your post")[..|head|] == head;
        Some(head + "ed your post")
  }
}
