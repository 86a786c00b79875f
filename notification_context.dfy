/** The notification store of client/src/context/NotificationContext.jsx: the list of
    notifications received over the socket, newest first, an unread counter kept
    beside it, and the id of the user whose chat is open. */
module NotificationContext {
  import opened Common

  /** The `post` of a notification as it arrives: missing (the like, comment and
      message events), a raw id (the reshare event), or a populated object (the
      createNotification route). */
  datatype NotifPost = NoPost | RawPostId(raw: string) | PostObj(postId: Option<string>)

  /** The sender object of a notification: its `_id` and `name`. */
  datatype NotifSender = NotifSender(id: Option<string>, name: Option<string>)

  /** A notification as the client holds it. */
  datatype ClientNotification = ClientNotification(
    id: string, kind: string, sender: Option<NotifSender>, post: NotifPost, createdAt: string)

  /** Line 27: `notif.type === "message" && notif.sender._id === activeChatId`. A
      message notification without a sender makes the handler throw before it
      changes anything, so it is dropped too. */
  predicate Dropped(n: ClientNotification, active: Option<string>)
  {
    n.kind == "message" && (n.sender.None? || (active.Some? && n.sender.value.id == active))
  }

  /** handleNewNotification on the pair (list, counter). */
  function OnNew(ns: seq<ClientNotification>, count: int, active: Option<string>, n: ClientNotification)
    : (seq<ClientNotification>, int)
  {
    if Dropped(n, active) then (ns, count) else ([n] + ns, count + 1)
  }

  /** markAsRead on the pair (list, counter). */
  function OnMarkAsRead(ns: seq<ClientNotification>, count: int, id: string): (seq<ClientNotification>, int)
  {
    (Filter(ns, (n: ClientNotification) => n.id != id), if count - 1 > 0 then count - 1 else 0)
  }

  /** A notification is dropped exactly when it is a message from the open chat's
      partner (or has no sender); anything else becomes the newest entry and adds one
      unread. */
  lemma OnNewOutcome(ns: seq<ClientNotification>, count: int, active: Option<string>, n: ClientNotification)
    ensures var (ns', count') := OnNew(ns, count, active, n);
      && (n.kind == "message" && n.sender.Some? && active.Some? && n.sender.value.id == active ==>
            ns' == ns && count' == count)
      && (n.kind != "message" ==> ns' == [n] + ns && count' == count + 1)
      && (!Dropped(n, active) ==> |ns'| == |ns| + 1 && ns'[0] == n && ns'[1..] == ns && count' == count + 1)
  {
  }

  /** With no chat open, every message notification that names its sender is kept. */
  lemma NoActiveChatKeepsMessages(ns: seq<ClientNotification>, count: int, n: ClientNotification)
    requires n.sender.Some?
    ensures OnNew(ns, count, None, n) == ([n] + ns, count + 1)
  {
  }

  /** markAsRead removes every notification with that id and keeps the others in
      order; the counter drops by one, never below zero, whether or not the id was
      in the list. */
  lemma OnMarkAsReadOutcome(ns: seq<ClientNotification>, count: int, id: string)
    requires count >= 0
    ensures var (ns', count') := OnMarkAsRead(ns, count, id);
      && (forall n :: n in ns' <==> n in ns && n.id != id)
      && count' >= 0
      && (count >= 1 ==> count' == count - 1)
      && (count == 0 ==> count' == 0)
      && ((forall k :: 0 <= k < |ns| ==> ns[k].id != id) ==> ns' == ns)
  {
  }

  /** How many notifications in `ns` carry the id. */
  function CountId(ns: seq<ClientNotification>, id: string): (r: nat)
    ensures r <= |ns|
  {
    if ns == [] then 0 else (if ns[0].id == id then 1 else 0) + CountId(ns[1..], id)
  }

  lemma {:induction false} FilterIdLength(ns: seq<ClientNotification>, id: string)
    ensures |Filter(ns, (n: ClientNotification) => n.id != id)| == |ns| - CountId(ns, id)
  {
    if ns != [] {
      FilterIdLength(ns[1..], id);
    }
  }

  /** The counter tracks the list only while every id marked read is in the list
      exactly once: then the gap between the counter and the list's length is kept. */
  lemma MarkAsReadKeepsGap(ns: seq<ClientNotification>, count: int, id: string)
    requires CountId(ns, id) == 1 && count >= 1
    ensures var (ns', count') := OnMarkAsRead(ns, count, id); count' - |ns'| == count - |ns|
  {
    FilterIdLength(ns, id);
  }

  /** Otherwise the two drift apart: reading an id that is not in the list still
      lowers the counter, and reading an id held twice removes two entries for one. */
  lemma MarkAsReadDrifts(ns: seq<ClientNotification>, count: int, id: string)
    requires count >= 1
    ensures CountId(ns, id) == 0 ==> var (ns', count') := OnMarkAsRead(ns, count, id);
      ns' == ns && count' == count - 1
    ensures CountId(ns, id) == 2 ==> var (ns', count') := OnMarkAsRead(ns, count, id);
      count' - |ns'| == count - |ns| + 1
  {
    FilterIdLength(ns, id);
    if CountId(ns, id) == 0 {
      CountIdZero(ns, id);
    }
  }

  lemma {:induction false} CountIdZero(ns: seq<ClientNotification>, id: string)
    requires CountId(ns, id) == 0
    ensures forall k :: 0 <= k < |ns| ==> ns[k].id != id
  {
    if ns != [] {
      CountIdZero(ns[1..], id);
      assert forall k :: 1 <= k < |ns| ==> ns[k] == ns[1..][k - 1];
    }
  }

  /** The provider's state. */
  class Context {
    var notifications: seq<ClientNotification>
    var unreadCount: int
    var activeChatId: Option<string>

    /** The counter is never negative. */
    predicate Valid()
      reads this
    {
      unreadCount >= 0
    }

    constructor()
      ensures Valid() && notifications == [] && unreadCount == 0 && activeChatId.None?
    {
      notifications := [];
      unreadCount := 0;
      activeChatId := None;
    }

    /** The newNotification listener. */
    method OnNewNotification(n: ClientNotification)
      requires Valid()
      modifies this
      ensures Valid() && activeChatId == old(activeChatId)
      ensures (notifications, unreadCount) == OnNew(old(notifications), old(unreadCount), activeChatId, n)
    {
      if n.kind == "message" && (n.sender.None? || (activeChatId.Some? && n.sender.value.id == activeChatId)) {
        return;
      }
      notifications := [n] + notifications;
      unreadCount := unreadCount + 1;
    }

    /** markAsRead. */
    method MarkAsRead(id: string)
      requires Valid()
      modifies this
      ensures Valid() && activeChatId == old(activeChatId)
      ensures (notifications, unreadCount) == OnMarkAsRead(old(notifications), old(unreadCount), id)
    {
      notifications := Filter(notifications, (n: ClientNotification) => n.id != id);
      if unreadCount - 1 > 0 {
        unreadCount := unreadCount - 1;
      } else {
        unreadCount := 0;
      }
    }

    /** setActiveChatId, as the chat window calls it when it opens (with the
        partner's id) and when it closes (with null). */
    method SetActiveChat(id: Option<string>)
      modifies this
      ensures activeChatId == id
      ensures notifications == old(notifications) && unreadCount == old(unreadCount)
    {
      activeChatId := id;
    }
  }

  /** While a chat is open, its partner's message notifications never reach the list
      or the counter, and a like on the user's post still does. */
  method OpenChatSuppresses(c: Context, partner: string, msg: ClientNotification, like: ClientNotification)
    requires c.Valid()
    requires msg.kind == "message" && msg.sender.Some? && msg.sender.value.id == Some(partner)
    requires like.kind == "like"
    modifies c
    ensures c.Valid() && c.activeChatId == Some(partner)
    ensures c.notifications == [like] + old(c.notifications)
    ensures c.unreadCount == old(c.unreadCount) + 1
  {
    c.SetActiveChat(Some(partner));
    c.OnNewNotification(msg);
    c.OnNewNotification(like);
  }
}
