/** The notification handlers of server/src/controllers/notification.controller.js:
    creating a notification from a request body, listing the caller's notifications
    and marking one as read. */
module NotificationController {
  import opened Common
  import opened PostModel
  import opened ServerStore

  /** The `type` strings the Notification schema's enum admits. */
  function KindName(k: NotificationKind): string
  {
    match k
    case LikeKind => "like"
    case CommentKind => "comment"
    case ReshareKind => "reshare"
    case PostKind => "post"
    case MessageKind => "message"
  }

  /** Enum validation of the `type` path: a string outside the enum is refused. */
  function ParseKind(s: string): (r: Option<NotificationKind>)
    ensures r.Some? ==> KindName(r.value) == s
  {
    if s == "like" then Some(LikeKind)
    else if s == "comment" then Some(CommentKind)
    else if s == "reshare" then Some(ReshareKind)
    else if s == "post" then Some(PostKind)
    else if s == "message" then Some(MessageKind)
    else None
  }

  /** Every enum value is accepted, as itself. */
  lemma ParseKindName(k: NotificationKind)
    ensures ParseKind(KindName(k)) == Some(k)
  {
  }

  // ---------------------------------------------------------------- createNotification

  const CreateFailedMessage := "Failed to create notification"

  /** createNotification: `Notification.create` validates the body (recipient and type
      required, type in the enum, ids castable); any failure is a 500. The sender is
      always the caller. The new notification is emitted to the recipient's room. */
  function CreateNotificationSpec(isValidId: string -> bool, s: Snapshot, caller: Caller,
                                  recipient: Option<string>, kind: Option<string>, post: Option<string>,
                                  nid: NotificationId, now: int): (Snapshot, Response<Notification>)
  {
    if recipient.None? || !isValidId(recipient.value) then (s, Failure(500, CreateFailedMessage))
    else if kind.None? || ParseKind(kind.value).None? then (s, Failure(500, CreateFailedMessage))
    else if post.Some? && !isValidId(post.value) then (s, Failure(500, CreateFailedMessage))
    else
      var k := ParseKind(kind.value).value;
      var n := Notification(nid, recipient.value, caller.id, k, post, false, now);
      (s.(notifications := s.notifications + [n], log := s.log + [ToRoom(recipient.value, NewNotification(nid, k, caller.id))]),
       Success(201, n))
  }

  method CreateNotification(db: Db, caller: Caller, recipient: Option<string>, kind: Option<string>,
                            post: Option<string>, nid: NotificationId, now: int)
    returns (r: Response<Notification>)
    modifies db
    ensures (db.State(), r) == CreateNotificationSpec(db.isValidId, old(db.State()), caller, recipient, kind, post, nid, now)
  {
    if recipient.None? || !db.isValidId(recipient.value) {
      return Failure(500, CreateFailedMessage);
    }
    if kind.None? {
      return Failure(500, CreateFailedMessage);
    }
    var k := ParseKind(kind.value);
    if k.None? {
      return Failure(500, CreateFailedMessage);
    }
    if post.Some? && !db.isValidId(post.value) {
      return Failure(500, CreateFailedMessage);
    }
    var notification := Notification(nid, recipient.value, caller.id, k.value, post, false, now);
    db.notifications := db.notifications + [notification];
    db.log := db.log + [ToRoom(recipient.value, NewNotification(nid, k.value, caller.id))];
    r := Success(201, notification);
  }

  /** On success exactly one unread notification is stored, with the caller as sender
      whatever the body held and the requested type; only the recipient's room hears
      of it. On failure nothing changes. */
  lemma CreateNotificationOutcome(isValidId: string -> bool, s: Snapshot, caller: Caller,
                                  recipient: Option<string>, kind: Option<string>, post: Option<string>,
                                  nid: NotificationId, now: int)
    ensures var (s', r) := CreateNotificationSpec(isValidId, s, caller, recipient, kind, post, nid, now);
      && (r.Failure? ==> s' == s && r.status == 500)
      && (r.Success? <==>
            recipient.Some? && isValidId(recipient.value) && kind.Some? && ParseKind(kind.value).Some?
            && (post.Some? ==> isValidId(post.value)))
      && (r.Success? ==>
            && s'.notifications == s.notifications + [r.value]
            && r.value.sender == caller.id && r.value.recipient == recipient.value
            && KindName(r.value.kind) == kind.value && !r.value.read && r.value.post == post
            && s'.log == s.log + [ToRoom(recipient.value, NewNotification(nid, r.value.kind, caller.id))]
            && s'.posts == s.posts && s'.users == s.users && s'.messages == s.messages)
  {
  }

  // ---------------------------------------------------------------- getNotifications

  /** The query filter `{recipient: req.user._id}`, in store order. */
  function AddressedTo(ns: seq<Notification>, u: UserId): (r: seq<Notification>)
    ensures forall i :: 0 <= i < |r| ==> r[i].recipient == u
  {
    if ns == [] then []
    else if ns[0].recipient == u then [ns[0]] + AddressedTo(ns[1..], u)
    else AddressedTo(ns[1..], u)
  }

  lemma {:induction false} AddressedToComplete(ns: seq<Notification>, u: UserId, n: Notification)
    ensures n in AddressedTo(ns, u) <==> n in ns && n.recipient == u
  {
    if ns != [] {
      AddressedToComplete(ns[1..], u, n);
      assert ns == [ns[0]] + ns[1..];
    }
  }

  /** The sort key of `.sort({createdAt: -1})`: ascending in the negated time. */
  function NewestFirst(n: Notification): int { -n.createdAt }

  /** getNotifications: the caller's notifications, newest first. */
  function GetNotifications(s: Snapshot, caller: Caller): seq<Notification>
  {
    SortBy(AddressedTo(s.notifications, caller.id), NewestFirst)
  }

  /** The list holds every notification addressed to the caller, each as often as it is
      stored, and no other, in descending order of creation time. */
  lemma GetNotificationsSpec(s: Snapshot, caller: Caller)
    ensures var r := GetNotifications(s, caller);
      && (forall i, j :: 0 <= i < j < |r| ==> r[i].createdAt >= r[j].createdAt)
      && multiset(r) == multiset(AddressedTo(s.notifications, caller.id))
      && (forall n :: n in r <==> n in s.notifications && n.recipient == caller.id)
  {
    var c := AddressedTo(s.notifications, caller.id);
    SortBySpec(c, NewestFirst);
    var r := SortBy(c, NewestFirst);
    forall i, j | 0 <= i < j < |r| ensures r[i].createdAt >= r[j].createdAt {
      assert NewestFirst(r[i]) <= NewestFirst(r[j]);
    }
    forall n ensures n in r <==> n in s.notifications && n.recipient == caller.id {
      AddressedToComplete(s.notifications, caller.id, n);
      assert n in r <==> n in multiset(r);
      assert n in c <==> n in multiset(c);
    }
  }

  // ---------------------------------------------------------------- markAsRead

  const MarkFailedMessage := "Failed to mark notification as read"

  /** `Notification.findById(id)`: the index of the first notification with that id. */
  function FindNotification(ns: seq<Notification>, id: NotificationId): (r: Option<nat>)
    ensures r.Some? ==> r.value < |ns| && ns[r.value].id == id
    ensures r.Some? ==> forall j :: 0 <= j < r.value ==> ns[j].id != id
    ensures r.None? ==> forall i :: 0 <= i < |ns| ==> ns[i].id != id
  {
    if ns == [] then None
    else if ns[0].id == id then Some(0)
    else match FindNotification(ns[1..], id)
      case None => None
      case Some(k) => Some(k + 1)
  }

  function MarkAsReadSpec(isValidId: string -> bool, s: Snapshot, caller: Caller, id: NotificationId)
    : (Snapshot, Response<string>)
  {
    if !isValidId(id) then (s, Failure(500, MarkFailedMessage))
    else match FindNotification(s.notifications, id)
      case None => (s, Failure(404, "Notification not found"))
      case Some(i) =>
        if s.notifications[i].recipient != caller.id then
          (s, Failure(403, "Not authorized to update this notification"))
        else
          (s.(notifications := s.notifications[i := s.notifications[i].(read := true)]),
           Success(200, "Marked as read"))
  }

  method MarkAsRead(db: Db, caller: Caller, id: NotificationId) returns (r: Response<string>)
    modifies db
    ensures (db.State(), r) == MarkAsReadSpec(db.isValidId, old(db.State()), caller, id)
  {
    if !db.isValidId(id) {
      return Failure(500, MarkFailedMessage);
    }
    var found := FindNotification(db.notifications, id);
    if found.None? {
      return Failure(404, "Notification not found");
    }
    var notification := db.notifications[found.value];
    if notification.recipient != caller.id {
      return Failure(403, "Not authorized to update this notification");
    }
    notification := notification.(read := true);
    db.notifications := db.notifications[found.value := notification];
    r := Success(200, "Marked as read");
  }

  /** An unknown id gives 404 and a notification addressed to someone else gives 403,
      both leaving the store as it was; otherwise that notification, and nothing else,
      becomes read. */
  lemma MarkAsReadOutcome(isValidId: string -> bool, s: Snapshot, caller: Caller, id: NotificationId)
    requires isValidId(id)
    ensures var (s', r) := MarkAsReadSpec(isValidId, s, caller, id);
      && ((forall i :: 0 <= i < |s.notifications| ==> s.notifications[i].id != id)
            ==> r == Failure(404, "Notification not found") && s' == s)
      && (r.Failure? ==> s' == s)
      && (r.Success? ==>
            && |s'.notifications| == |s.notifications|
            && (exists i :: 0 <= i < |s.notifications| && s.notifications[i].id == id
                  && s.notifications[i].recipient == caller.id
                  && s'.notifications == s.notifications[i := s.notifications[i].(read := true)])
            && s'.posts == s.posts && s'.users == s.users && s'.messages == s.messages && s'.log == s.log)
  {
    var found := FindNotification(s.notifications, id);
    if found.Some? {
      var i := found.value;
      assert s.notifications[i].id == id;
    }
  }

  /** A caller who is not the recipient gets 403 and the `read` flag stays as it was. */
  lemma MarkAsReadForbidden(isValidId: string -> bool, s: Snapshot, caller: Caller, id: NotificationId, i: nat)
    requires isValidId(id)
    requires i < |s.notifications| && s.notifications[i].id == id
    requires forall j :: 0 <= j < i ==> s.notifications[j].id != id
    requires s.notifications[i].recipient != caller.id
    ensures MarkAsReadSpec(isValidId, s, caller, id) == (s, Failure(403, "Not authorized to update this notification"))
  {
    FindFirst(s.notifications, id, i);
  }

  lemma {:induction false} FindFirst(ns: seq<Notification>, id: NotificationId, i: nat)
    requires i < |ns| && ns[i].id == id
    requires forall j :: 0 <= j < i ==> ns[j].id != id
    ensures FindNotification(ns, id) == Some(i)
  {
    if i > 0 {
      FindFirst(ns[1..], id, i - 1);
    }
  }

  /** Marking twice is the same as marking once, and the repeat still replies 200. */
  lemma MarkAsReadIdempotent(isValidId: string -> bool, s: Snapshot, caller: Caller, id: NotificationId)
    requires MarkAsReadSpec(isValidId, s, caller, id).1.Success?
    ensures var s1 := MarkAsReadSpec(isValidId, s, caller, id).0;
      MarkAsReadSpec(isValidId, s1, caller, id) == (s1, Success(200, "Marked as read"))
  {
    var i := FindNotification(s.notifications, id).value;
    var s1 := MarkAsReadSpec(isValidId, s, caller, id).0;
    assert forall j :: 0 <= j < i ==> s1.notifications[j] == s.notifications[j];
    FindFirst(s1.notifications, id, i);
    assert s1.notifications[i := s1.notifications[i].(read := true)] == s1.notifications;
  }
}
