/** The direct-message handlers of server/src/controllers/message.controller.js:
    fetching a conversation, saving a message with its real-time fan-out, marking a
    conversation read, and counting unread messages per sender. */
module MessageController {
  import opened Common
  import opened PostModel
  import opened ServerStore

  const ServerErrorMessage := "Internal Server Error"

  function CreatedAt(m: Message): int { m.createdAt }

  /** The message travels between `a` and `b`, in either direction. */
  predicate Between(m: Message, a: UserId, b: UserId)
  {
    (m.sender == a && m.receiver == b) || (m.sender == b && m.receiver == a)
  }

  /** The `$or` filter of getMessagesWithUser, in store order. */
  function Conversation(ms: seq<Message>, a: UserId, b: UserId): (r: seq<Message>)
    ensures forall i :: 0 <= i < |r| ==> Between(r[i], a, b)
  {
    if ms == [] then []
    else if Between(ms[0], a, b) then [ms[0]] + Conversation(ms[1..], a, b)
    else Conversation(ms[1..], a, b)
  }

  lemma {:induction false} ConversationComplete(ms: seq<Message>, a: UserId, b: UserId, m: Message)
    ensures m in Conversation(ms, a, b) <==> m in ms && Between(m, a, b)
  {
    if ms != [] {
      ConversationComplete(ms[1..], a, b, m);
      assert ms == [ms[0]] + ms[1..];
    }
  }

  /** getMessagesWithUser: the conversation, sorted by `createdAt` ascending. */
  function GetMessagesWithUser(isValidId: string -> bool, s: Snapshot, caller: Caller, other: UserId)
    : Response<seq<Message>>
  {
    if !isValidId(other) then Failure(500, ServerErrorMessage)
    else Success(200, SortBy(Conversation(s.messages, caller.id, other), CreatedAt))
  }

  /** The conversation holds exactly the messages between the two users, each as
      often as it is stored, in ascending order of creation time. */
  lemma GetMessagesWithUserSpec(isValidId: string -> bool, s: Snapshot, caller: Caller, other: UserId)
    requires isValidId(other)
    ensures var r := GetMessagesWithUser(isValidId, s, caller, other);
      && r.Success?
      && (forall i, j :: 0 <= i < j < |r.value| ==> r.value[i].createdAt <= r.value[j].createdAt)
      && multiset(r.value) == multiset(Conversation(s.messages, caller.id, other))
      && (forall m :: m in r.value <==> m in s.messages && Between(m, caller.id, other))
  {
    var c := Conversation(s.messages, caller.id, other);
    SortBySpec(c, CreatedAt);
    var r := SortBy(c, CreatedAt);
    forall m ensures m in r <==> m in s.messages && Between(m, caller.id, other) {
      ConversationComplete(s.messages, caller.id, other, m);
      assert m in r <==> m in multiset(r);
      assert m in c <==> m in multiset(c);
    }
  }

  // ---------------------------------------------------------------- saveMessage

  /** `!x` for an optional request-body string. */
  predicate Falsy(x: Option<string>)
  {
    x.None? || x.value == ""
  }

  function SaveMessageSpec(isValidId: string -> bool, s: Snapshot, caller: Caller, receiver: Option<string>,
                           content: Option<string>, isImage: bool, imageUrl: Option<string>,
                           mid: MessageId, now: int, nid: NotificationId): (Snapshot, Response<Message>)
  {
    if caller.id == "" || Falsy(receiver) || Falsy(content) then
      (s, Failure(400, "Sender, receiver, and content are required"))
    else if isImage && Falsy(imageUrl) then (s, Failure(400, "Image URL is required"))
    else if !isValidId(receiver.value) then (s, Failure(500, ServerErrorMessage))
    else
      var to := receiver.value;
      var m := Message(mid, caller.id, to, if isImage then imageUrl.value else content.value, false, now);
      var fanOut := [ToRoom(to, ReceiveMessage(m)), ToRoom(caller.id, ReceiveMessage(m)),
                     ToRoom(to, ChatUpdate(caller.id, m.content)), ToRoom(caller.id, ChatUpdate(to, m.content))];
      var s1 := s.(messages := s.messages + [m], log := s.log + fanOut);
      var s2 :=
        if to != caller.id then
          s1.(notifications := s1.notifications + [Notification(nid, to, caller.id, MessageKind, None, false, now)],
              log := s1.log + [ToRoom(to, NewNotification(nid, MessageKind, caller.id))])
        else s1;
      (s2, Success(201, m))
  }

  method SaveMessage(db: Db, caller: Caller, receiver: Option<string>, content: Option<string>,
                     isImage: bool, imageUrl: Option<string>, mid: MessageId, now: int, nid: NotificationId)
    returns (r: Response<Message>)
    modifies db
    ensures (db.State(), r) == SaveMessageSpec(db.isValidId, old(db.State()), caller, receiver, content,
                                               isImage, imageUrl, mid, now, nid)
  {
    var sender := caller.id;
    if sender == "" || Falsy(receiver) || Falsy(content) {
      return Failure(400, "Sender, receiver, and content are required");
    }
    if isImage && Falsy(imageUrl) {
      return Failure(400, "Image URL is required");
    }
    if !db.isValidId(receiver.value) {
      return Failure(500, ServerErrorMessage);
    }
    var message;
    if isImage {
      message := Message(mid, sender, receiver.value, imageUrl.value, false, now);
    } else {
      message := Message(mid, sender, receiver.value, content.value, false, now);
    }
    db.messages := db.messages + [message];
    ghost var logBefore := db.log;
    db.log := db.log + [ToRoom(receiver.value, ReceiveMessage(message))];
    db.log := db.log + [ToRoom(sender, ReceiveMessage(message))];
    db.log := db.log + [ToRoom(receiver.value, ChatUpdate(sender, message.content))];
    db.log := db.log + [ToRoom(sender, ChatUpdate(receiver.value, message.content))];
    assert db.log == logBefore + [ToRoom(receiver.value, ReceiveMessage(message)), ToRoom(sender, ReceiveMessage(message)),
                                  ToRoom(receiver.value, ChatUpdate(sender, message.content)),
                                  ToRoom(sender, ChatUpdate(receiver.value, message.content))];
    if receiver.value != sender {
      db.notifications := db.notifications + [Notification(nid, receiver.value, sender, MessageKind, None, false, now)];
      db.log := db.log + [ToRoom(receiver.value, NewNotification(nid, MessageKind, sender))];
    }
    r := Success(201, message);
  }

  /** A missing sender, receiver or content gives 400 and stores nothing; so does an
      image message without an image URL. An image message stores the URL, not the
      submitted content; there is no duplicate suppression, so an identical second
      message is stored again. The receiver's chat preview names the sender and the
      sender's names the receiver, and only a message to someone else notifies. */
  lemma SaveMessageOutcome(isValidId: string -> bool, s: Snapshot, caller: Caller, receiver: Option<string>,
                           content: Option<string>, isImage: bool, imageUrl: Option<string>,
                           mid: MessageId, now: int, nid: NotificationId)
    ensures var (s', r) := SaveMessageSpec(isValidId, s, caller, receiver, content, isImage, imageUrl, mid, now, nid);
      && ((caller.id == "" || Falsy(receiver) || Falsy(content)) ==> r.status == 400 && s' == s)
      && ((!Falsy(content) && isImage && Falsy(imageUrl)) ==> r.status == 400 && s' == s)
      && (r.Success? ==>
            && receiver.Some? && content.Some?
            && s'.messages == s.messages + [r.value]
            && r.value.sender == caller.id && r.value.receiver == receiver.value && !r.value.read
            && r.value.content == (if isImage then imageUrl.value else content.value)
            && s'.log[|s.log| + 2] == ToRoom(receiver.value, ChatUpdate(caller.id, r.value.content))
            && s'.log[|s.log| + 3] == ToRoom(caller.id, ChatUpdate(receiver.value, r.value.content))
            && (receiver.value == caller.id <==> s'.notifications == s.notifications))
  {
  }

  /** Sending the same message twice stores it twice. */
  lemma SaveMessageNoDedup(isValidId: string -> bool, s: Snapshot, caller: Caller, receiver: Option<string>,
                           content: Option<string>, mid1: MessageId, mid2: MessageId, now: int, nid1: NotificationId,
                           nid2: NotificationId)
    requires SaveMessageSpec(isValidId, s, caller, receiver, content, false, None, mid1, now, nid1).1.Success?
    ensures var s1 := SaveMessageSpec(isValidId, s, caller, receiver, content, false, None, mid1, now, nid1).0;
      var s2 := SaveMessageSpec(isValidId, s1, caller, receiver, content, false, None, mid2, now, nid2).0;
      |s2.messages| == |s.messages| + 2
  {
  }

  // ---------------------------------------------------------------- markMessagesAsRead

  /** The filter of markMessagesAsRead: an unread message from `from` to `to`. */
  predicate UnreadFromTo(m: Message, from: UserId, to: UserId)
  {
    m.sender == from && m.receiver == to && !m.read
  }

  /** How many stored messages from `from` to `to` are unread. */
  function CountUnread(ms: seq<Message>, from: UserId, to: UserId): nat
  {
    if ms == [] then 0
    else (if UnreadFromTo(ms[0], from, to) then 1 else 0) + CountUnread(ms[1..], from, to)
  }

  /** `$set: {read: true}` on every message the filter matches: the messages keep
      their order and every field but `read`; a message is read afterwards exactly
      when it was read before or goes from `from` to `to`; and no other pair's
      unread count changes. */
  function MarkRead(ms: seq<Message>, from: UserId, to: UserId): (r: seq<Message>)
    ensures |r| == |ms|
    ensures forall i :: 0 <= i < |ms| ==> r[i].(read := ms[i].read) == ms[i]
    ensures forall i :: 0 <= i < |ms| ==> (r[i].read <==> ms[i].read || (ms[i].sender == from && ms[i].receiver == to))
  {
    seq(|ms|, i requires 0 <= i < |ms| => if UnreadFromTo(ms[i], from, to) then ms[i].(read := true) else ms[i])
  }

  lemma {:induction false} CountUnreadAppend(ms: seq<Message>, m: Message, from: UserId, to: UserId)
    ensures CountUnread(ms + [m], from, to) == CountUnread(ms, from, to) + (if UnreadFromTo(m, from, to) then 1 else 0)
  {
    if ms != [] {
      assert (ms + [m])[1..] == ms[1..] + [m];
      CountUnreadAppend(ms[1..], m, from, to);
    }
  }

  lemma {:induction false} CountUnreadNone(ms: seq<Message>, from: UserId, to: UserId)
    requires forall i :: 0 <= i < |ms| ==> !UnreadFromTo(ms[i], from, to)
    ensures CountUnread(ms, from, to) == 0
  {
    if ms != [] {
      CountUnreadNone(ms[1..], from, to);
    }
  }

  /** Once marked, nothing from that sender to the caller is unread, so an immediate
      second call reports 0. */
  lemma MarkReadLeavesNoneUnread(ms: seq<Message>, from: UserId, to: UserId)
    ensures CountUnread(MarkRead(ms, from, to), from, to) == 0
  {
    CountUnreadNone(MarkRead(ms, from, to), from, to);
  }

  /** markMessagesAsRead: sets `read` on every unread message from `other` to the
      caller and reports how many it changed. */
  method MarkMessagesAsRead(db: Db, caller: Caller, other: UserId) returns (r: Response<nat>)
    modifies db
    ensures !db.isValidId(other) ==> r == Failure(500, ServerErrorMessage) && db.State() == old(db.State())
    ensures db.isValidId(other) ==>
      && r == Success(200, CountUnread(old(db.messages), other, caller.id))
      && db.State() == old(db.State()).(messages := MarkRead(old(db.messages), other, caller.id))
  {
    if !db.isValidId(other) {
      return Failure(500, ServerErrorMessage);
    }
    ghost var before := db.State();
    var ms := db.messages;
    var updated: seq<Message> := [];
    var modified: nat := 0;
    var i := 0;
    while i < |ms|
      invariant 0 <= i <= |ms|
      invariant updated == MarkRead(ms[..i], other, caller.id)
      invariant modified == CountUnread(ms[..i], other, caller.id)
      invariant db.State() == before
    {
      var m := ms[i];
      assert ms[..i + 1] == ms[..i] + [m];
      CountUnreadAppend(ms[..i], m, other, caller.id);
      if UnreadFromTo(m, other, caller.id) {
        updated := updated + [m.(read := true)];
        modified := modified + 1;
      } else {
        updated := updated + [m];
      }
      i := i + 1;
    }
    assert ms[..i] == ms;
    assert updated == MarkRead(ms, other, caller.id);
    assert modified == CountUnread(ms, other, caller.id);
    db.messages := updated;
    assert db.State() == before.(messages := updated);
    r := Success(200, modified);
  }

  // ---------------------------------------------------------------- getUnreadCounts

  lemma {:induction false} CountUnreadPositive(ms: seq<Message>, from: UserId, to: UserId)
    ensures CountUnread(ms, from, to) > 0 <==> exists i :: 0 <= i < |ms| && UnreadFromTo(ms[i], from, to)
  {
    if ms != [] {
      CountUnreadPositive(ms[1..], from, to);
      if exists i :: 0 <= i < |ms| && UnreadFromTo(ms[i], from, to) {
        var i :| 0 <= i < |ms| && UnreadFromTo(ms[i], from, to);
        if i > 0 { assert ms[1..][i - 1] == ms[i]; }
      }
      if exists i :: 0 <= i < |ms[1..]| && UnreadFromTo(ms[1..][i], from, to) {
        var i :| 0 <= i < |ms[1..]| && UnreadFromTo(ms[1..][i], from, to);
        assert ms[1..][i] == ms[i + 1];
      }
    }
  }

  /** getUnreadCounts: a map from each sender with unread messages to the caller to
      the number of them; senders with none are absent. */
  method GetUnreadCounts(db: Db, caller: Caller) returns (result: map<UserId, nat>)
    ensures forall u :: u in result <==> CountUnread(db.messages, u, caller.id) > 0
    ensures forall u :: u in result ==> result[u] == CountUnread(db.messages, u, caller.id)
  {
    var ms := db.messages;
    result := map[];
    var i := 0;
    while i < |ms|
      invariant 0 <= i <= |ms|
      invariant forall u :: u in result <==> CountUnread(ms[..i], u, caller.id) > 0
      invariant forall u :: u in result ==> result[u] == CountUnread(ms[..i], u, caller.id)
    {
      var m := ms[i];
      assert ms[..i + 1] == ms[..i] + [m];
      forall u ensures CountUnread(ms[..i + 1], u, caller.id)
                       == CountUnread(ms[..i], u, caller.id) + (if UnreadFromTo(m, u, caller.id) then 1 else 0) {
        CountUnreadAppend(ms[..i], m, u, caller.id);
      }
      if m.receiver == caller.id && !m.read {
        var previous := if m.sender in result then result[m.sender] else 0;
        result := result[m.sender := previous + 1];
      }
      i := i + 1;
    }
    assert ms[..i] == ms;
  }

}
