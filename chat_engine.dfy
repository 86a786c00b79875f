/** The chat hook of client/src/components/chat/ChatEngine.jsx: the open
    conversation's message list, which incoming messages join it, what a send emits,
    and the typing indicators in both directions. Socket emits are appended to an
    outbox; the history request and the typing timer are driven by explicit calls. */
module ChatEngine {
  import opened Common

  /** The `sender` of a message: the history request returns the raw id, while the
      messages saveMessage broadcasts carry the populated user object. */
  datatype JsUser = UserObj(id: string, name: Option<string>) | UserIdStr(s: string)

  /** `sender === id` for a string `id`: a populated object is never strictly equal
      to a string. */
  predicate SenderIs(u: JsUser, id: string)
  {
    u == UserIdStr(id)
  }

  /** A message as the client receives it: its id, the sender, the receiver's id, the
      text and the image flag (which the Message schema does not store, so a message
      from the server has it false). */
  datatype ChatMessage = ChatMessage(id: string, sender: JsUser, receiver: string, content: string,
                                     isImage: bool, createdAt: string)

  /** What the hook emits on the socket. */
  datatype Outgoing =
    | SendEmit(sender: string, receiver: string, content: string, isImage: bool, senderName: Option<string>)
    | TypingEmit(to: string, from: string)
    | StopTypingEmit(to: string, from: string)

  /** `prev.some(m => m._id === msg._id)`. */
  predicate HasMessage(ms: seq<ChatMessage>, id: string)
  {
    exists k :: 0 <= k < |ms| && ms[k].id == id
  }

  /** handleReceive for the open chat with `selected`: a message from or to that user
      joins the list unless a message with its id is already there; any other message
      goes to the sidebar (the second component) and the list is unchanged. */
  function Receive(ms: seq<ChatMessage>, selected: string, msg: ChatMessage): (seq<ChatMessage>, Option<ChatMessage>)
  {
    if SenderIs(msg.sender, selected) || msg.receiver == selected then
      (if HasMessage(ms, msg.id) then ms else ms + [msg], None)
    else (ms, Some(msg))
  }

  /** A message of the open chat ends up in the list exactly once-appended and is
      not forwarded; receiving it again changes nothing. A message of another chat
      is forwarded to the sidebar and leaves the list alone. */
  lemma ReceiveOutcome(ms: seq<ChatMessage>, selected: string, msg: ChatMessage)
    ensures var (ms', fwd) := Receive(ms, selected, msg);
      && (SenderIs(msg.sender, selected) || msg.receiver == selected ==>
            && fwd.None? && HasMessage(ms', msg.id)
            && (HasMessage(ms, msg.id) ==> ms' == ms)
            && (!HasMessage(ms, msg.id) ==> ms' == ms + [msg])
            && Receive(ms', selected, msg) == (ms', None))
      && (!SenderIs(msg.sender, selected) && msg.receiver != selected ==> ms' == ms && fwd == Some(msg))
  {
    var (ms', fwd) := Receive(ms, selected, msg);
    if (SenderIs(msg.sender, selected) || msg.receiver == selected) && !HasMessage(ms, msg.id) {
      assert ms'[|ms|].id == msg.id;
    }
  }

  /** A message whose sender arrives populated joins the open chat only through its
      receiver: the partner's own message to the user goes to the sidebar instead. */
  lemma PopulatedSenderNotMatched(ms: seq<ChatMessage>, selected: string, me: string, msg: ChatMessage)
    requires msg.sender.UserObj? && msg.sender.id == selected && msg.receiver == me && me != selected
    ensures Receive(ms, selected, msg) == (ms, Some(msg))
    ensures Receive(ms, selected, msg.(sender := UserIdStr(selected))).1.None?
  {
  }

  /** sendMessage: nothing for whitespace-only content or a missing user id, and
      nothing while the socket is disconnected; otherwise the trimmed content is
      emitted from the current user to the selected one, with the sender's name. */
  function SendMessage(content: string, isImage: bool, currentId: Option<string>, currentName: Option<string>,
                       selectedId: Option<string>, connected: bool): Option<Outgoing>
  {
    if Trim(content) == "" || selectedId.None? || selectedId.value == "" || currentId.None? || currentId.value == "" then None
    else if connected then Some(SendEmit(currentId.value, selectedId.value, Trim(content), isImage, currentName))
    else None
  }

  /** A send emits exactly when the content is not blank, both ids are present and
      the socket is connected, and what it emits is the trimmed, non-blank text. */
  lemma SendMessageOutcome(content: string, isImage: bool, currentId: Option<string>, currentName: Option<string>,
                           selectedId: Option<string>, connected: bool)
    ensures var r := SendMessage(content, isImage, currentId, currentName, selectedId, connected);
      && (r.Some? <==> !IsBlank(content) && Truthy(currentId) && Truthy(selectedId) && connected)
      && (r.Some? ==>
            && r.value.SendEmit? && r.value.sender == currentId.value && r.value.receiver == selectedId.value
            && r.value.content == Trim(content) && !IsBlank(r.value.content) && Trim(r.value.content) == r.value.content
            && r.value.isImage == isImage && r.value.senderName == currentName)
  {
    TrimEmptyIffBlank(content);
    TrimIdempotent(content);
    TrimEmptyIffBlank(Trim(content));
  }

  /** The hook's state for one signed-in user. */
  class Engine {
    const current: Option<string>
    const currentName: Option<string>
    var selected: Option<string>
    var messages: seq<ChatMessage>
    var partnerTyping: bool
    var isTyping: bool
    /** Whether the stop-typing timeout is scheduled. */
    var typingTimer: bool
    /** Everything emitted on the socket, oldest first. */
    var outbox: seq<Outgoing>

    /** The typing flag is up exactly while its timeout is scheduled. */
    predicate Valid()
      reads this
    {
      isTyping == typingTimer
    }

    constructor(current: Option<string>, currentName: Option<string>)
      ensures Valid()
      ensures this.current == current && this.currentName == currentName
      ensures selected.None? && messages == [] && !partnerTyping && !isTyping && outbox == []
    {
      this.current := current;
      this.currentName := currentName;
      selected := None;
      messages := [];
      partnerTyping := false;
      isTyping := false;
      typingTimer := false;
      outbox := [];
    }

    /** The effect that runs when the selected user changes: with both ids present
        the old conversation is cleared before the history is requested. */
    method Select(user: Option<string>)
      requires Valid()
      modifies this
      ensures Valid()
      ensures selected == user
      ensures messages == (if Truthy(user) && Truthy(current) then [] else old(messages))
      ensures partnerTyping == old(partnerTyping) && isTyping == old(isTyping) && outbox == old(outbox)
    {
      selected := user;
      if Truthy(user) && Truthy(current) {
        messages := [];
      }
    }

    /** The history request's answer: a successful fetch replaces the list. */
    method HistoryLoaded(history: Option<seq<ChatMessage>>)
      requires Valid()
      modifies this
      ensures Valid()
      ensures messages == (if history.Some? then history.value else old(messages))
      ensures selected == old(selected) && partnerTyping == old(partnerTyping) && isTyping == old(isTyping)
      ensures outbox == old(outbox)
    {
      if history.Some? {
        messages := history.value;
      }
    }

    /** The receiveMessage listener, registered only while a user is selected. */
    method OnReceive(msg: ChatMessage) returns (forwarded: Option<ChatMessage>)
      requires Valid() && selected.Some?
      modifies this
      ensures Valid() && selected == old(selected)
      ensures (messages, forwarded) == Receive(old(messages), selected.value, msg)
      ensures partnerTyping == old(partnerTyping) && isTyping == old(isTyping)
      ensures outbox == old(outbox)
    {
      if SenderIs(msg.sender, selected.value) || msg.receiver == selected.value {
        if !HasMessage(messages, msg.id) {
          messages := messages + [msg];
        }
        forwarded := None;
      } else {
        forwarded := Some(msg);
      }
    }

    /** The userTyping and userStopTyping listeners: only the selected user's events
        set or clear the indicator. */
    method OnPartnerTyping(from: string, typing: bool)
      requires Valid()
      modifies this
      ensures Valid()
      ensures partnerTyping == (if selected == Some(from) then typing else old(partnerTyping))
      ensures selected == old(selected) && messages == old(messages) && isTyping == old(isTyping)
      ensures outbox == old(outbox)
    {
      if selected == Some(from) {
        partnerTyping := typing;
      }
    }

    /** sendMessage. */
    method Send(content: string, isImage: bool, connected: bool)
      requires Valid()
      modifies this
      ensures Valid()
      ensures var e := SendMessage(content, isImage, current, currentName, selected, connected);
        outbox == old(outbox) + (if e.Some? then [e.value] else [])
      ensures selected == old(selected) && messages == old(messages) && isTyping == old(isTyping)
      ensures partnerTyping == old(partnerTyping)
    {
      var e := SendMessage(content, isImage, current, currentName, selected, connected);
      if e.Some? {
        outbox := outbox + [e.value];
      }
    }

    /** handleTypingInput in an open chat: the first keystroke of a burst emits
        userTyping; every keystroke restarts the stop-typing timeout. */
    method TypingInput()
      requires Valid() && selected.Some? && current.Some?
      modifies this
      ensures Valid() && isTyping && selected == old(selected)
      ensures outbox == old(outbox) + (if old(isTyping) then [] else [TypingEmit(selected.value, current.value)])
      ensures selected == old(selected) && messages == old(messages) && partnerTyping == old(partnerTyping)
    {
      if !isTyping {
        isTyping := true;
        outbox := outbox + [TypingEmit(selected.value, current.value)];
      }
      typingTimer := true;
    }

    /** The stop-typing timeout firing 1200 ms after the last keystroke. */
    method TypingTimeout()
      requires Valid() && selected.Some? && current.Some?
      modifies this
      ensures Valid() && !isTyping && selected == old(selected)
      ensures outbox == old(outbox) + (if old(typingTimer) then [StopTypingEmit(selected.value, current.value)] else [])
      ensures selected == old(selected) && messages == old(messages) && partnerTyping == old(partnerTyping)
    {
      if typingTimer {
        typingTimer := false;
        isTyping := false;
        outbox := outbox + [StopTypingEmit(selected.value, current.value)];
      }
    }
  }

  /** A burst of keystrokes followed by the timeout emits exactly one userTyping and
      one userStopTyping. */
  method TypingBurst(e: Engine, keystrokes: nat)
    requires e.Valid() && !e.isTyping && e.selected.Some? && e.current.Some? && keystrokes > 0
    modifies e
    ensures e.Valid() && !e.isTyping && e.selected == old(e.selected)
    ensures e.outbox == old(e.outbox) + [TypingEmit(e.selected.value, e.current.value),
                                         StopTypingEmit(e.selected.value, e.current.value)]
  {
    e.TypingInput();
    var n := 1;
    while n < keystrokes
      invariant 1 <= n <= keystrokes
      invariant e.Valid() && e.isTyping && e.selected == old(e.selected)
      invariant e.outbox == old(e.outbox) + [TypingEmit(e.selected.value, e.current.value)]
    {
      e.TypingInput();
      n := n + 1;
    }
    e.TypingTimeout();
  }
}
