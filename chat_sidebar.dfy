/** The user list of client/src/components/ChatSidebar.jsx: the search filter, the
    online dot, the preview line, the empty-list message and selecting a user. */
module ChatSidebar {
  import opened Common
  import opened ClientTypes
  import opened ChatLayout

  /** The camera emoji that opens the preview of an image. */
  const Camera: char := '\U{1F4F7}'

  /** The preview line: "📷 Image" for a stored "[IMAGE]", otherwise the stored text,
      or "No messages" when nothing non-empty is stored. */
  function Preview(recent: map<string, string>, id: Option<string>): string
  {
    var key := PreviewKey(id);
    if key in recent && recent[key] == "[IMAGE]" then [Camera] + " Image"
    else if key in recent && recent[key] != "" then recent[key]
    else "No messages"
  }

  /** The online dot: `onlineUsers.some(u => u._id === user._id)`, with no guard on a
      missing id. */
  function OnlineDot(online: JsArray<Option<string>>, id: Option<string>): bool
  {
    AnyIdIs(ItemsOr(online, []), id)
  }

  /** For a user with an id the dot agrees with the page's isOnline; a user without
      an id gets a dot as soon as some online entry lacks one too, where isOnline
      says no. */
  lemma OnlineDotMatchesIsOnline(online: JsArray<Option<string>>, id: Option<string>)
    ensures Truthy(id) ==> OnlineDot(online, id) == IsOnline(online, id)
    ensures id.None? && online.Arr? && None in online.items ==> OnlineDot(online, id) && !IsOnline(online, id)
    ensures online.Absent? ==> !OnlineDot(online, id)
  {
    if id.None? && online.Arr? && None in online.items {
      var k :| 0 <= k < |online.items| && online.items[k] == None;
    }
  }

  /** The text shown when the filtered list is empty. */
  function EmptyText(allUsers: seq<ChatUser>, search: string): Option<string>
  {
    if FilterUsers(allUsers, search) == [] then
      Some(if allUsers == [] then "No users available" else "No matches found")
    else None
  }

  /** With an empty search the list is empty only when no user has a name; so with
      named users "No matches found" appears only for a real search text. */
  lemma EmptyTextWithoutSearch(allUsers: seq<ChatUser>)
    requires forall k :: 0 <= k < |allUsers| ==> allUsers[k].name.Some?
    ensures EmptyText(allUsers, "") == (if allUsers == [] then Some("No users available") else None)
  {
    FilterUsersOutcome(allUsers, "");
    if allUsers != [] {
      assert allUsers[0] in FilterUsers(allUsers, "");
    }
  }

  /** handleUserSelect: a user without an id is ignored, any other becomes the
      selected user. */
  function Select(user: Option<ChatUser>): Option<ChatUser>
  {
    if user.Some? && Truthy(user.value.id) then user else None
  }

  /** Selection here and on the chat page accept the same users. */
  lemma SelectAgreesWithPage(user: Option<ChatUser>)
    ensures Select(user).Some? <==> SelectUser(user).Some?
    ensures Select(user).Some? ==> Select(user).value == SelectUser(user).value.0
  {
  }

  /** An image the user sent shows as "📷 Image" on the receiver's row. */
  lemma SentImageShowsCamera(recent: map<string, string>, msg: ChatEngine.ChatMessage)
    requires msg.isImage
    ensures Preview(OnReceive(recent, msg), Some(msg.receiver)) == [Camera] + " Image"
  {
    OnReceiveOutcome(recent, msg);
  }
}
