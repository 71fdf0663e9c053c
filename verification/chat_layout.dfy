/** The chat screen's own state (`ChatLayout`): the active conversation, the
    pending placeholders shown until the directory confirms a new conversation,
    the group-info panel flag and the message being replied to, with the header
    derived from them. Remote calls are replaced by the replies they produce. */
module ChatLayout {
  import opened Common
  import Text
  import Directory
  import Timeline
  import MessageInput
  import GroupInfoPanel

  /** What is known about a group before the directory lists it. */
  datatype PendingGroup = PendingGroup(name: string, memberCount: nat)

  datatype Layout = Layout(
    active: Option<ConversationId>,
    pendingUser: Option<Directory.Profile>,
    pendingGroup: Option<PendingGroup>,
    showGroupInfo: bool,
    replyTo: Option<Timeline.Message>)

  /** The state on mount. */
  function Initial(): Layout {
    Layout(None, None, None, false, None)
  }

  /** The index of the first entry with this id, or `|cs|`. */
  function FindIndex(cs: seq<Directory.Conversation>, id: ConversationId): (i: nat)
    ensures i <= |cs|
    ensures forall j :: 0 <= j < i ==> cs[j].id != id
    ensures i < |cs| ==> cs[i].id == id
  {
    if |cs| == 0 || cs[0].id == id then 0 else FindIndex(cs[1..], id) + 1
  }

  /** The first directory entry whose id is the active one, if any. */
  function ActiveConversation(cs: seq<Directory.Conversation>, active: Option<ConversationId>)
    : (r: Option<Directory.Conversation>)
    ensures r.Some? <==> active.Some? && exists i :: 0 <= i < |cs| && cs[i].id == active.value
    ensures r.Some? ==> r.value in cs && r.value.id == active.value
  {
    if active.None? then None
    else
      var i := FindIndex(cs, active.value);
      if i < |cs| then Some(cs[i]) else None
  }

  /** The user a direct header shows: the other user of the active entry when
      it has one, else the pending user. */
  function DisplayUser(a: Option<Directory.Conversation>, pendingUser: Option<Directory.Profile>)
    : (u: Option<Directory.Profile>)
    ensures a.Some? && a.value.DirectChat? && a.value.otherUser.Some? ==> u == a.value.otherUser
    ensures !(a.Some? && a.value.DirectChat? && a.value.otherUser.Some?) ==> u == pendingUser
  {
    if a.Some? && a.value.DirectChat? && a.value.otherUser.Some? then a.value.otherUser else pendingUser
  }

  /** The header shows a group when the active entry is one or a group is pending. */
  predicate IsGroup(s: Layout, cs: seq<Directory.Conversation>) {
    var a := ActiveConversation(cs, s.active);
    (a.Some? && a.value.GroupChat?) || s.pendingGroup.Some?
  }

  /** The member count a group header shows: the entry's participant count when
      that is non-zero, else the pending count, else zero. */
  function ShownMemberCount(a: Option<Directory.Conversation>, pendingGroup: Option<PendingGroup>): nat {
    if a.Some? && a.value.GroupChat? && |a.value.participants| > 0 then |a.value.participants|
    else if pendingGroup.Some? then pendingGroup.value.memberCount
    else 0
  }

  datatype Header = Header(title: string, subtitle: string)

  /** The header title and subtitle. */
  function HeaderOf(s: Layout, cs: seq<Directory.Conversation>): (h: Header)
    ensures IsGroup(s, cs) ==>
      var a := ActiveConversation(cs, s.active);
      && (a.Some? && a.value.GroupChat? && a.value.name != "" ==> h.title == a.value.name)
      && ((!(a.Some? && a.value.GroupChat? && a.value.name != "") && s.pendingGroup.Some?
           && s.pendingGroup.value.name != "") ==> h.title == s.pendingGroup.value.name)
      && ((!(a.Some? && a.value.GroupChat? && a.value.name != "")
           && !(s.pendingGroup.Some? && s.pendingGroup.value.name != "")) ==> h.title == "Group")
      && h.subtitle == Text.Decimal(ShownMemberCount(a, s.pendingGroup)) + " members"
    ensures !IsGroup(s, cs) ==>
      var u := DisplayUser(ActiveConversation(cs, s.active), s.pendingUser);
      && h.title == (if u.Some? && u.value.username != "" then u.value.username else "Chat")
      && h.subtitle == (if u.Some? && u.value.status.Some? && u.value.status.value != ""
                        then u.value.status.value else "offline")
  {
    var a := ActiveConversation(cs, s.active);
    if IsGroup(s, cs) then
      var title :=
        if a.Some? && a.value.GroupChat? && a.value.name != "" then a.value.name
        else if s.pendingGroup.Some? && s.pendingGroup.value.name != "" then s.pendingGroup.value.name
        else "Group";
      Header(title, Text.Decimal(ShownMemberCount(a, s.pendingGroup)) + " members")
    else
      var u := DisplayUser(a, s.pendingUser);
      var title := if u.Some? && u.value.username != "" then u.value.username else "Chat";
      var status := if u.Some? && u.value.status.Some? && u.value.status.value != ""
                    then u.value.status.value else "offline";
      Header(title, status)
  }

  /** `setActiveConversationId` together with the effect that clears the reply
      target whenever the id changes. */
  function SetActive(s: Layout, id: Option<ConversationId>): (r: Layout)
    ensures r.active == id
    ensures id != s.active ==> r.replyTo.None?
    ensures id == s.active ==> r == s
    ensures r.pendingUser == s.pendingUser && r.pendingGroup == s.pendingGroup
    ensures r.showGroupInfo == s.showGroupInfo
  {
    s.(active := id, replyTo := if id != s.active then None else s.replyTo)
  }

  /** `handleStartConversation(userId, userProfile)`, given the directory `cs`
      seen while the lookup-or-create call is in flight. The profile becomes
      pending at once; the clearing effect (`Reconcile`) then runs while the
      previously active conversation is still open, so the placeholders are
      dropped before the answer arrives when that conversation is listed. On
      success the answered id becomes active; on failure the pending user is
      cleared and the active id kept. */
  function StartConversation(s: Layout, cs: seq<Directory.Conversation>, profile: Option<Directory.Profile>,
                             reply: Reply<ConversationId>): (r: Layout)
    ensures var listed := ActiveConversation(cs, s.active).Some?;
            && (reply.Data? ==> r.active == Some(reply.value))
            && (reply.Data? && !listed ==> r.pendingUser == profile)
            && (listed ==> r.pendingUser.None? && r.pendingGroup.None?)
            && (!listed ==> r.pendingGroup == s.pendingGroup)
            && (reply.Error? ==> r.active == s.active && r.replyTo == s.replyTo && r.pendingUser.None?)
    ensures r.showGroupInfo == s.showGroupInfo
  {
    var waiting := Reconcile(s.(pendingUser := profile), cs);
    match reply
    case Data(id) => SetActive(waiting, Some(id))
    case Error(_) => waiting.(pendingUser := None)
  }

  /** `handleCreateGroup(name, participantIds)`, given the directory `cs` seen
      while the remote call is in flight. The pending group (invitees plus the
      creator) is recorded first, and the clearing effect runs while the
      previously active conversation is still open, dropping both placeholders
      when that conversation is listed. On success the new group becomes
      active; a failure is passed on and the active id kept. */
  function CreateGroup(s: Layout, cs: seq<Directory.Conversation>, user: Option<UserId>, name: string,
                       participantIds: seq<UserId>, reply: Reply<ConversationId>)
    : (r: (Layout, Directory.Mutation<ConversationId>))
    ensures var listed := ActiveConversation(cs, s.active).Some?;
            && (!listed ==> r.0.pendingGroup == Some(PendingGroup(name, |participantIds| + 1))
                            && r.0.pendingUser == s.pendingUser)
            && (listed ==> r.0.pendingGroup.None? && r.0.pendingUser.None?)
    ensures r.1 == Directory.CreateGroupConversation(user, name, participantIds, reply)
    ensures r.1.outcome.Done? ==> r.0.active == Some(r.1.outcome.value)
    ensures r.1.outcome.Threw? ==> r.0.active == s.active && r.0.replyTo == s.replyTo
    ensures r.0.showGroupInfo == s.showGroupInfo
  {
    var waiting := Reconcile(s.(pendingGroup := Some(PendingGroup(name, |participantIds| + 1))), cs);
    var m := Directory.CreateGroupConversation(user, name, participantIds, reply);
    match m.outcome
    case Done(id) => (SetActive(waiting, Some(id)), m)
    case Threw(_) => (waiting, m)
  }

  /** The effect that drops both placeholders once the active id is in the
      directory, and changes nothing otherwise. */
  function Reconcile(s: Layout, cs: seq<Directory.Conversation>): (r: Layout)
    ensures ActiveConversation(cs, s.active).Some? ==>
      r == s.(pendingUser := None, pendingGroup := None)
    ensures ActiveConversation(cs, s.active).None? ==> r == s
  {
    if ActiveConversation(cs, s.active).Some? then s.(pendingUser := None, pendingGroup := None) else s
  }

  /** Once the directory lists the active conversation, the header no longer
      depends on any placeholder: two states that differ only in their pending
      values show the same header. */
  lemma ConfirmedHeaderIgnoresPlaceholders(s: Layout, t: Layout, cs: seq<Directory.Conversation>)
    requires s.active == t.active
    requires ActiveConversation(cs, s.active).Some?
    ensures HeaderOf(Reconcile(s, cs), cs) == HeaderOf(Reconcile(t, cs), cs)
  {
  }

  /** Once confirmed, a direct chat's header shows the other user from the
      directory, never the pending profile. */
  lemma ConfirmedDirectChatShowsOtherUser(s: Layout, cs: seq<Directory.Conversation>, other: Directory.Profile)
    requires ActiveConversation(cs, s.active).Some?
    requires ActiveConversation(cs, s.active).value == Directory.DirectChat(
      s.active.value, Some(other), ActiveConversation(cs, s.active).value.lastMessage,
      ActiveConversation(cs, s.active).value.lastMessageTime, ActiveConversation(cs, s.active).value.updatedAt)
    requires other.username != ""
    ensures HeaderOf(Reconcile(s, cs), cs).title == other.username
  {
  }

  /** Creating "Trio" with two invitees from a screen with no listed
      conversation open shows "Trio" and "3 members" until the directory lists
      the new group. */
  lemma PendingGroupHeader(s: Layout, user: UserId, d: UserId, e: UserId, id: ConversationId,
                           cs: seq<Directory.Conversation>)
    requires ActiveConversation(cs, s.active).None?
    requires forall i :: 0 <= i < |cs| ==> cs[i].id != id
    ensures var r := CreateGroup(s, cs, Some(user), "Trio", [d, e], Data(id)).0;
            r.active == Some(id) && HeaderOf(r, cs) == Header("Trio", "3 members")
  {
    var r := CreateGroup(s, cs, Some(user), "Trio", [d, e], Data(id)).0;
    assert ActiveConversation(cs, r.active).None?;
    assert Text.Decimal(3) == "3";
  }

  /** Starting a chat or creating a group while a listed conversation is open
      loses the placeholder during the wait: until the directory lists the new
      id, the header falls back to "Chat" and "offline". */
  lemma PlaceholderLostWhenListedChatOpen(s: Layout, cs: seq<Directory.Conversation>, user: UserId,
                                          profile: Directory.Profile, name: string,
                                          participantIds: seq<UserId>, id: ConversationId)
    requires ActiveConversation(cs, s.active).Some?
    requires forall i :: 0 <= i < |cs| ==> cs[i].id != id
    ensures var r := StartConversation(s, cs, Some(profile), Data(id));
            r.active == Some(id) && r.pendingUser.None? && HeaderOf(r, cs) == Header("Chat", "offline")
    ensures var r := CreateGroup(s, cs, Some(user), name, participantIds, Data(id)).0;
            r.active == Some(id) && r.pendingGroup.None? && HeaderOf(r, cs) == Header("Chat", "offline")
  {
  }

  /** `onSelectConversation(id)`: both placeholders are dropped and the id becomes active. */
  function Select(s: Layout, id: ConversationId): (r: Layout)
    ensures r.active == Some(id) && r.pendingUser.None? && r.pendingGroup.None?
    ensures Some(id) != s.active ==> r.replyTo.None?
    ensures r.showGroupInfo == s.showGroupInfo
  {
    SetActive(s.(pendingUser := None, pendingGroup := None), Some(id))
  }

  /** `handleLeaveGroup` once `leaveGroup` has answered: nothing without an active
      conversation; on success the conversation is deactivated and the panel
      closed; on failure nothing changes. */
  function LeaveActive<T>(s: Layout, user: Option<UserId>, reply: Reply<T>)
    : (r: (Layout, Option<Directory.Mutation<T>>))
    ensures s.active.None? ==> r == (s, None)
    ensures s.active.Some? ==> r.1 == Some(Directory.LeaveGroup(user, s.active.value, reply))
    ensures s.active.Some? && user.Some? && reply.Data? ==>
      r.0 == s.(active := None, showGroupInfo := false, replyTo := None)
    ensures user.None? || reply.Error? ==> r.0 == s
  {
    if s.active.None? then (s, None)
    else
      var m := Directory.LeaveGroup(user, s.active.value, reply);
      if m.outcome.Done? then (SetActive(s, None).(showGroupInfo := false), Some(m)) else (s, Some(m))
  }

  /** `handleDeleteGroup(conversationId)` once `deleteGroup` has answered: on
      success no conversation is active and the panel is closed, while both
      placeholders are kept; on failure nothing changes. */
  function DeleteGroup<T>(s: Layout, user: Option<UserId>, conversation: ConversationId, reply: Reply<T>)
    : (r: (Layout, Directory.Mutation<T>))
    ensures r.1 == Directory.DeleteGroup(user, conversation, reply)
    ensures user.Some? && reply.Data? ==>
      r.0 == s.(active := None, showGroupInfo := false, replyTo := if s.active.Some? then None else s.replyTo)
    ensures user.None? || reply.Error? ==> r.0 == s
  {
    var m := Directory.DeleteGroup(user, conversation, reply);
    if m.outcome.Done? then (SetActive(s, None).(showGroupInfo := false), m) else (s, m)
  }

  /** `handleReply(message)`. */
  function ReplyTo(s: Layout, m: Timeline.Message): (r: Layout)
    ensures r.replyTo == Some(m) && r.active == s.active
  {
    s.(replyTo := Some(m))
  }

  /** A click on the header opens the panel only for a group. */
  function OpenGroupInfo(s: Layout, cs: seq<Directory.Conversation>): (r: Layout)
    ensures r.showGroupInfo <==> s.showGroupInfo || IsGroup(s, cs)
    ensures r.(showGroupInfo := s.showGroupInfo) == s
  {
    if IsGroup(s, cs) then s.(showGroupInfo := true) else s
  }

  /** The panel is rendered only while its flag is set and the header shows a group. */
  predicate PanelShown(s: Layout, cs: seq<Directory.Conversation>) {
    s.showGroupInfo && IsGroup(s, cs)
  }

  /** `handleSendMessage(content, replyToId)`: the hook's `sendMessage` takes the
      content alone, so the row inserted is the same whatever reply id is passed.
      The result is only logged: the handler itself always returns normally,
      which `ComposerSend` spells out. */
  function HandleSend(s: Layout, user: Option<UserId>, content: string, replyToId: Option<MessageId>,
                      reply: Reply<()>): (r: Timeline.SendResult)
    ensures r.Skipped? <==> s.active.None? || user.None? || Text.IsBlank(content)
    ensures !r.Skipped? ==> r.row == Timeline.NewMessage(s.active.value, user.value, Text.Trim(content))
  {
    Timeline.SendMessage(s.active, user, content, reply)
  }

  /** The composer wired to `handleSendMessage`: a submit that is not refused
      hands the field's text on (with no reply id), and because that handler
      catches a failed insert, the composer always takes its success path. */
  function ComposerSend(s: Layout, user: Option<UserId>, input: MessageInput.InputState, reply: Reply<()>)
    : (r: (MessageInput.InputState, Option<Timeline.SendResult>))
    ensures MessageInput.Refused(input) ==> r == (input, None)
    ensures !MessageInput.Refused(input) ==>
      && r.1 == Some(HandleSend(s, user, input.text, None, reply))
      && r.0 == MessageInput.Submit(input, true).0
      && r.0.text == [] && r.0.justSent && !r.0.sending
  {
    var (started, sent) := MessageInput.BeginSubmit(input);
    if sent.None? then (input, None)
    else (MessageInput.FinishSubmit(started, true), Some(HandleSend(s, user, sent.value, None, reply)))
  }

  /** A failed insert still empties the field: the message typed is neither
      stored nor kept for another try. */
  lemma FailedInsertClearsField(s: Layout, user: UserId, input: MessageInput.InputState, message: Option<string>)
    requires s.active.Some? && !MessageInput.Refused(input)
    ensures ComposerSend(s, Some(user), input, Error(message)).1.value.SendFailed?
    ensures ComposerSend(s, Some(user), input, Error(message)).0.text == []
  {
  }

  /** The panel's leave button wired to `handleLeaveGroup`: that handler catches
      a failure, so the panel's own handler always goes on to `onClose`, which
      hides the panel. Only a successful leave deactivates the conversation. */
  function PanelLeave<T>(s: Layout, user: Option<UserId>, reply: Reply<T>)
    : (r: (Layout, GroupInfoPanel.Confirm))
    ensures !r.0.showGroupInfo && r.1.closed
    ensures r.1 == GroupInfoPanel.Finish(true, true, true)
    ensures s.active.Some? && user.Some? && reply.Data? ==>
      r.0 == s.(active := None, showGroupInfo := false, replyTo := None)
    ensures s.active.None? || user.None? || reply.Error? ==> r.0 == s.(showGroupInfo := false)
  {
    (LeaveActive(s, user, reply).0.(showGroupInfo := false), GroupInfoPanel.Finish(true, true, true))
  }

  /** The panel's delete button wired to `handleDeleteGroup`, in the same way:
      the panel closes whatever the answer, and only success deactivates. */
  function PanelDelete<T>(s: Layout, user: Option<UserId>, conversation: ConversationId, reply: Reply<T>)
    : (r: (Layout, GroupInfoPanel.Confirm))
    ensures !r.0.showGroupInfo && r.1.closed
    ensures r.1 == GroupInfoPanel.Finish(true, true, true)
    ensures user.Some? && reply.Data? ==>
      r.0 == s.(active := None, showGroupInfo := false, replyTo := if s.active.Some? then None else s.replyTo)
    ensures user.None? || reply.Error? ==> r.0 == s.(showGroupInfo := false)
  {
    (DeleteGroup(s, user, conversation, reply).0.(showGroupInfo := false), GroupInfoPanel.Finish(true, true, true))
  }

  /** After a failed leave the panel is gone but the group is still the active
      conversation, so its header stays on screen. */
  lemma FailedLeaveKeepsConversation<T>(s: Layout, cs: seq<Directory.Conversation>, user: UserId,
                                        message: Option<string>)
    requires s.active.Some?
    ensures var r := PanelLeave<T>(s, Some(user), Error(message)).0;
            r.active == s.active && !PanelShown(r, cs) && HeaderOf(r, cs) == HeaderOf(s, cs)
  {
  }
}
