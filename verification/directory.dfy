/** The conversation directory (the `useConversations` hook): how the rows the
    database returns are turned into the sidebar's list, and the guarded group
    mutators that ask for a refetch after they succeed. Query answers are inputs. */
module Directory {
  import opened Common
  import Text
  import Seqs

  /** A user's public profile. */
  datatype Profile = Profile(id: UserId, username: string, avatarUrl: Option<string>, status: Option<string>)

  /** A `conversation_participants` row with the participant's profile joined in. */
  datatype RawParticipant = RawParticipant(userId: UserId, role: Option<string>, profile: Profile)

  /** A message row as the directory query selects it. */
  datatype RawMessage = RawMessage(content: string, createdAt: int, senderId: UserId)

  /** A `conversations` row with its participants and all of its messages. */
  datatype RawConversation = RawConversation(
    id: ConversationId,
    kind: string,
    name: Option<string>,
    avatarUrl: Option<string>,
    createdAt: int,
    updatedAt: int,
    participants: seq<RawParticipant>,
    messages: seq<RawMessage>)

  /** A group participant as the client keeps it: the profile plus a role. */
  datatype Member = Member(profile: Profile, role: string)

  /** A formatted directory entry. */
  datatype Conversation =
    | GroupChat(id: ConversationId, name: string, avatarUrl: Option<string>, participants: seq<Member>,
                lastMessage: Option<string>, lastMessageTime: Option<int>, updatedAt: int)
    | DirectChat(id: ConversationId, otherUser: Option<Profile>,
                 lastMessage: Option<string>, lastMessageTime: Option<int>, updatedAt: int)

  const GroupKind := "group"
  const UnnamedGroup := "Unnamed Group"
  const DefaultRole := "member"

  /** The message that sorting by `created_at` descending puts first: one with the
      greatest creation time, and the earliest of those in the given order, since
      the sort is stable. */
  function LatestIndex(ms: seq<RawMessage>): (i: nat)
    requires |ms| > 0
    ensures i < |ms|
    ensures forall j :: 0 <= j < |ms| ==> ms[j].createdAt <= ms[i].createdAt
    ensures forall j :: 0 <= j < i ==> ms[j].createdAt < ms[i].createdAt
  {
    if |ms| == 1 then 0
    else
      var k := LatestIndex(ms[1..]) + 1;
      if ms[0].createdAt >= ms[k].createdAt then 0 else k
  }

  /** The index of the first participant who is not `me`, or `|ps|` when there is none. */
  function FirstOther(ps: seq<RawParticipant>, me: UserId): (i: nat)
    ensures i <= |ps|
    ensures forall j :: 0 <= j < i ==> ps[j].userId == me
    ensures i < |ps| ==> ps[i].userId != me
  {
    if |ps| == 0 || ps[0].userId != me then 0 else FirstOther(ps[1..], me) + 1
  }

  /** A participant's role, or 'member' when it is missing or empty. */
  function RoleOr(role: Option<string>): string {
    if role.Some? && role.value != "" then role.value else DefaultRole
  }

  /** A group's name, or 'Unnamed Group' when it is missing or empty. */
  function NameOr(name: Option<string>): string {
    if name.Some? && name.value != "" then name.value else UnnamedGroup
  }

  /** Formats one row for the current user `me`. */
  function Format(c: RawConversation, me: UserId): (r: Conversation)
    ensures r.id == c.id && r.updatedAt == c.updatedAt
    ensures r.GroupChat? <==> c.kind == GroupKind
    ensures r.lastMessage.None? <==> |c.messages| == 0
    ensures r.lastMessageTime.None? <==> |c.messages| == 0
    ensures |c.messages| > 0 ==>
      var i := LatestIndex(c.messages);
      r.lastMessage == Some(c.messages[i].content) && r.lastMessageTime == Some(c.messages[i].createdAt)
    ensures r.GroupChat? ==>
      && (r.name == UnnamedGroup || (c.name == Some(r.name) && r.name != ""))
      && (c.name.Some? && c.name.value != "" ==> r.name == c.name.value)
      && |r.participants| == |c.participants|
      && forall i :: 0 <= i < |c.participants| ==>
           && r.participants[i].profile == c.participants[i].profile
           && (c.participants[i].role.Some? && c.participants[i].role.value != "" ==>
                 r.participants[i].role == c.participants[i].role.value)
           && (c.participants[i].role.None? || c.participants[i].role.value == "" ==>
                 r.participants[i].role == DefaultRole)
    ensures r.DirectChat? ==>
      && (r.otherUser.None? <==> forall j :: 0 <= j < |c.participants| ==> c.participants[j].userId == me)
      && (r.otherUser.Some? ==>
            exists i :: (0 <= i < |c.participants| && c.participants[i].userId != me
                         && r.otherUser.value == c.participants[i].profile
                         && forall j :: 0 <= j < i ==> c.participants[j].userId == me))
  {
    var last := if |c.messages| == 0 then None else Some(c.messages[LatestIndex(c.messages)]);
    var lastMessage := if last.Some? then Some(last.value.content) else None;
    var lastMessageTime := if last.Some? then Some(last.value.createdAt) else None;
    if c.kind == GroupKind then
      var members := seq(|c.participants|, i requires 0 <= i < |c.participants| =>
                           Member(c.participants[i].profile, RoleOr(c.participants[i].role)));
      GroupChat(c.id, NameOr(c.name), c.avatarUrl, members, lastMessage, lastMessageTime, c.updatedAt)
    else
      var k := FirstOther(c.participants, me);
      var other := if k < |c.participants| then Some(c.participants[k].profile) else None;
      DirectChat(c.id, other, lastMessage, lastMessageTime, c.updatedAt)
  }

  /** Shown in the sidebar: a conversation with a (non-empty) last message, or any group. */
  predicate Visible(c: Conversation) {
    (c.lastMessage.Some? && c.lastMessage.value != "") || c.GroupChat?
  }

  /** The time a conversation is ordered by: its last message's time, or its
      update time when it has no message. */
  function SortKey(c: Conversation): int {
    if c.lastMessageTime.Some? then c.lastMessageTime.value else c.updatedAt
  }

  predicate NewestFirst(cs: seq<Conversation>) {
    forall i, j :: 0 <= i < j < |cs| ==> SortKey(cs[i]) >= SortKey(cs[j])
  }

  /** Puts `c` in front of the first entry that is not newer than it. */
  function Insert(c: Conversation, cs: seq<Conversation>): (r: seq<Conversation>)
    requires NewestFirst(cs)
    ensures |r| == |cs| + 1
    ensures r[0] == c || (|cs| > 0 && r[0] == cs[0])
    ensures NewestFirst(r)
    ensures multiset(r) == multiset(cs) + multiset{c}
  {
    if |cs| == 0 || SortKey(cs[0]) <= SortKey(c) then [c] + cs
    else
      var rest := Insert(c, cs[1..]);
      assert cs == [cs[0]] + cs[1..];
      assert SortKey(cs[0]) >= SortKey(rest[0]);
      [cs[0]] + rest
  }

  /** The sort by `SortKey`, newest first. */
  function SortByRecency(cs: seq<Conversation>): (r: seq<Conversation>)
    ensures NewestFirst(r)
    ensures multiset(r) == multiset(cs)
  {
    if |cs| == 0 then []
    else
      assert cs == [cs[0]] + cs[1..];
      Insert(cs[0], SortByRecency(cs[1..]))
  }

  /** Every row formatted, in the order the database returned them. */
  function FormatAll(rows: seq<RawConversation>, me: UserId): (r: seq<Conversation>)
    ensures |r| == |rows|
    ensures forall i :: 0 <= i < |rows| ==> r[i] == Format(rows[i], me)
  {
    seq(|rows|, i requires 0 <= i < |rows| => Format(rows[i], me))
  }

  /** The sidebar list built from the conversation rows: the visible entries,
      newest first. */
  function Listing(rows: seq<RawConversation>, me: UserId): (r: seq<Conversation>)
    ensures NewestFirst(r)
    ensures multiset(r) == multiset(Seqs.Filter(Visible, FormatAll(rows, me)))
    ensures forall c :: c in r <==> Visible(c) && c in FormatAll(rows, me)
  {
    var kept := Seqs.Filter(Visible, FormatAll(rows, me));
    Seqs.FilterMembers(Visible, FormatAll(rows, me));
    var r := SortByRecency(kept);
    assert forall c :: c in r <==> c in kept by {
      forall c ensures c in r <==> c in kept {
        assert c in r <==> c in multiset(r);
      }
    }
    r
  }

  /** A row whose formatted entry is visible appears in the list, and nothing else does. */
  lemma ListingKeepsExactlyVisible(rows: seq<RawConversation>, me: UserId, i: nat)
    requires i < |rows|
    ensures Format(rows[i], me) in Listing(rows, me) <==>
            (rows[i].kind == GroupKind
             || (|rows[i].messages| > 0 && rows[i].messages[LatestIndex(rows[i].messages)].content != ""))
  {
    assert FormatAll(rows, me)[i] == Format(rows[i], me);
  }

  /** The hook's state. */
  datatype DirState = DirState(
    conversations: seq<Conversation>,
    loading: bool,
    error: Option<string>,
    initialLoad: bool)

  /** `fetchConversations` once both of its queries have answered: without a user
      nothing runs; a user with no memberships gets an empty list; an error is
      recorded and keeps the previous list; loading ends either way. */
  function Refresh(d: DirState, user: Option<UserId>, memberships: Reply<seq<ConversationId>>,
                   rows: Reply<seq<RawConversation>>): (r: DirState)
    ensures user.None? ==> r == d
    ensures user.Some? ==> !r.loading && !r.initialLoad
    ensures user.Some? && memberships == Data([]) ==> r.conversations == [] && r.error == d.error
    ensures user.Some? && memberships.Error? ==> r.conversations == d.conversations && r.error == memberships.message
    ensures user.Some? && memberships.Data? && |memberships.value| > 0 && rows.Error? ==>
      r.conversations == d.conversations && r.error == rows.message
    ensures user.Some? && memberships.Data? && |memberships.value| > 0 && rows.Data? ==>
      r.conversations == Listing(rows.value, user.value) && r.error == d.error
  {
    if user.None? then d
    else
      var done := d.(loading := false, initialLoad := false);
      match memberships
      case Error(m) => done.(error := m)
      case Data(ids) =>
        if |ids| == 0 then done.(conversations := [])
        else
          match rows
          case Error(m) => done.(error := m)
          case Data(rs) => done.(conversations := Listing(rs, user.value))
  }

  /** The example ordering: a group whose last message is at 5, a direct chat
      whose last message is at 10 and an empty group updated at 3 are listed as
      the direct chat, the first group, the empty group. */
  lemma ExampleOrdering(groupA: Conversation, direct: Conversation, groupB: Conversation)
    requires groupA.lastMessageTime == Some(5) && direct.lastMessageTime == Some(10)
    requires groupB.lastMessageTime == None && groupB.updatedAt == 3
    ensures SortByRecency([groupA, direct, groupB]) == [direct, groupA, groupB]
  {
    var a, d, b := groupA, direct, groupB;
    assert [a, d, b][1..] == [d, b];
    ExampleTail(d, b);
    ExampleInsert(a, d, b);
  }

  lemma ExampleTail(d: Conversation, b: Conversation)
    requires SortKey(d) == 10 && SortKey(b) == 3
    ensures SortByRecency([d, b]) == [d, b]
  {
    assert [d, b][1..] == [b];
    assert SortByRecency([b]) == [b];
  }

  lemma ExampleInsert(a: Conversation, d: Conversation, b: Conversation)
    requires SortKey(a) == 5 && SortKey(d) == 10 && SortKey(b) == 3
    ensures Insert(a, [d, b]) == [d, a, b]
  {
    assert [d, b][1..] == [b];
    assert Insert(a, [b]) == [a, b];
  }

  /** No element occurs twice. */
  predicate NoDuplicates(s: seq<UserId>) {
    forall i, j :: 0 <= i < j < |s| ==> s[i] != s[j]
  }

  /** Each element once, at the place it first occurs, as spreading a `Set` built
      from the list gives. */
  function Dedup(s: seq<UserId>): (r: seq<UserId>)
    ensures NoDuplicates(r)
    ensures forall x :: multiset(r)[x] == if x in s then 1 else 0
    ensures |s| > 0 ==> |r| > 0 && r[0] == s[0]
  {
    if |s| == 0 then []
    else
      var init := s[..|s| - 1];
      var last := s[|s| - 1];
      var d := Dedup(init);
      assert s == init + [last];
      assert forall x :: x in d <==> x in init by {
        forall x ensures x in d <==> x in init {
          assert x in d <==> multiset(d)[x] > 0;
        }
      }
      assert |init| > 0 ==> init[0] == s[0];
      if last in d then d else d + [last]
  }

  /** The participant list sent when creating a group: the creator first, then the
      invitees, each person exactly once. */
  function WithCreator(creator: UserId, invitees: seq<UserId>): (r: seq<UserId>)
    ensures |r| > 0 && r[0] == creator
    ensures NoDuplicates(r)
    ensures forall x :: multiset(r)[x] == if x == creator || x in invitees then 1 else 0
  {
    Dedup([creator] + invitees)
  }

  /** Adding one more element to the input adds it to the end of the result,
      unless it was already there. */
  lemma DedupSnoc(s: seq<UserId>, x: UserId)
    ensures Dedup(s + [x]) == if x in s then Dedup(s) else Dedup(s) + [x]
  {
    var t := s + [x];
    assert t[..|t| - 1] == s && t[|t| - 1] == x;
    assert x in Dedup(s) <==> x in s by {
      assert x in Dedup(s) <==> multiset(Dedup(s))[x] > 0;
    }
  }

  /** A list without repeats is its own de-duplication. */
  lemma {:induction false} DedupKeepsDistinct(s: seq<UserId>)
    requires NoDuplicates(s)
    ensures Dedup(s) == s
    decreases |s|
  {
    if |s| > 0 {
      var init, last := s[..|s| - 1], s[|s| - 1];
      assert s == init + [last];
      assert last !in init by {
        forall i | 0 <= i < |init| ensures init[i] != last {
          assert init[i] == s[i];
        }
      }
      assert NoDuplicates(init) by {
        forall i, j | 0 <= i < j < |init| ensures init[i] != init[j] {
          assert init[i] == s[i] && init[j] == s[j];
        }
      }
      DedupKeepsDistinct(init);
      DedupSnoc(init, last);
    }
  }

  /** When the creator and the invitees are all different people, the list sent
      is the creator followed by the invitees in the order given. */
  lemma WithCreatorKeepsDistinct(creator: UserId, invitees: seq<UserId>)
    requires NoDuplicates([creator] + invitees)
    ensures WithCreator(creator, invitees) == [creator] + invitees
  {
    DedupKeepsDistinct([creator] + invitees);
  }

  /** The example group: creator C inviting D and E sends exactly [C, D, E]. */
  lemma TrioParticipants(c: UserId, d: UserId, e: UserId)
    requires c != d && c != e && d != e
    ensures WithCreator(c, [d, e]) == [c, d, e]
  {
    assert [c] + [d, e] == [c, d, e];
    WithCreatorKeepsDistinct(c, [d, e]);
  }

  /** The remote procedures the mutators call, with their arguments. */
  datatype Rpc =
    | CreateGroupRpc(groupName: string, participantIds: seq<UserId>)
    | LeaveGroupRpc(conversation: ConversationId)
    | AddMembersRpc(conversation: ConversationId, newMemberIds: seq<UserId>)
    | RemoveMemberRpc(conversation: ConversationId, target: UserId)
    | DeleteGroupRpc(conversation: ConversationId)

  /** Why a mutator threw. */
  datatype Failure = NotAuthenticated | Remote(message: Option<string>) {
    function Message(): Option<string> {
      match this
      case NotAuthenticated => Some("Not authenticated")
      case Remote(m) => m
    }
  }

  datatype Outcome<+T> = Done(value: T) | Threw(failure: Failure)

  /** What a mutator did: the remote call it made (if any), how it ended, and
      whether it started a refetch of the directory. */
  datatype Mutation<+T> = Mutation(call: Option<Rpc>, outcome: Outcome<T>, refetch: bool)

  /** The shape every mutator shares: throw 'Not authenticated' without a user;
      otherwise call the procedure, rethrow its error, and only on success refetch
      and return its data. */
  function Mutate<T>(user: Option<UserId>, rpc: UserId -> Rpc, reply: Reply<T>): (m: Mutation<T>)
    ensures user.None? ==> m == Mutation(None, Threw(NotAuthenticated), false)
    ensures user.Some? ==> m.call == Some(rpc(user.value))
    ensures m.refetch <==> m.outcome.Done?
    ensures m.refetch <==> user.Some? && reply.Data?
    ensures user.Some? && reply.Data? ==> m.outcome == Done(reply.value)
    ensures user.Some? && reply.Error? ==> m.outcome == Threw(Remote(reply.message))
  {
    match user
    case None => Mutation(None, Threw(NotAuthenticated), false)
    case Some(me) =>
      match reply
      case Data(v) => Mutation(Some(rpc(me)), Done(v), true)
      case Error(msg) => Mutation(Some(rpc(me)), Threw(Remote(msg)), false)
  }

  /** `createGroupConversation(groupName, participantIds)`. */
  function CreateGroupConversation(user: Option<UserId>, groupName: string, participantIds: seq<UserId>,
                                   reply: Reply<ConversationId>): (m: Mutation<ConversationId>)
    ensures m.call.Some? <==> user.Some?
    ensures m.call.Some? ==>
      && m.call.value.CreateGroupRpc?
      && m.call.value.groupName == groupName
      && m.call.value.participantIds == WithCreator(user.value, participantIds)
    ensures m.refetch <==> user.Some? && reply.Data?
    ensures user.None? ==> m.outcome == Threw(NotAuthenticated)
    ensures user.Some? && reply.Data? ==> m.outcome == Done(reply.value)
    ensures user.Some? && reply.Error? ==> m.outcome == Threw(Remote(reply.message))
  {
    Mutate(user, me => CreateGroupRpc(groupName, WithCreator(me, participantIds)), reply)
  }

  /** `leaveGroup(conversationId)`; the data is 'left' or 'deleted'. */
  function LeaveGroup<T>(user: Option<UserId>, conversation: ConversationId, reply: Reply<T>): (m: Mutation<T>)
    ensures m.call == if user.Some? then Some(LeaveGroupRpc(conversation)) else None
    ensures m.refetch <==> user.Some? && reply.Data?
    ensures user.None? ==> m.outcome == Threw(NotAuthenticated)
    ensures user.Some? && reply.Data? ==> m.outcome == Done(reply.value)
    ensures user.Some? && reply.Error? ==> m.outcome == Threw(Remote(reply.message))
  {
    Mutate(user, _ => LeaveGroupRpc(conversation), reply)
  }

  /** `addMembersToGroup(conversationId, newMemberIds)`. */
  function AddMembersToGroup<T>(user: Option<UserId>, conversation: ConversationId, newMemberIds: seq<UserId>,
                                reply: Reply<T>): (m: Mutation<T>)
    ensures m.call == if user.Some? then Some(AddMembersRpc(conversation, newMemberIds)) else None
    ensures m.refetch <==> user.Some? && reply.Data?
    ensures user.None? ==> m.outcome == Threw(NotAuthenticated)
    ensures user.Some? && reply.Data? ==> m.outcome == Done(reply.value)
    ensures user.Some? && reply.Error? ==> m.outcome == Threw(Remote(reply.message))
  {
    Mutate(user, _ => AddMembersRpc(conversation, newMemberIds), reply)
  }

  /** `removeMemberFromGroup(conversationId, targetUserId)`. */
  function RemoveMemberFromGroup<T>(user: Option<UserId>, conversation: ConversationId, target: UserId,
                                    reply: Reply<T>): (m: Mutation<T>)
    ensures m.call == if user.Some? then Some(RemoveMemberRpc(conversation, target)) else None
    ensures m.refetch <==> user.Some? && reply.Data?
    ensures user.None? ==> m.outcome == Threw(NotAuthenticated)
    ensures user.Some? && reply.Data? ==> m.outcome == Done(reply.value)
    ensures user.Some? && reply.Error? ==> m.outcome == Threw(Remote(reply.message))
  {
    Mutate(user, _ => RemoveMemberRpc(conversation, target), reply)
  }

  /** `deleteGroup(conversationId)`. */
  function DeleteGroup<T>(user: Option<UserId>, conversation: ConversationId, reply: Reply<T>): (m: Mutation<T>)
    ensures m.call == if user.Some? then Some(DeleteGroupRpc(conversation)) else None
    ensures m.refetch <==> user.Some? && reply.Data?
    ensures user.None? ==> m.outcome == Threw(NotAuthenticated)
    ensures user.Some? && reply.Data? ==> m.outcome == Done(reply.value)
    ensures user.Some? && reply.Error? ==> m.outcome == Threw(Remote(reply.message))
  {
    Mutate(user, _ => DeleteGroupRpc(conversation), reply)
  }

  /** The mutators differ only in the procedure they call: for the same user and
      answer they end the same way, and a failure carries the backend's message,
      or 'Not authenticated' when nobody is signed in. */
  lemma MutatorsShareOutcome<T>(user: Option<UserId>, conversation: ConversationId, ids: seq<UserId>,
                                target: UserId, reply: Reply<T>)
    ensures && LeaveGroup(user, conversation, reply).outcome == DeleteGroup(user, conversation, reply).outcome
            && AddMembersToGroup(user, conversation, ids, reply).outcome == DeleteGroup(user, conversation, reply).outcome
            && RemoveMemberFromGroup(user, conversation, target, reply).outcome == DeleteGroup(user, conversation, reply).outcome
    ensures DeleteGroup(user, conversation, reply).outcome.Threw? ==>
      DeleteGroup(user, conversation, reply).outcome.failure.Message() ==
        if user.None? then Some("Not authenticated") else reply.message
  {
  }
}
