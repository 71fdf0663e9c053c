/** The group information panel (`GroupInfoPanel`): the group's initials, who
    counts as its admin, which controls each viewer is offered, and the remove,
    leave and delete buttons' handlers. */
module GroupInfoPanel {
  import opened Common
  import Text
  import Seqs
  import Directory
  import AddMemberModal

  /** The length of the first word of `s`: the characters before its first
      white space, or all of `s` when it has none. */
  function WordLength(s: string): (n: nat)
    ensures n <= |s|
    ensures forall k :: 0 <= k < n ==> !Text.IsSpace(s[k])
    ensures n < |s| ==> Text.IsSpace(s[n])
  {
    if |s| == 0 || Text.IsSpace(s[0]) then 0
    else
      var n := WordLength(s[1..]);
      assert forall k :: 1 <= k < |s| ==> s[k] == s[1..][k - 1];
      1 + n
  }

  /** The first word is all of `s` exactly when `s` has no white space. */
  lemma WholeWordIffNoSpace(s: string)
    ensures WordLength(s) == |s| <==> !Text.HasSpace(s)
  {
  }

  /** Where the second word of `s` starts: past the first word and the run of
      white space after it. */
  function NextWord(s: string): (j: nat)
    requires WordLength(s) < |s|
    ensures WordLength(s) < j <= |s|
    ensures forall k :: WordLength(s) <= k < j ==> Text.IsSpace(s[k])
    ensures j < |s| ==> !Text.IsSpace(s[j])
  {
    var i := WordLength(s);
    var n := Text.LeadingSpaces(s[i..]);
    assert s[i..][0] == s[i];
    assert s[i..i + n] == s[i..][..n];
    assert i + n < |s| ==> s[i..][n] == s[i + n];
    assert forall k :: i <= k < i + n ==> s[k] == s[i..][..n][k - i];
    i + n
  }

  /** `s.split(/\s+/)`: the pieces of `s` between maximal runs of white space. A
      string without white space is its own single piece; leading or trailing
      white space yields an empty first or last piece. */
  function SplitWords(s: string): (ws: seq<string>)
    ensures |ws| >= 1
    ensures |ws| == 1 <==> !Text.HasSpace(s)
    ensures !Text.HasSpace(s) ==> ws == [s]
    ensures forall k :: 0 <= k < |ws| ==> !Text.HasSpace(ws[k])
    ensures ws[0] == s[..WordLength(s)]
    decreases |s|
  {
    var i := WordLength(s);
    WholeWordIffNoSpace(s);
    if i == |s| then [s]
    else
      var rest := SplitWords(s[NextWord(s)..]);
      assert !Text.HasSpace(s[..i]);
      [s[..i]] + rest
  }

  /** In a trimmed string with white space the first word is not empty, and what
      follows the run of spaces after it is trimmed too. */
  lemma SecondWordStart(s: string)
    requires Text.Trimmed(s) && Text.HasSpace(s)
    ensures 0 < WordLength(s) && NextWord(s) < |s|
    ensures Text.Trimmed(s[NextWord(s)..])
  {
    var i := WordLength(s);
    WholeWordIffNoSpace(s);
    var j := NextWord(s);
    assert Text.IsSpace(s[i]) && !Text.IsSpace(s[|s| - 1]);
    assert s[j..][0] == s[j] && s[j..][|s| - j - 1] == s[|s| - 1];
  }

  /** Splitting a trimmed string never yields an empty word. */
  lemma {:induction false} TrimmedWordsNonEmpty(s: string)
    requires Text.Trimmed(s)
    ensures forall k :: 0 <= k < |SplitWords(s)| ==> |SplitWords(s)[k]| > 0
    decreases |s|
  {
    WholeWordIffNoSpace(s);
    if Text.HasSpace(s) {
      SecondWordStart(s);
      TrimmedWordsNonEmpty(s[NextWord(s)..]);
      assert SplitWords(s) == [s[..WordLength(s)]] + SplitWords(s[NextWord(s)..]);
    }
  }

  function NotSpace(c: char): bool {
    !Text.IsSpace(c)
  }

  /** The words glued back together. */
  function Flatten(ws: seq<string>): string {
    if |ws| == 0 then [] else ws[0] + Flatten(ws[1..])
  }

  /** Gluing the words back together gives `s` with its white space removed. */
  lemma {:induction false} SplitWordsDropsOnlySpace(s: string)
    ensures Flatten(SplitWords(s)) == Seqs.Filter(NotSpace, s)
    decreases |s|
  {
    WholeWordIffNoSpace(s);
    if !Text.HasSpace(s) {
      Seqs.FilterKeepsAll(NotSpace, s);
      assert Flatten(SplitWords(s)) == s + Flatten([]);
    } else {
      var i := WordLength(s);
      var j := NextWord(s);
      var rest := SplitWords(s[j..]);
      SplitWordsDropsOnlySpace(s[j..]);
      assert SplitWords(s) == [s[..i]] + rest;
      assert Flatten(SplitWords(s)) == s[..i] + Flatten(rest) by {
        assert ([s[..i]] + rest)[1..] == rest;
      }
      Seqs.FilterSlices(NotSpace, s, i, j);
    }
  }

  /** `getInitials(groupName)`: 'G' without a name; otherwise the trimmed name
      is split into words, a single word gives its first two characters and
      several words give the first character of each of the first two, in upper
      case. A name of white space alone therefore gives the empty string. */
  function GetInitials(name: Option<string>): (r: string)
    ensures name.None? || name.value == [] ==> r == "G"
    ensures name.Some? && name.value != [] && Text.IsBlank(name.value) ==> r == []
    ensures name.Some? && name.value != [] && !Text.HasSpace(Text.Trim(name.value)) ==>
      r == Text.Upper(Text.Take(Text.Trim(name.value), 2))
    ensures name.Some? && Text.HasSpace(Text.Trim(name.value)) ==>
      var t := Text.Trim(name.value);
      && |r| == 2
      && r[0] == Text.UpperChar(t[0])
      && exists i, k :: 0 < i < k < |t| && !Text.HasSpace(t[..i]) && Text.IsBlank(t[i..k])
                        && !Text.IsSpace(t[k]) && r[1] == Text.UpperChar(t[k])
  {
    if name.None? || name.value == [] then "G"
    else
      var t := Text.Trim(name.value);
      var words := SplitWords(t);
      if |words| == 1 then Text.Upper(Text.Take(words[0], 2))
      else
        FirstTwoWords(t);
        Text.Upper([words[0][0], words[1][0]])
  }

  /** The first two words of a trimmed string with white space start at its
      first character and at the first non-space after its first space. */
  lemma FirstTwoWords(t: string)
    requires Text.Trimmed(t) && Text.HasSpace(t)
    ensures var ws := SplitWords(t);
            && |ws| >= 2 && |ws[0]| > 0 && |ws[1]| > 0
            && ws[0][0] == t[0] && ws[1][0] == t[NextWord(t)]
            && 0 < WordLength(t) < NextWord(t) < |t|
            && !Text.HasSpace(t[..WordLength(t)]) && Text.IsBlank(t[WordLength(t)..NextWord(t)])
            && !Text.IsSpace(t[NextWord(t)])
  {
    var i := WordLength(t);
    WholeWordIffNoSpace(t);
    var k := NextWord(t);
    SecondWordStart(t);
    assert forall c :: 0 <= c < k - i ==> t[i..k][c] == t[i + c];
    TrimmedWordsNonEmpty(t);
    assert SplitWords(t) == [t[..i]] + SplitWords(t[k..]);
    assert SplitWords(t[k..])[0] == t[k..][..WordLength(t[k..])];
  }

  /** Examples: one word, a name of spaces, and no name. */
  lemma InitialsExamples()
    ensures GetInitials(Some("yahoo")) == "YA"
    ensures GetInitials(Some("  ")) == ""
    ensures GetInitials(None) == "G"
  {
    Text.TrimKeepsTrimmed("yahoo");
    assert !Text.HasSpace("yahoo");
    assert Text.Take("yahoo", 2) == "ya";
    assert Text.IsBlank("  ");
  }

  /** The index of the viewer's first entry among the participants, or `|ps|`
      when there is none. */
  function FindMember(ps: seq<Directory.Member>, viewer: UserId): (i: nat)
    ensures i <= |ps|
    ensures i < |ps| ==> ps[i].profile.id == viewer
    ensures forall k :: 0 <= k < i ==> ps[k].profile.id != viewer
  {
    if |ps| == 0 then 0
    else if ps[0].profile.id == viewer then 0
    else 1 + FindMember(ps[1..], viewer)
  }

  /** `isAdmin`: the viewer's first entry among the participants has the role
      'admin'. Without a signed-in user no entry is found. */
  function IsAdmin(ps: seq<Directory.Member>, viewer: Option<UserId>): (b: bool)
    ensures b <==> viewer.Some? && exists i :: 0 <= i < |ps| && ps[i].profile.id == viewer.value
                                             && ps[i].role == "admin"
                                             && (forall k :: 0 <= k < i ==> ps[k].profile.id != viewer.value)
  {
    if viewer.None? then false
    else
      var i := FindMember(ps, viewer.value);
      i < |ps| && ps[i].role == "admin"
  }

  predicate UniqueMembers(ps: seq<Directory.Member>) {
    forall i, j :: 0 <= i < j < |ps| ==> ps[i].profile.id != ps[j].profile.id
  }

  /** With one entry per user, the viewer is admin exactly when some entry for
      the viewer carries the admin role. */
  lemma AdminIffAdminEntry(ps: seq<Directory.Member>, viewer: UserId)
    requires UniqueMembers(ps)
    ensures IsAdmin(ps, Some(viewer)) <==> exists m :: m in ps && m.profile.id == viewer && m.role == "admin"
  {
    if exists m :: m in ps && m.profile.id == viewer && m.role == "admin" {
      var m :| m in ps && m.profile.id == viewer && m.role == "admin";
      var i :| 0 <= i < |ps| && ps[i] == m;
      assert FindMember(ps, viewer) == i;
    }
  }

  /** What the panel shows for a conversation and a viewer. */
  datatype PanelView = PanelView(
    initials: string,
    title: string,
    memberCount: nat,
    /** The ids handed to the add dialog as `existingMemberIds`. */
    existingMemberIds: seq<UserId>,
    /** Per participant, whether its remove control is rendered. */
    removable: seq<bool>,
    canAdd: bool,
    canLeave: bool,
    canDelete: bool)

  function NameOf(c: Directory.Conversation): Option<string> {
    if c.GroupChat? then Some(c.name) else None
  }

  function ParticipantsOf(c: Directory.Conversation): seq<Directory.Member> {
    if c.GroupChat? then c.participants else []
  }

  /** The participants' ids, in order: what the add dialog receives as the
      ids of existing members. */
  function MemberIds(ps: seq<Directory.Member>): (ids: seq<UserId>)
    ensures |ids| == |ps|
    ensures forall i :: 0 <= i < |ps| ==> ids[i] == ps[i].profile.id
    ensures forall id :: id in ids <==> exists i :: 0 <= i < |ps| && ps[i].profile.id == id
  {
    var ids := seq(|ps|, i requires 0 <= i < |ps| => ps[i].profile.id);
    assert forall id :: id in ids ==> exists i :: 0 <= i < |ps| && ps[i].profile.id == id by {
      forall id | id in ids ensures exists i :: 0 <= i < |ps| && ps[i].profile.id == id {
        var i :| 0 <= i < |ids| && ids[i] == id;
        assert ps[i].profile.id == id;
      }
    }
    ids
  }

  /** The add dialog opened from the panel never offers someone who is already
      a participant of the group, and offers every other search result. */
  lemma AddDialogOffersOnlyNewcomers(c: Directory.Conversation, users: seq<Directory.Profile>, u: Directory.Profile)
    ensures u in AddMemberModal.AvailableUsers(users, MemberIds(ParticipantsOf(c))) <==>
      u in users && forall i :: 0 <= i < |ParticipantsOf(c)| ==> ParticipantsOf(c)[i].profile.id != u.id
  {
  }

  /** Per participant, whether the remove control is rendered: only an admin
      sees one, and never on the viewer's own entry. */
  function Removable(ps: seq<Directory.Member>, viewer: Option<UserId>): (r: seq<bool>)
    ensures |r| == |ps|
    ensures forall i :: 0 <= i < |ps| ==> (r[i] <==> IsAdmin(ps, viewer) && ps[i].profile.id != viewer.value)
  {
    var admin := IsAdmin(ps, viewer);
    seq(|ps|, i requires 0 <= i < |ps| => admin && ps[i].profile.id != viewer.value)
  }

  /** The panel's main view: nothing without a conversation. */
  function View(conversation: Option<Directory.Conversation>, viewer: Option<UserId>): (v: Option<PanelView>)
    ensures v.Some? <==> conversation.Some?
    ensures v.Some? ==>
      var ps := ParticipantsOf(conversation.value);
      && v.value.memberCount == |ps|
      && v.value.existingMemberIds == MemberIds(ps)
      && v.value.removable == Removable(ps, viewer)
      && v.value.canLeave
      && (v.value.canAdd <==> IsAdmin(ps, viewer))
      && (v.value.canDelete <==> IsAdmin(ps, viewer))
      && v.value.initials == GetInitials(NameOf(conversation.value))
  {
    if conversation.None? then None
    else
      var c := conversation.value;
      var ps := ParticipantsOf(c);
      var admin := IsAdmin(ps, viewer);
      var name := NameOf(c);
      Some(PanelView(
        GetInitials(name),
        if name.Some? && name.value != [] then name.value else Directory.UnnamedGroup,
        |ps|,
        MemberIds(ps),
        Removable(ps, viewer),
        admin, true, admin))
  }

  /** The viewer's own entry never carries a remove control, and a non-admin
      sees no remove control at all. */
  lemma NeverRemoveSelf(c: Directory.Conversation, viewer: Option<UserId>, i: nat)
    requires i < |ParticipantsOf(c)|
    requires (viewer.Some? && ParticipantsOf(c)[i].profile.id == viewer.value)
             || !IsAdmin(ParticipantsOf(c), viewer)
    ensures !View(Some(c), viewer).value.removable[i]
  {
  }

  /** `handleRemoveMember` once `onRemoveMember` has answered: nothing without a
      pending target or a handler; otherwise the member is removed, and the
      pending target is cleared only when that succeeded. */
  function HandleRemoveMember<T>(memberToRemove: Option<Directory.Profile>, hasHandler: bool,
                                 conversation: ConversationId, user: Option<UserId>, reply: Reply<T>)
    : (r: (Option<Directory.Profile>, Option<Directory.Mutation<T>>))
    ensures memberToRemove.None? || !hasHandler ==> r == (memberToRemove, None)
    ensures memberToRemove.Some? && hasHandler ==>
      && r.1 == Some(Directory.RemoveMemberFromGroup(user, conversation, memberToRemove.value.id, reply))
      && (r.0.None? <==> user.Some? && reply.Data?)
      && (r.0.Some? ==> r.0 == memberToRemove)
  {
    if memberToRemove.None? || !hasHandler then (memberToRemove, None)
    else
      var m := Directory.RemoveMemberFromGroup(user, conversation, memberToRemove.value.id, reply);
      (if m.outcome.Done? then None else memberToRemove, Some(m))
  }

  /** `handleAddMembers(userIds)`, the add dialog's `onAdd`: without a handler
      nothing is called; otherwise the ids go to `addMembersToGroup` for this
      conversation and its outcome, failure included, is passed back to the
      dialog. */
  function HandleAddMembers<T>(hasHandler: bool, conversation: ConversationId, user: Option<UserId>,
                               userIds: seq<UserId>, reply: Reply<T>): (r: Option<Directory.Mutation<T>>)
    ensures r.None? <==> !hasHandler
    ensures r.Some? ==> r.value.call == (if user.Some? then Some(Directory.AddMembersRpc(conversation, userIds)) else None)
                        && (r.value.outcome.Done? <==> user.Some? && reply.Data?)
  {
    if !hasHandler then None
    else Some(Directory.AddMembersToGroup(user, conversation, userIds, reply))
  }

  /** The state of the leave or delete confirmation after its handler finished:
      whether the panel was closed and whether the button still reads as busy. */
  datatype Confirm = Confirm(closed: bool, busy: bool)

  /** `handleLeaveGroup` and `handleDeleteGroup`: the busy flag is set before the
      call; success closes the panel (the flag stays set), failure clears it and
      keeps the panel open. A delete without a handler does nothing. */
  function Finish(hasHandler: bool, succeeded: bool, busy: bool): (r: Confirm)
    ensures !hasHandler ==> r == Confirm(false, busy)
    ensures hasHandler ==> (r.closed <==> succeeded) && (r.busy <==> succeeded)
  {
    if !hasHandler then Confirm(false, busy)
    else if succeeded then Confirm(true, true)
    else Confirm(false, false)
  }
}
