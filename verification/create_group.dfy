/** The create-group dialog (`CreateGroupModal`): the form's validity rule, the
    duplicate-group check and the two-step "warn, then create anyway" flow. */
module CreateGroupModal {
  import opened Common
  import Text
  import Directory
  import Selection

  /** Ascending order of ids. */
  predicate Sorted(s: seq<UserId>) {
    forall i, j :: 0 <= i < j < |s| ==> s[i] <= s[j]
  }

  function InsertId(x: UserId, s: seq<UserId>): (r: seq<UserId>)
    requires Sorted(s)
    ensures Sorted(r)
    ensures |r| == |s| + 1
    ensures r[0] == x || (|s| > 0 && r[0] == s[0])
    ensures multiset(r) == multiset(s) + multiset{x}
  {
    if |s| == 0 || x <= s[0] then [x] + s
    else
      assert s == [s[0]] + s[1..];
      [s[0]] + InsertId(x, s[1..])
  }

  /** `ids.sort()`: the same ids in ascending order. */
  function SortIds(s: seq<UserId>): (r: seq<UserId>)
    ensures Sorted(r)
    ensures multiset(r) == multiset(s)
  {
    if |s| == 0 then []
    else
      assert s == [s[0]] + s[1..];
      InsertId(s[0], SortIds(s[1..]))
  }

  /** Two sorted sequences holding the same ids are the same sequence. */
  lemma {:induction false} SortedUnique(a: seq<UserId>, b: seq<UserId>)
    requires Sorted(a) && Sorted(b)
    requires multiset(a) == multiset(b)
    ensures a == b
    decreases |a|
  {
    assert |a| == |multiset(a)| == |multiset(b)| == |b|;
    if |a| > 0 {
      SortedHeadsAgree(a, b);
      DropHead(a);
      DropHead(b);
      SortedUnique(a[1..], b[1..]);
      assert a == [a[0]] + a[1..] && b == [b[0]] + b[1..];
    }
  }

  /** Sorted sequences with the same ids start with the same (least) id. */
  lemma SortedHeadsAgree(a: seq<UserId>, b: seq<UserId>)
    requires Sorted(a) && Sorted(b) && |a| > 0 && |b| > 0
    requires multiset(a) == multiset(b)
    ensures a[0] == b[0]
  {
    assert a[0] in multiset(b) && b[0] in multiset(a);
    var i :| 0 <= i < |b| && b[i] == a[0];
    var j :| 0 <= j < |a| && a[j] == b[0];
    assert b[0] <= b[i] && a[0] <= a[j];
  }

  lemma DropHead(a: seq<UserId>)
    requires |a| > 0
    ensures multiset(a[1..]) == multiset(a) - multiset{a[0]}
  {
    assert a == [a[0]] + a[1..];
  }

  /** The ids the check compares against: the chosen members plus the creator
      when signed in, sorted. */
  function MemberKey(memberIds: seq<UserId>, creator: Option<UserId>): seq<UserId> {
    SortIds(if creator.Some? then memberIds + [creator.value] else memberIds)
  }

  /** The ids of a group's participants, in order; a direct chat has no
      participant list and gives none. */
  function ParticipantIds(g: Directory.Conversation): (ids: seq<UserId>)
    ensures g.GroupChat? ==> |ids| == |g.participants|
                             && forall i :: 0 <= i < |ids| ==> ids[i] == g.participants[i].profile.id
    ensures g.DirectChat? ==> ids == []
    ensures forall id :: id in ids <==>
      g.GroupChat? && exists i :: 0 <= i < |g.participants| && g.participants[i].profile.id == id
  {
    if g.GroupChat? then
      var ids := seq(|g.participants|, i requires 0 <= i < |g.participants| => g.participants[i].profile.id);
      assert forall id :: id in ids ==> exists i :: 0 <= i < |g.participants| && g.participants[i].profile.id == id by {
        forall id | id in ids ensures exists i :: 0 <= i < |g.participants| && g.participants[i].profile.id == id {
          var i :| 0 <= i < |ids| && ids[i] == id;
          assert g.participants[i].profile.id == id;
        }
      }
      ids
    else []
  }

  /** The test `checkForDuplicate` applies to one existing group: equal names
      ignoring case, then equal sorted member lists of equal length. A direct chat
      has no name and never matches. */
  predicate Matches(g: Directory.Conversation, name: string, key: seq<UserId>) {
    && g.GroupChat?
    && Text.Lower(g.name) == Text.Lower(name)
    && var ids := SortIds(ParticipantIds(g));
       |ids| == |key| && forall i :: 0 <= i < |ids| ==> ids[i] == key[i]
  }

  /** A group is reported as a duplicate exactly when its name equals the new name
      ignoring case and it has the same members as the new group with its creator,
      in any order and counting repeats. */
  lemma MatchesIffSameNameAndMembers(g: Directory.Conversation, name: string, memberIds: seq<UserId>,
                                     creator: Option<UserId>)
    ensures Matches(g, name, MemberKey(memberIds, creator)) <==>
      && g.GroupChat?
      && Text.Lower(g.name) == Text.Lower(name)
      && multiset(ParticipantIds(g)) ==
           multiset(if creator.Some? then memberIds + [creator.value] else memberIds)
  {
    var all := if creator.Some? then memberIds + [creator.value] else memberIds;
    var key := MemberKey(memberIds, creator);
    var ids := SortIds(ParticipantIds(g));
    if multiset(ParticipantIds(g)) == multiset(all) {
      SortedUnique(ids, key);
    }
    if |ids| == |key| && forall i :: 0 <= i < |ids| ==> ids[i] == key[i] {
      assert ids == key;
    }
  }

  /** Groups of different sizes are never duplicates of each other. */
  lemma DifferentSizeNeverMatches(g: Directory.Conversation, name: string, memberIds: seq<UserId>,
                                  creator: Option<UserId>)
    requires |ParticipantIds(g)| != |memberIds| + (if creator.Some? then 1 else 0)
    ensures !Matches(g, name, MemberKey(memberIds, creator))
  {
    MatchesIffSameNameAndMembers(g, name, memberIds, creator);
    var all := if creator.Some? then memberIds + [creator.value] else memberIds;
    assert |multiset(ParticipantIds(g))| != |multiset(all)|;
  }

  /** The index of the first group that matches, or `|groups|`. */
  function FirstMatch(groups: seq<Directory.Conversation>, name: string, key: seq<UserId>): (i: nat)
    ensures i <= |groups|
    ensures forall j :: 0 <= j < i ==> !Matches(groups[j], name, key)
    ensures i < |groups| ==> Matches(groups[i], name, key)
  {
    if |groups| == 0 || Matches(groups[0], name, key) then 0 else FirstMatch(groups[1..], name, key) + 1
  }

  /** `checkForDuplicate(name, memberIds)`: the first existing group that matches. */
  function FindDuplicate(groups: seq<Directory.Conversation>, name: string, memberIds: seq<UserId>,
                         creator: Option<UserId>): (r: Option<Directory.Conversation>)
    ensures r.None? <==> forall i :: 0 <= i < |groups| ==> !Matches(groups[i], name, MemberKey(memberIds, creator))
    ensures r.Some? ==> exists i :: (0 <= i < |groups| && groups[i] == r.value
                         && Matches(r.value, name, MemberKey(memberIds, creator))
                         && forall j :: 0 <= j < i ==> !Matches(groups[j], name, MemberKey(memberIds, creator)))
  {
    var i := FirstMatch(groups, name, MemberKey(memberIds, creator));
    if i < |groups| then Some(groups[i]) else None
  }

  /** The dialog's state. */
  datatype Form = Form(name: string, selected: seq<Directory.Profile>, creating: bool, warning: bool)

  function Initial(): Form {
    Form("", [], false, false)
  }

  /** A non-blank name and at least two chosen users. */
  predicate CanCreate(f: Form) {
    !Text.IsBlank(f.name) && |f.selected| >= 2
  }

  /** The create button's `disabled` rule. */
  predicate CreateDisabled(f: Form) {
    !CanCreate(f) || f.creating
  }

  /** What `onCreateGroup` receives. */
  datatype GroupRequest = GroupRequest(name: string, memberIds: seq<UserId>)

  /** One press of the create button: the form afterwards, the request made (if
      any), and whether the dialog closed. */
  datatype CreateStep = CreateStep(form: Form, request: Option<GroupRequest>, closed: bool)

  /** `handleCreate` with `onCreateGroup` succeeding or not: nothing happens with an
      invalid form; a duplicate first only raises the warning; otherwise the
      trimmed name and the chosen ids, in selection order, are sent, and the dialog
      closes on success. */
  function HandleCreate(f: Form, creator: Option<UserId>, groups: seq<Directory.Conversation>,
                        succeeded: bool): (r: CreateStep)
    ensures !CanCreate(f) <==> r == CreateStep(f, None, false)
    ensures r.request.Some? <==>
      CanCreate(f) && (f.warning || FindDuplicate(groups, Text.Trim(f.name), Selection.SelectedIds(f.selected), creator).None?)
    ensures r.request.Some? ==>
      && r.request.value.name == Text.Trim(f.name) && |r.request.value.name| > 0
      && r.request.value.memberIds == Selection.SelectedIds(f.selected)
      && |r.request.value.memberIds| >= 2
      && r.form == f.(creating := false)
      && r.closed == succeeded
    ensures CanCreate(f) && r.request.None? ==> r.form == f.(warning := true) && !f.warning && !r.closed
  {
    if !CanCreate(f) then CreateStep(f, None, false)
    else
      var ids := Selection.SelectedIds(f.selected);
      var name := Text.Trim(f.name);
      if FindDuplicate(groups, name, ids, creator).Some? && !f.warning then
        CreateStep(f.(warning := true), None, false)
      else
        CreateStep(f.(creating := false), Some(GroupRequest(name, ids)), succeeded)
  }

  /** The first press on a duplicate only warns; pressing "Create Anyway" then
      sends the request. */
  lemma WarnThenCreateAnyway(f: Form, creator: Option<UserId>, groups: seq<Directory.Conversation>,
                             succeeded: bool)
    requires CanCreate(f) && !f.warning
    ensures FindDuplicate(groups, Text.Trim(f.name), Selection.SelectedIds(f.selected), creator).Some? ==>
      && HandleCreate(f, creator, groups, succeeded).request.None?
      && HandleCreate(HandleCreate(f, creator, groups, succeeded).form, creator, groups, succeeded).request
         == Some(GroupRequest(Text.Trim(f.name), Selection.SelectedIds(f.selected)))
  {
  }

  /** The button is enabled exactly when a press does something (while no
      creation is in flight). */
  lemma ButtonMatchesGuard(f: Form, creator: Option<UserId>, groups: seq<Directory.Conversation>,
                           succeeded: bool)
    requires !f.creating
    ensures CreateDisabled(f) <==> HandleCreate(f, creator, groups, succeeded) == CreateStep(f, None, false)
  {
  }

  /** `handleNameChange`: a new name clears the warning. */
  function EditName(f: Form, name: string): (r: Form)
    ensures r.name == name && !r.warning
    ensures r.selected == f.selected && r.creating == f.creating
  {
    f.(name := name, warning := false)
  }

  /** `toggleUserWithReset`: toggling a user clears the warning. */
  function ToggleWithReset(f: Form, u: Directory.Profile): (r: Form)
    ensures Selection.IsSelected(r.selected, u.id) <==> !Selection.IsSelected(f.selected, u.id)
    ensures !r.warning
    ensures r.name == f.name && r.creating == f.creating
  {
    f.(selected := Selection.Toggle(f.selected, u), warning := false)
  }
}
