/** The add-member dialog (`AddMemberModal`): which search results are offered,
    the add guard and the button's state. The selection itself is `Selection`. */
module AddMemberModal {
  import opened Common
  import Text
  import Seqs
  import Directory
  import Selection

  /** The test that keeps a search result: its id is not among the members' ids. */
  function NotMember(existingMemberIds: seq<UserId>): Directory.Profile -> bool {
    (u: Directory.Profile) => u.id !in existingMemberIds
  }

  /** `availableUsers`: the search results that are not already members, in the
      order of the results and with each kept as often as it appears. */
  function AvailableUsers(users: seq<Directory.Profile>, existingMemberIds: seq<UserId>)
    : (r: seq<Directory.Profile>)
    ensures forall u :: u in r <==> u in users && u.id !in existingMemberIds
    ensures forall u :: multiset(r)[u] == if u.id in existingMemberIds then 0 else multiset(users)[u]
  {
    assert forall u :: NotMember(existingMemberIds)(u) <==> u.id !in existingMemberIds;
    Seqs.FilterCounts(NotMember(existingMemberIds), users);
    Seqs.FilterMembers(NotMember(existingMemberIds), users);
    Seqs.Filter(NotMember(existingMemberIds), users)
  }

  /** The filter keeps relative order: the results of two lists one after the
      other are offered as the two offerings one after the other. */
  lemma AvailableUsersKeepsOrder(a: seq<Directory.Profile>, b: seq<Directory.Profile>, existingMemberIds: seq<UserId>)
    ensures AvailableUsers(a + b, existingMemberIds)
            == AvailableUsers(a, existingMemberIds) + AvailableUsers(b, existingMemberIds)
  {
    Seqs.FilterAppend(NotMember(existingMemberIds), a, b);
  }

  /** One press of the add button: the request made (if any), whether the dialog
      closed, and the `adding` flag afterwards. */
  datatype AddStep = AddStep(request: Option<seq<UserId>>, closed: bool, adding: bool)

  /** `handleAdd` with `onAdd` succeeding or not: nothing with an empty selection;
      otherwise the selected ids, in selection order, are passed on, the dialog
      closes on success, and `adding` is reset either way. */
  function HandleAdd(sel: seq<Directory.Profile>, adding: bool, succeeded: bool): (r: AddStep)
    ensures |sel| == 0 ==> r == AddStep(None, false, adding)
    ensures |sel| > 0 ==> r.request == Some(Selection.SelectedIds(sel)) && r.closed == succeeded && !r.adding
  {
    if |sel| == 0 then AddStep(None, false, adding)
    else AddStep(Some(Selection.SelectedIds(sel)), succeeded, false)
  }

  /** The add button's `disabled` rule. */
  predicate AddDisabled(sel: seq<Directory.Profile>, adding: bool) {
    |sel| == 0 || adding
  }

  /** An enabled button always leads to a request. */
  lemma EnabledButtonAdds(sel: seq<Directory.Profile>, adding: bool, succeeded: bool)
    requires !AddDisabled(sel, adding)
    ensures HandleAdd(sel, adding, succeeded).request.Some?
  {
  }

  /** The add button's label, "Add <n> Member" with an "s" unless n is 1. */
  function AddLabel(n: nat): (caption: string)
    ensures |caption| == 11 + |Text.Decimal(n)| + (if n != 1 then 1 else 0)
    ensures caption[..4] == "Add " && caption[4..4 + |Text.Decimal(n)|] == Text.Decimal(n)
    ensures caption[4 + |Text.Decimal(n)|..11 + |Text.Decimal(n)|] == " Member"
    ensures caption[|caption| - 1] == 's' <==> n != 1
    ensures n == 1 ==> caption == "Add 1 Member"
  {
    var d := Text.Decimal(n);
    var r := "Add " + d + " Member" + (if n != 1 then "s" else "");
    assert r[4..4 + |d|] == d;
    assert r[4 + |d|..11 + |d|] == " Member";
    assert n == 1 ==> d == "1";
    r
  }

  /** The label shows the selection's size: reading its number back gives the count. */
  lemma LabelShowsCount(n: nat)
    ensures Text.ParseDecimal(AddLabel(n)[4..4 + |Text.Decimal(n)|]) == n
  {
    Text.DecimalRoundTrip(n);
  }
}
