/** The user selection kept by both group dialogs (`toggleUser` and `isSelected`
    are the same code in the create-group and add-member dialogs). */
module Selection {
  import opened Common
  import Directory
  import Seqs

  /** Some selected user has this id. */
  predicate IsSelected(sel: seq<Directory.Profile>, id: UserId) {
    exists i :: 0 <= i < |sel| && sel[i].id == id
  }

  /** The test that keeps a user when the removal applies: a different id. */
  function OtherThan(id: UserId): Directory.Profile -> bool {
    (u: Directory.Profile) => u.id != id
  }

  /** The selection without any user with this id: the others stay in their
      order, each as often as before. */
  function WithoutId(sel: seq<Directory.Profile>, id: UserId): (r: seq<Directory.Profile>)
    ensures !IsSelected(r, id)
    ensures forall u :: u in r <==> u in sel && u.id != id
    ensures forall u :: multiset(r)[u] == if u.id == id then 0 else multiset(sel)[u]
    ensures !IsSelected(sel, id) ==> r == sel
  {
    var r := Seqs.Filter(OtherThan(id), sel);
    Seqs.FilterMembers(OtherThan(id), sel);
    Seqs.FilterCounts(OtherThan(id), sel);
    assert forall u :: OtherThan(id)(u) <==> u.id != id;
    assert !IsSelected(sel, id) ==> r == sel by {
      if !IsSelected(sel, id) {
        assert forall i :: 0 <= i < |sel| ==> OtherThan(id)(sel[i]);
        Seqs.FilterKeepsAll(OtherThan(id), sel);
      }
    }
    r
  }

  /** Removing by id keeps the relative order: removing from two selections
      one after the other is removing from each. */
  lemma WithoutIdKeepsOrder(a: seq<Directory.Profile>, b: seq<Directory.Profile>, id: UserId)
    ensures WithoutId(a + b, id) == WithoutId(a, id) + WithoutId(b, id)
  {
    Seqs.FilterAppend(OtherThan(id), a, b);
  }

  /** `toggleUser(user)`: removes every entry with the user's id when one is
      selected, appends the user otherwise; no other id changes its status. */
  function Toggle(sel: seq<Directory.Profile>, u: Directory.Profile): (r: seq<Directory.Profile>)
    ensures IsSelected(r, u.id) <==> !IsSelected(sel, u.id)
    ensures forall id :: id != u.id ==> (IsSelected(r, id) <==> IsSelected(sel, id))
    ensures !IsSelected(sel, u.id) ==> |r| == |sel| + 1 && r[..|sel|] == sel && r[|sel|] == u
    ensures IsSelected(sel, u.id) ==> r == WithoutId(sel, u.id)
  {
    if IsSelected(sel, u.id) then
      var r := WithoutId(sel, u.id);
      assert forall id :: id != u.id ==> (IsSelected(r, id) <==> IsSelected(sel, id)) by {
        forall id | id != u.id ensures IsSelected(r, id) <==> IsSelected(sel, id) {
          if IsSelected(sel, id) {
            var i :| 0 <= i < |sel| && sel[i].id == id;
            assert sel[i] in r;
          }
          if IsSelected(r, id) {
            var i :| 0 <= i < |r| && r[i].id == id;
            assert r[i] in sel;
          }
        }
      }
      r
    else
      var r := sel + [u];
      assert r[|sel|] == u;
      assert forall id :: id != u.id ==> (IsSelected(r, id) <==> IsSelected(sel, id)) by {
        forall id | id != u.id ensures IsSelected(r, id) <==> IsSelected(sel, id) {
          if IsSelected(sel, id) {
            var i :| 0 <= i < |sel| && sel[i].id == id;
            assert r[i] == sel[i];
          }
          if IsSelected(r, id) {
            var i :| 0 <= i < |r| && r[i].id == id;
            assert i < |sel| && sel[i] == r[i];
          }
        }
      }
      r
  }

  /** Toggling a user who was not selected, twice, restores the selection. */
  lemma {:induction false} ToggleTwiceRestores(sel: seq<Directory.Profile>, u: Directory.Profile)
    requires !IsSelected(sel, u.id)
    ensures Toggle(Toggle(sel, u), u) == sel
  {
    assert Toggle(sel, u) == sel + [u];
    Seqs.FilterAppend(OtherThan(u.id), sel, [u]);
    Seqs.FilterKeepsAll(OtherThan(u.id), sel);
    assert Seqs.Filter(OtherThan(u.id), [u]) == [];
  }

  /** Toggling a selected user twice moves that user to the end of the selection. */
  lemma ToggleTwiceMovesToEnd(sel: seq<Directory.Profile>, u: Directory.Profile)
    requires IsSelected(sel, u.id)
    ensures Toggle(Toggle(sel, u), u) == WithoutId(sel, u.id) + [u]
  {
  }

  /** The ids of the selection, in selection order. */
  function SelectedIds(sel: seq<Directory.Profile>): (ids: seq<UserId>)
    ensures |ids| == |sel|
    ensures forall i :: 0 <= i < |sel| ==> ids[i] == sel[i].id
    ensures forall id :: id in ids <==> IsSelected(sel, id)
  {
    var ids := seq(|sel|, i requires 0 <= i < |sel| => sel[i].id);
    assert forall id :: id in ids ==> IsSelected(sel, id) by {
      forall id | id in ids ensures IsSelected(sel, id) {
        var i :| 0 <= i < |ids| && ids[i] == id;
        assert sel[i].id == id;
      }
    }
    ids
  }

  /** Toggling a user and reading the ids back: the user's id is sent exactly
      when the user was not selected before. */
  lemma ToggleDecidesSentIds(sel: seq<Directory.Profile>, u: Directory.Profile)
    ensures u.id in SelectedIds(Toggle(sel, u)) <==> !IsSelected(sel, u.id)
  {
  }
}
