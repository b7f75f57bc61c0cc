/** The pack-size checkboxes: a click on a box toggles its pack in the
    selection, keyed by size and unit, and the dosing model is handed the
    new selection. */
module CheckboxList {
  import opened DosingTypes
  import DosingModel

  /** Two entries stand for the same box when size and unit agree; a pack
      has no other fields, so that is equality of packs. */
  function SameKey(a: PackSize, b: PackSize): (r: bool)
    ensures r <==> a == b
  {
    a.packSize == b.packSize && a.units == b.units
  }

  /** Some entry of the selection has p's key, i.e. p is in it. */
  function IsSelected(selection: seq<PackSize>, p: PackSize): (r: bool)
    ensures r <==> p in selection
  {
    exists i :: 0 <= i < |selection| && SameKey(selection[i], p)
  }

  /** The selection without the entries that have p's key, the others in
      their order (RemoveMatchingMembers, RemoveMatchingInOrder). */
  function RemoveMatching(selection: seq<PackSize>, p: PackSize): (r: seq<PackSize>)
    ensures |r| <= |selection|
    ensures forall i :: 0 <= i < |r| ==> !SameKey(r[i], p)
  {
    if |selection| == 0 then []
    else
      var tail := RemoveMatching(selection[1..], p);
      if SameKey(selection[0], p) then tail else [selection[0]] + tail
  }

  /** The selection after a click on p's box: when p's key is selected,
      every entry with that key goes and each other entry stays, as often as
      it was there and in its order; otherwise p is appended. */
  function Toggle(selection: seq<PackSize>, p: PackSize): (r: seq<PackSize>)
    ensures IsSelected(selection, p) ==>
      && (forall q :: q in r <==> q in selection && !SameKey(q, p))
      && (forall q :: multiset(r)[q] == if SameKey(q, p) then 0 else multiset(selection)[q])
      && DosingModel.Subsequence(r, selection)
    ensures !IsSelected(selection, p) ==> r == selection + [p]
  {
    RemoveMatchingMembers(selection, p);
    RemoveMatchingCount(selection, p);
    RemoveMatchingInOrder(selection, p);
    if IsSelected(selection, p) then RemoveMatching(selection, p) else selection + [p]
  }

  /** No two entries share a key. */
  predicate NoDuplicateKeys(selection: seq<PackSize>) {
    forall i, j :: 0 <= i < j < |selection| ==> !SameKey(selection[i], selection[j])
  }

  class CheckboxList {
    var selectedSizes: seq<PackSize>
    const dosingModel: DosingModel.DosingModel

    constructor(model: DosingModel.DosingModel)
      ensures selectedSizes == [] && dosingModel == model
    {
      selectedSizes := [];
      dosingModel := model;
    }

    /** A box is shown ticked when its key is in the selection. */
    function Checked(p: PackSize): (r: bool)
      reads this
      ensures r <==> p in selectedSizes
    {
      IsSelected(selectedSizes, p)
    }

    /** A click on p's box: the selection is toggled and the model gets the
        same new list. */
    method HandleCheckboxChange(packSize: PackSize)
      modifies this, dosingModel`selectedPackSizes
      ensures selectedSizes == Toggle(old(selectedSizes), packSize)
      ensures dosingModel.selectedPackSizes == selectedSizes
      ensures Checked(packSize) <==> !old(Checked(packSize))
    {
      var isSelected := IsSelected(selectedSizes, packSize);
      var newSelectedSizes := if isSelected then RemoveMatching(selectedSizes, packSize)
                              else selectedSizes + [packSize];
      ToggleFlipsMembership(selectedSizes, packSize);
      selectedSizes := newSelectedSizes;
      dosingModel.SetSelectedPackSizes(newSelectedSizes);
    }

    /** A new table on show clears the selection, here and in the model. */
    method PackSizesChanged()
      modifies this, dosingModel`selectedPackSizes
      ensures selectedSizes == [] && dosingModel.selectedPackSizes == []
    {
      selectedSizes := [];
      dosingModel.SetSelectedPackSizes([]);
    }
  }

  // ---------------------------------------------------------------------------
  // Properties of a click

  /** Removing keeps exactly the entries with another key. */
  lemma {:induction false} RemoveMatchingMembers(selection: seq<PackSize>, p: PackSize)
    ensures forall q :: q in RemoveMatching(selection, p) <==> q in selection && !SameKey(q, p)
    decreases |selection|
  {
    if |selection| > 0 {
      RemoveMatchingMembers(selection[1..], p);
      assert selection == [selection[0]] + selection[1..];
    }
  }

  /** Removing keeps each entry with another key as often as it occurs. */
  lemma {:induction false} RemoveMatchingCount(selection: seq<PackSize>, p: PackSize)
    ensures forall q :: multiset(RemoveMatching(selection, p))[q]
                     == if SameKey(q, p) then 0 else multiset(selection)[q]
    decreases |selection|
  {
    if |selection| > 0 {
      RemoveMatchingCount(selection[1..], p);
      assert selection == [selection[0]] + selection[1..];
      assert multiset(selection) == multiset{selection[0]} + multiset(selection[1..]);
    }
  }

  /** Removing keeps the order of the entries it keeps. */
  lemma {:induction false} RemoveMatchingInOrder(selection: seq<PackSize>, p: PackSize)
    ensures DosingModel.Subsequence(RemoveMatching(selection, p), selection)
    decreases |selection|
  {
    if |selection| > 0 {
      var tail := RemoveMatching(selection[1..], p);
      RemoveMatchingInOrder(selection[1..], p);
      if !SameKey(selection[0], p) {
        assert ([selection[0]] + tail)[1..] == tail;
      }
    }
  }

  /** A selection with no entry of p's key is left as it is. */
  lemma {:induction false} RemoveMatchingNone(selection: seq<PackSize>, p: PackSize)
    requires !IsSelected(selection, p)
    ensures RemoveMatching(selection, p) == selection
    decreases |selection|
  {
    if |selection| > 0 {
      assert !SameKey(selection[0], p);
      assert !IsSelected(selection[1..], p) by {
        forall i | 0 <= i < |selection| - 1
          ensures !SameKey(selection[1..][i], p)
        {
          assert selection[1..][i] == selection[i + 1];
        }
      }
      RemoveMatchingNone(selection[1..], p);
      assert selection == [selection[0]] + selection[1..];
    }
  }

  /** Removing from a concatenation removes from each part. */
  lemma {:induction false} RemoveMatchingAppend(a: seq<PackSize>, b: seq<PackSize>, p: PackSize)
    ensures RemoveMatching(a + b, p) == RemoveMatching(a, p) + RemoveMatching(b, p)
    decreases |a|
  {
    if |a| == 0 {
      assert a + b == b;
    } else {
      var ab := a + b;
      assert ab[0] == a[0] && ab[1..] == a[1..] + b;
      RemoveMatchingAppend(a[1..], b, p);
      var head := if SameKey(a[0], p) then [] else [a[0]];
      assert RemoveMatching(ab, p) == head + RemoveMatching(a[1..] + b, p);
      assert RemoveMatching(a, p) == head + RemoveMatching(a[1..], p);
    }
  }

  /** Membership of the clicked key flips. */
  lemma ToggleFlipsMembership(selection: seq<PackSize>, p: PackSize)
    ensures IsSelected(Toggle(selection, p), p) <==> !IsSelected(selection, p)
  {
    var r := Toggle(selection, p);
    RemoveMatchingMembers(selection, p);
    if IsSelected(selection, p) {
      if i :| 0 <= i < |r| && SameKey(r[i], p) {
        assert false;
      }
    } else {
      assert SameKey(r[|selection|], p);
    }
  }

  /** Every other key keeps its membership. */
  lemma ToggleKeepsOthers(selection: seq<PackSize>, p: PackSize, q: PackSize)
    requires !SameKey(q, p)
    ensures IsSelected(Toggle(selection, p), q) <==> IsSelected(selection, q)
  {
    var r := Toggle(selection, p);
    RemoveMatchingMembers(selection, p);
    if IsSelected(selection, q) {
      var i :| 0 <= i < |selection| && SameKey(selection[i], q);
      if IsSelected(selection, p) {
        assert selection[i] in r;
        var j :| 0 <= j < |r| && r[j] == selection[i];
        assert SameKey(r[j], q);
      } else {
        assert r[i] == selection[i];
      }
    }
    if IsSelected(r, q) {
      var j :| 0 <= j < |r| && SameKey(r[j], q);
      if IsSelected(selection, p) {
        assert r[j] in selection;
        var i :| 0 <= i < |selection| && selection[i] == r[j];
        assert SameKey(selection[i], q);
      } else {
        assert j < |selection| && r[j] == selection[j];
      }
    }
  }

  /** Entries of a selection without duplicate keys, minus some, still
      have no duplicate keys. */
  lemma {:induction false} RemoveKeepsNoDuplicates(selection: seq<PackSize>, p: PackSize)
    requires NoDuplicateKeys(selection)
    ensures NoDuplicateKeys(RemoveMatching(selection, p))
    decreases |selection|
  {
    if |selection| > 0 {
      var tail := RemoveMatching(selection[1..], p);
      assert NoDuplicateKeys(selection[1..]) by {
        forall i, j | 0 <= i < j < |selection| - 1
          ensures !SameKey(selection[1..][i], selection[1..][j])
        {
          assert selection[1..][i] == selection[i + 1] && selection[1..][j] == selection[j + 1];
        }
      }
      RemoveKeepsNoDuplicates(selection[1..], p);
      RemoveMatchingMembers(selection[1..], p);
      if !SameKey(selection[0], p) {
        var r := [selection[0]] + tail;
        forall i, j | 0 <= i < j < |r|
          ensures !SameKey(r[i], r[j])
        {
          if i == 0 {
            assert r[j] == tail[j - 1] && tail[j - 1] in selection[1..];
            var k :| 0 <= k < |selection[1..]| && selection[1..][k] == r[j];
            assert selection[k + 1] == r[j];
          } else {
            assert r[i] == tail[i - 1] && r[j] == tail[j - 1];
          }
        }
      }
    }
  }

  /** A click keeps a selection free of duplicate keys. */
  lemma ToggleKeepsNoDuplicates(selection: seq<PackSize>, p: PackSize)
    requires NoDuplicateKeys(selection)
    ensures NoDuplicateKeys(Toggle(selection, p))
  {
    if IsSelected(selection, p) {
      RemoveKeepsNoDuplicates(selection, p);
    } else {
      var r := selection + [p];
      forall i, j | 0 <= i < j < |r|
        ensures !SameKey(r[i], r[j])
      {
        if j == |selection| {
          assert r[i] == selection[i] && r[j] == p;
        } else {
          assert r[i] == selection[i] && r[j] == selection[j];
        }
      }
    }
  }

  /** Clicking an unselected box twice gives back the selection. */
  lemma ToggleTwiceRestores(selection: seq<PackSize>, p: PackSize)
    requires !IsSelected(selection, p)
    ensures Toggle(Toggle(selection, p), p) == selection
  {
    var added := selection + [p];
    assert SameKey(added[|selection|], p);
    RemoveMatchingAppend(selection, [p], p);
    RemoveMatchingNone(selection, p);
    assert RemoveMatching([p], p) == [];
  }

  /** Clicking a selected box twice moves its pack to the end: the entries
      with its key go, and the pack comes back last. */
  lemma ToggleTwiceMovesToEnd(selection: seq<PackSize>, p: PackSize)
    requires IsSelected(selection, p)
    ensures Toggle(Toggle(selection, p), p) == RemoveMatching(selection, p) + [p]
  {
  }
}
