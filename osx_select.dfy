/**
  The osxSelect plugin instance: the list's selection state and the click
  handler that updates it step by step, proved against the pure state
  machine of SelectionModel.
 */
module OsxSelect {
  import opened SelectionModel
  import opened JsSort

  class Plugin {
    /** The number of items in the list. */
    const n: nat
    /** The `multi` option (true by default). */
    const multi: bool

    /** The items that carry the selected class. */
    var marked: set<nat>
    /** `$selection`: the selected items as last read back from the list;
        undefined until the first click or the first `selectItems` or
        `deselectItems` call. */
    var selection: Option<set<nat>>
    /** `shiftIndex`: the anchor of the next shift click. */
    var shiftIndex: nat
    /** `$shiftRange`: the items of the current shift range. */
    var shiftRange: Option<set<nat>>

    function Snapshot(): State
      reads this
    {
      State(marked, shiftIndex, shiftRange)
    }

    /** Every index is an item and `$selection`, once read, mirrors the
        selected class. */
    ghost predicate Valid()
      reads this
    {
      Inv(Snapshot(), n) && (selection.None? || selection == Some(marked))
    }

    /** A new plugin over `n` items, of which `premarked` already carry the
        selected class: anchor 0, no shift range, `$selection` not read yet. */
    constructor (n: nat, multi: bool, premarked: set<nat>)
      requires InDomain(premarked, n)
      ensures Valid()
      ensures this.n == n && this.multi == multi
      ensures Snapshot() == Initial(premarked) && selection == None
    {
      this.n := n;
      this.multi := multi;
      marked := premarked;
      selection := None;
      shiftIndex := 0;
      shiftRange := None;
    }

    /** Re-read the selected items into `$selection`. */
    method SetSelection()
      requires Inv(Snapshot(), n)
      modifies this`selection
      ensures Valid()
      ensures selection == Some(marked)
    {
      selection := Some(marked);
    }

    /** Give the selected class to the items `els`; every other item keeps
        its state, and selecting twice is the same as selecting once. */
    method SelectItems(els: set<nat>)
      requires Valid()
      requires InDomain(els, n)
      modifies this`marked, this`selection
      ensures Valid()
      ensures marked == old(marked) + els
      ensures selection == Some(marked)
    {
      marked := marked + els;
      SetSelection();
    }

    /** Take the selected class from the items `els`; every other item keeps
        its state, and deselecting twice is the same as deselecting once. */
    method DeselectItems(els: set<nat>)
      requires Valid()
      modifies this`marked, this`selection
      ensures Valid()
      ensures marked == old(marked) - els
      ensures selection == Some(marked)
    {
      marked := marked - els;
      SetSelection();
    }

    /** The click handler for a click on item `i` with modifier keys `m`. */
    method ClickItem(i: nat, m: Modifiers)
      requires Valid()
      requires i < n
      modifies this
      ensures Valid()
      ensures Snapshot() == Click(old(Snapshot()), multi, i, m)
      ensures selection == Some(marked)
    {
      ghost var s0 := Snapshot();

      // meta or ctrl click: add the item to, or remove it from, the selection
      if Toggles(multi, m) {
        if i in marked {
          DeselectItems({i});
          if shiftRange.Some? {
            shiftRange := Some(shiftRange.value - {i});
          }
          if shiftIndex == i {
            shiftIndex := 0;
          }
        } else {
          SelectItems({i});
          shiftIndex := i;
        }
      }
      ghost var s1 := Snapshot();
      assert s1 == if Toggles(multi, m) then ToggleStep(s0, i) else s0;

      // shift click: set, or reset, the range of the selection
      if Shifts(multi, m) {
        var newShiftRange := NewShiftRange(shiftIndex, i);
        assert InDomain(newShiftRange, n) by {
          forall k | k in newShiftRange ensures k < n {
            assert k <= Max(shiftIndex, i);
          }
        }
        if shiftRange.Some? {
          SelectItems(newShiftRange - shiftRange.value);
          DeselectItems(shiftRange.value - newShiftRange);
        } else {
          SelectItems(newShiftRange);
        }
        shiftRange := Some(newShiftRange);
      }
      ghost var s2 := Snapshot();
      assert s2 == if Shifts(multi, m) then ShiftStep(s1, i) else s1;

      // plain click: the clicked item becomes the whole selection
      if IsPlain(multi, m) {
        var deselect := marked - {i};
        if i !in marked {
          SelectItems({i});
        }
        shiftRange := Some({i});
        DeselectItems(deselect);
        shiftIndex := i;
      }

      SetSelection();
    }

    /** The indices of the selected items, each exactly once, in the string
        order of the default `sort()`; `None` where the plugin would fail
        because `$selection` has not been read yet. Changes nothing. */
    method GetSelectedIndexes() returns (r: Option<seq<nat>>)
      requires Valid()
      ensures r.None? <==> selection.None?
      ensures r.Some? ==> forall x :: multiset(r.value)[x] == if x in marked then 1 else 0
      ensures r.Some? ==> StringSorted(r.value)
    {
      if selection.None? {
        return None;
      }
      var indexes := CollectIndexes(n, selection.value);
      r := Some(DefaultSort(indexes));
    }

    /** `GetSelectedIndexes` without the string sort (or, equivalently, with
        a numeric comparator): the selected indices in ascending order. */
    method GetSelectedIndexesAscending() returns (r: Option<seq<nat>>)
      requires Valid()
      ensures r.None? <==> selection.None?
      ensures r.Some? ==> forall x :: x in r.value <==> x in marked
      ensures r.Some? ==> forall p, q :: 0 <= p < q < |r.value| ==> r.value[p] < r.value[q]
    {
      if selection.None? {
        return None;
      }
      var indexes := CollectIndexes(n, selection.value);
      r := Some(indexes);
    }
  }

  /** The indices the `each`/`push` loop of `getSelectedIndexes` collects.
      That loop walks `$selection` in document order and pushes each item's
      index. This one scans the indices in order and pushes the selected
      ones. On a fixed list, document order is index order, so both give
      each selected index exactly once, in ascending order. */
  method CollectIndexes(n: nat, selected: set<nat>) returns (indexes: seq<nat>)
    requires InDomain(selected, n)
    ensures forall x :: multiset(indexes)[x] == if x in selected then 1 else 0
    ensures forall x :: x in indexes <==> x in selected
    ensures forall p, q :: 0 <= p < q < |indexes| ==> indexes[p] < indexes[q]
  {
    indexes := [];
    var k := 0;
    while k < n
      invariant 0 <= k <= n
      invariant forall x :: multiset(indexes)[x] == if x in selected && x < k then 1 else 0
      invariant forall x :: x in indexes <==> x in selected && x < k
      invariant forall p :: 0 <= p < |indexes| ==> indexes[p] < k
      invariant forall p, q :: 0 <= p < q < |indexes| ==> indexes[p] < indexes[q]
    {
      if k in selected {
        indexes := indexes + [k];
      }
      k := k + 1;
    }
  }
}
