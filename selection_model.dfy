/**
  The click-selection state machine of the osxSelect plugin, as pure functions
  over a value. Items are the indices 0..n-1 of the list; the state is what
  `clickItem` reads and writes: the items that carry the selected class, the
  shift anchor and the shift range.
 */
module SelectionModel {

  datatype Option<T> = None | Some(value: T)

  /** `marked`: the items carrying the selected class.
      `shiftIndex`: the anchor of the next shift click.
      `shiftRange`: the items of the current shift range; `None` while the
      plugin's range is still undefined. An empty range is `Some({})`: an
      empty jQuery collection is still truthy. */
  datatype State = State(marked: set<nat>, shiftIndex: nat, shiftRange: Option<set<nat>>)

  /** The modifier keys of one click event. */
  datatype Modifiers = Modifiers(meta: bool, ctrl: bool, shift: bool)

  /** The state of a freshly constructed plugin over a list whose items
      `premarked` already carry the selected class. */
  function Initial(premarked: set<nat>): (r: State)
    ensures r.marked == premarked && r.shiftRange.None?
    ensures RangeSelected(r)
  {
    State(premarked, 0, None)
  }

  function Min(a: nat, b: nat): nat { if a <= b then a else b }
  function Max(a: nat, b: nat): nat { if a <= b then b else a }

  /** The closed interval [lo, hi] of item indices (empty when lo > hi). */
  function Interval(lo: nat, hi: nat): (r: set<nat>)
    ensures forall k :: k in r <==> lo <= k <= hi
    decreases hi + 1 - lo
  {
    if lo > hi then {} else {lo} + Interval(lo + 1, hi)
  }

  predicate InDomain(xs: set<nat>, n: nat) {
    forall k :: k in xs ==> k < n
  }

  /** `$clicked.prevUntil(anchor)`: the siblings before the clicked item,
      collected one by one walking back, up to but not including the anchor. */
  function PrevUntil(clicked: nat, anchor: nat): (r: set<nat>)
    requires anchor < clicked
    ensures forall k :: k in r <==> anchor < k < clicked
    decreases clicked
  {
    if clicked - 1 == anchor then {} else {clicked - 1} + PrevUntil(clicked - 1, anchor)
  }

  /** `$clicked.nextUntil(anchor)`: the siblings after the clicked item,
      collected one by one walking forward, up to but not including the anchor. */
  function NextUntil(clicked: nat, anchor: nat): (r: set<nat>)
    requires clicked < anchor
    ensures forall k :: k in r <==> clicked < k < anchor
    decreases anchor - clicked
  {
    if clicked + 1 == anchor then {} else {clicked + 1} + NextUntil(clicked + 1, anchor)
  }

  /** The range a shift click on `clicked` selects from `anchor`, built by
      the three cases of the plugin; it is the closed interval between the two. */
  function NewShiftRange(anchor: nat, clicked: nat): (r: set<nat>)
    ensures r == Interval(Min(anchor, clicked), Max(anchor, clicked))
    ensures anchor == clicked ==> r == {clicked}
    ensures anchor in r && clicked in r
  {
    if anchor == clicked then
      {clicked}
    else if anchor < clicked then
      PrevUntil(clicked, anchor) + {clicked} + {anchor}
    else
      NextUntil(clicked, anchor) + {clicked} + {anchor}
  }

  /** The guard of the toggle branch. It parses as `(multi && meta) || ctrl`,
      so a ctrl click toggles even when multi-selection is off. */
  predicate Toggles(multi: bool, m: Modifiers)
    ensures m.ctrl ==> Toggles(multi, m)
    ensures !multi ==> (Toggles(multi, m) <==> m.ctrl)
  {
    (multi && m.meta) || m.ctrl
  }

  /** The guard of the shift branch. */
  predicate Shifts(multi: bool, m: Modifiers)
    ensures Shifts(multi, m) ==> m.shift && !IsPlain(multi, m)
  {
    multi && m.shift
  }

  /** The guard of the plain-click branch. */
  predicate IsPlain(multi: bool, m: Modifiers)
    ensures !multi ==> IsPlain(multi, m)
    ensures multi && (m.meta || m.ctrl || m.shift) ==> !IsPlain(multi, m)
  {
    !multi || (!m.ctrl && !m.meta && !m.shift)
  }

  /** The toggle branch: deselect a selected item (dropping it from the
      range, and sending the anchor home to 0 if it was the anchor), or
      select an unselected one and make it the anchor. */
  function ToggleStep(s: State, i: nat): (r: State)
    ensures i in r.marked <==> i !in s.marked
    ensures forall k :: k != i ==> (k in r.marked <==> k in s.marked)
    ensures i in r.marked ==> r.shiftIndex == i && r.shiftRange == s.shiftRange
    ensures RangeSelected(s) ==> RangeSelected(r)
  {
    if i in s.marked then
      State(s.marked - {i},
            if s.shiftIndex == i then 0 else s.shiftIndex,
            if s.shiftRange.Some? then Some(s.shiftRange.value - {i}) else None)
    else
      State(s.marked + {i}, i, s.shiftRange)
  }

  /** The shift branch: select what the new range adds and, when a range
      exists, deselect what the old range had and the new one lacks. */
  function ShiftStep(s: State, i: nat): (r: State)
    ensures r.shiftIndex == s.shiftIndex
    ensures r.shiftRange == Some(Interval(Min(s.shiftIndex, i), Max(s.shiftIndex, i)))
    ensures s.shiftRange.Some? ==> forall k :: k in s.shiftRange.value && k !in r.shiftRange.value ==> k !in r.marked
    ensures forall k :: k in r.shiftRange.value && (s.shiftRange.None? || k !in s.shiftRange.value) ==> k in r.marked
    ensures forall k :: (s.shiftRange.None? || k !in s.shiftRange.value) && k !in r.shiftRange.value ==>
      (k in r.marked <==> k in s.marked)
    ensures s.shiftRange.Some? ==> forall k :: k in s.shiftRange.value && k in r.shiftRange.value ==>
      (k in r.marked <==> k in s.marked)
  {
    var newRange := NewShiftRange(s.shiftIndex, i);
    var marked :=
      match s.shiftRange
      case Some(oldRange) => (s.marked + (newRange - oldRange)) - (oldRange - newRange)
      case None => s.marked + newRange;
    State(marked, s.shiftIndex, Some(newRange))
  }

  /** The plain branch: remember every other selected item, select the
      clicked one, make it the range and the anchor, then deselect the rest. */
  function PlainStep(s: State, i: nat): (r: State)
    ensures r == State({i}, i, Some({i}))
  {
    var deselect := s.marked - {i};
    var marked := if i in s.marked then s.marked else s.marked + {i};
    State(marked - deselect, i, Some({i}))
  }

  /** One click on item `i`: the three branches are separate `if`s, run in
      this order, each seeing the state the previous one left. */
  function Click(s: State, multi: bool, i: nat, m: Modifiers): (r: State)
    ensures Shifts(multi, m) || IsPlain(multi, m) ==> r.shiftRange.Some? && i in r.shiftRange.value
  {
    var afterToggle := if Toggles(multi, m) then ToggleStep(s, i) else s;
    var afterShift := if Shifts(multi, m) then ShiftStep(afterToggle, i) else afterToggle;
    if IsPlain(multi, m) then PlainStep(afterShift, i) else afterShift
  }

  /** The well-formedness every operation keeps: all indices are items, and
      the anchor is an item (or the home anchor 0 of an empty list). */
  predicate Inv(s: State, n: nat) {
    && InDomain(s.marked, n)
    && (s.shiftIndex < n || s.shiftIndex == 0)
    && (s.shiftRange.Some? ==> InDomain(s.shiftRange.value, n))
  }

  /** The shift range, once defined, is part of the selection. */
  predicate RangeSelected(s: State) {
    s.shiftRange.Some? ==> s.shiftRange.value <= s.marked
  }

  /** A click with only meta or ctrl held (and multi-selection on): the
      toggle branch runs alone. */
  predicate OnlyToggles(multi: bool, m: Modifiers) {
    multi && (m.meta || m.ctrl) && !m.shift
  }

  /** A click with only shift held (and multi-selection on): the shift
      branch runs alone. */
  predicate OnlyShifts(multi: bool, m: Modifiers) {
    multi && m.shift && !m.meta && !m.ctrl
  }

  // ---------------------------------------------------------------------
  // Which branches run

  lemma BranchesThatRun(multi: bool, m: Modifiers)
    ensures OnlyToggles(multi, m) <==> Toggles(multi, m) && !Shifts(multi, m) && !IsPlain(multi, m)
    ensures OnlyShifts(multi, m) <==> Shifts(multi, m) && !Toggles(multi, m) && !IsPlain(multi, m)
    ensures !(Shifts(multi, m) && IsPlain(multi, m))
    ensures Toggles(multi, m) && IsPlain(multi, m) <==> !multi && m.ctrl
    ensures Toggles(multi, m) || Shifts(multi, m) || IsPlain(multi, m)
  {
  }

  // ---------------------------------------------------------------------
  // Invariants kept by every click

  lemma ClickKeepsInv(s: State, n: nat, multi: bool, i: nat, m: Modifiers)
    requires Inv(s, n)
    requires i < n
    ensures Inv(Click(s, multi, i, m), n)
  {
  }

  /** The shift branch keeps the range inside the selection and always
      leaves the clicked item selected. */
  lemma ShiftStepKeepsRangeSelected(t: State, i: nat)
    requires RangeSelected(t)
    ensures RangeSelected(ShiftStep(t, i))
    ensures i in ShiftStep(t, i).marked
  {
  }

  /** The range stays inside the selection across every click. */
  lemma ClickKeepsRangeSelected(s: State, multi: bool, i: nat, m: Modifiers)
    requires RangeSelected(s)
    ensures RangeSelected(Click(s, multi, i, m))
  {
  }

  /** After any click with shift held (and multi-selection on) the clicked
      item is selected. */
  lemma ShiftClickSelectsClicked(s: State, multi: bool, i: nat, m: Modifiers)
    requires Shifts(multi, m)
    requires RangeSelected(s)
    ensures i in Click(s, multi, i, m).marked
  {
  }

  // ---------------------------------------------------------------------
  // Plain click

  /** A plain click (no modifier, or multi-selection off) selects exactly
      the clicked item and makes it both the range and the anchor. */
  lemma PlainClickSelectsOnly(s: State, multi: bool, i: nat, m: Modifiers)
    requires IsPlain(multi, m)
    ensures Click(s, multi, i, m) == State({i}, i, Some({i}))
  {
  }

  lemma PlainClickIdempotent(s: State, multi: bool, i: nat, m: Modifiers)
    requires IsPlain(multi, m)
    ensures Click(Click(s, multi, i, m), multi, i, m) == Click(s, multi, i, m)
  {
  }

  // ---------------------------------------------------------------------
  // Toggle click

  /** Toggling a selected item off removes it from the selection and from
      the range and leaves every other item as it was; the anchor goes home
      to 0 exactly when it was the clicked item. */
  lemma ToggleOffClick(s: State, multi: bool, i: nat, m: Modifiers)
    requires OnlyToggles(multi, m)
    requires i in s.marked
    ensures var c := Click(s, multi, i, m);
      && i !in c.marked
      && (forall k :: k != i ==> (k in c.marked <==> k in s.marked))
      && c.shiftIndex == (if s.shiftIndex == i then 0 else s.shiftIndex)
      && (c.shiftRange.Some? <==> s.shiftRange.Some?)
      && (c.shiftRange.Some? ==>
            i !in c.shiftRange.value &&
            forall k :: k != i ==> (k in c.shiftRange.value <==> k in s.shiftRange.value))
  {
  }

  /** Toggling an unselected item on adds exactly that item, makes it the
      anchor, and leaves the range alone. */
  lemma ToggleOnClick(s: State, multi: bool, i: nat, m: Modifiers)
    requires OnlyToggles(multi, m)
    requires i !in s.marked
    ensures var c := Click(s, multi, i, m);
      && c.marked == s.marked + {i}
      && c.shiftIndex == i
      && c.shiftRange == s.shiftRange
  {
  }

  /** Two toggle clicks on an unselected item restore the selection and the
      range; the anchor ends at 0, because the second click unset the anchor
      the first one set. */
  lemma ToggleTwiceRestores(s: State, multi: bool, i: nat, m: Modifiers)
    requires OnlyToggles(multi, m)
    requires i !in s.marked
    ensures var t := Click(Click(s, multi, i, m), multi, i, m);
      && t.marked == s.marked
      && t.shiftIndex == 0
      && (s.shiftRange.Some? <==> t.shiftRange.Some?)
      && (t.shiftRange.Some? ==> t.shiftRange.value == s.shiftRange.value - {i})
      && (t.shiftRange == s.shiftRange <==> s.shiftRange.None? || i !in s.shiftRange.value)
      && (RangeSelected(s) ==> t.shiftRange == s.shiftRange)
  {
    var c := Click(s, multi, i, m);
    ToggleOnClick(s, multi, i, m);
    assert i in c.marked && c.shiftIndex == i;
    var t := Click(c, multi, i, m);
    assert t == ToggleStep(c, i);
    assert t.marked == s.marked;
    if s.shiftRange.Some? {
      if i in s.shiftRange.value {
        assert i !in t.shiftRange.value;
      } else {
        assert s.shiftRange.value - {i} == s.shiftRange.value;
      }
    }
  }

  // ---------------------------------------------------------------------
  // Shift click

  /** A shift click keeps the anchor, makes the closed interval between the
      anchor and the clicked item the new range, selects what it adds,
      releases what the old range covered and the new one does not, and
      touches nothing outside the two ranges. Items in both ranges keep
      whatever state they had. */
  lemma ShiftClick(s: State, multi: bool, i: nat, m: Modifiers)
    requires OnlyShifts(multi, m)
    ensures var c := Click(s, multi, i, m);
      var newRange := Interval(Min(s.shiftIndex, i), Max(s.shiftIndex, i));
      && c.shiftIndex == s.shiftIndex
      && c.shiftRange == Some(newRange)
      && (s.shiftRange.None? ==> c.marked == s.marked + newRange)
      && (s.shiftRange.Some? ==>
            var oldRange := s.shiftRange.value;
            && c.marked == (s.marked - (oldRange - newRange)) + (newRange - oldRange)
            && (oldRange - newRange) !! c.marked
            && forall k :: k !in oldRange && k !in newRange ==> (k in c.marked <==> k in s.marked))
  {
  }

  /** Where the range lies inside the selection, the selection after a
      shift click is the old one minus what the range releases, plus the
      whole new range. */
  lemma ShiftClickWithRange(s: State, multi: bool, i: nat, m: Modifiers)
    requires OnlyShifts(multi, m)
    requires RangeSelected(s)
    requires s.shiftRange.Some?
    ensures var newRange := Interval(Min(s.shiftIndex, i), Max(s.shiftIndex, i));
      var oldRange := s.shiftRange.value;
      Click(s, multi, i, m).marked == (s.marked - (oldRange - newRange)) + newRange
  {
  }

  /** A shift click together with an unselected meta or ctrl click: the toggle
      branch selects the item and moves the anchor onto it, so the shift branch
      computes the one-item range {i} and releases the whole previous range. */
  lemma MetaShiftClickOnUnselected(s: State, multi: bool, i: nat, m: Modifiers)
    requires multi && m.shift && (m.meta || m.ctrl)
    requires i !in s.marked
    ensures var c := Click(s, multi, i, m);
      && c.shiftIndex == i
      && c.shiftRange == Some({i})
      && c.marked == (if s.shiftRange.Some? then s.marked - s.shiftRange.value else s.marked) + {i}
  {
  }

  /** A meta or ctrl click together with shift never leaves the clicked item
      deselected: if the toggle branch removes it, the shift range that
      follows contains it again. */
  lemma MetaShiftClickOnSelectedKeepsIt(s: State, multi: bool, i: nat, m: Modifiers)
    requires multi && m.shift && (m.meta || m.ctrl)
    requires i in s.marked
    ensures i in Click(s, multi, i, m).marked
    ensures Click(s, multi, i, m).shiftIndex == (if s.shiftIndex == i then 0 else s.shiftIndex)
  {
  }

  // ---------------------------------------------------------------------
  // Worked click sequences

  const Plain := Modifiers(false, false, false)
  const Ctrl := Modifiers(false, true, false)
  const Shift := Modifiers(false, false, true)

  /** From a fresh plugin, a ctrl click on 2 makes 2 the anchor; a shift
      click on 5 then selects 2 through 5. */
  lemma RangeFromTwoToFive()
    ensures var s := Click(Click(Initial({}), true, 2, Ctrl), true, 5, Shift);
      s == State({2, 3, 4, 5}, 2, Some({2, 3, 4, 5}))
  {
    var s1 := Click(Initial({}), true, 2, Ctrl);
    assert s1 == State({2}, 2, None);
    var r := NewShiftRange(2, 5);
    assert r == {2, 3, 4, 5};
  }

  /** With the anchor at 5, a shift click on 8 selects 5 through 8; a shift
      click on 2 from the same anchor then selects 2 through 5 and releases
      6, 7 and 8. */
  lemma ShiftFlipAroundAnchor()
    ensures var s1 := Click(Click(Initial({}), true, 5, Plain), true, 8, Shift);
      var s2 := Click(s1, true, 2, Shift);
      && s1 == State({5, 6, 7, 8}, 5, Some({5, 6, 7, 8}))
      && s2 == State({2, 3, 4, 5}, 5, Some({2, 3, 4, 5}))
  {
    var s0 := Click(Initial({}), true, 5, Plain);
    PlainClickSelectsOnly(Initial({}), true, 5, Plain);
    assert NewShiftRange(5, 8) == {5, 6, 7, 8};
    var s1 := Click(s0, true, 8, Shift);
    assert s1.marked == ({5} + ({5, 6, 7, 8} - {5})) - ({5} - {5, 6, 7, 8});
    assert NewShiftRange(5, 2) == {2, 3, 4, 5};
  }

  /** Moving the anchor does not protect the old range. After a plain click
      on 5 and a shift click on 8, two ctrl clicks on 8 (off, then on again)
      leave 5 through 8 selected with the anchor on 8; a shift click on 10
      then selects 8 through 10 and releases 5, 6 and 7, which the old range
      still held. */
  lemma ShiftAfterAnchorMoveReleasesOldRange()
    ensures var s1 := Click(Click(Initial({}), true, 5, Plain), true, 8, Shift);
      var s2 := Click(Click(s1, true, 8, Ctrl), true, 8, Ctrl);
      var s3 := Click(s2, true, 10, Shift);
      && s2 == State({5, 6, 7, 8}, 8, Some({5, 6, 7}))
      && s3 == State({8, 9, 10}, 8, Some({8, 9, 10}))
  {
    ShiftFlipAroundAnchor();
    var s1 := Click(Click(Initial({}), true, 5, Plain), true, 8, Shift);
    var off := Click(s1, true, 8, Ctrl);
    assert off == ToggleStep(s1, 8);
    assert {5, 6, 7, 8} - {8} == {5, 6, 7};
    assert off == State({5, 6, 7}, 5, Some({5, 6, 7}));
    var s2 := Click(off, true, 8, Ctrl);
    assert s2 == State({5, 6, 7, 8}, 8, Some({5, 6, 7}));
    assert NewShiftRange(8, 10) == {8, 9, 10};
  }

  /** `deselectItems` can take an item of the range out of the selection, and
      a shift click on that item then leaves it unselected: after a plain
      click on 3 and a shift click on 5, deselecting 5 and shift-clicking 5
      again selects nothing new, because the new range equals the old one. */
  lemma ShiftClickAfterDeselectLeavesItUnselected()
    ensures var s1 := Click(Click(Initial({}), true, 3, Plain), true, 5, Shift);
      var s2 := State(s1.marked - {5}, s1.shiftIndex, s1.shiftRange);
      var s3 := Click(s2, true, 5, Shift);
      && s2 == State({3, 4}, 3, Some({3, 4, 5}))
      && !RangeSelected(s2)
      && 5 !in s3.marked
  {
    var s0 := Click(Initial({}), true, 3, Plain);
    PlainClickSelectsOnly(Initial({}), true, 3, Plain);
    assert NewShiftRange(3, 5) == {3, 4, 5};
    var s1 := Click(s0, true, 5, Shift);
    assert s1.marked == ({3} + ({3, 4, 5} - {3})) - ({3} - {3, 4, 5});
    assert s1.marked - {5} == {3, 4};
  }
}
