# osxSelect selection state machine, in Dafny

osxSelect is a jQuery plugin that gives the items of a list macOS-style click
selection. A plain click selects exactly one item. A meta or ctrl click
toggles one item. A shift click selects the contiguous range between the shift
anchor (`shiftIndex`) and the clicked item, and releases whatever part of the
previous shift range (`$shiftRange`) the new range no longer covers.

The model treats the `n` items of the list as the indices `0..n-1`.

- `SelectionModel` (selection_model.dfy) is the click handler as pure
  functions over a `State` value. The state holds the items carrying the
  selected class, the anchor, and the shift range (`None` while the plugin's
  range is undefined). `ToggleStep`, `ShiftStep` and `PlainStep` are the
  three branches of `clickItem`. `Click` runs them in the source's order,
  each guarded by the source's condition. The lemmas state what one click
  does, the invariants every click keeps, and three worked click sequences.
- `OsxSelect` (osx_select.dfy) is the plugin instance as a class. Its
  fields are the selected class (`marked`), `$selection`, `shiftIndex` and
  `$shiftRange`. Its methods change them step by step, as the JavaScript
  does. `ClickItem` is proved to leave exactly the state `Click` computes.
  `GetSelectedIndexes` is a read-only method that collects the selected
  indices and then applies the source's sort. The source's `each`/`push`
  loop walks `$selection` in document order and pushes each item's index.
  The model's loop scans the indices `0..n-1` and pushes those that are
  selected. On a fixed list, document order is index order, so both loops
  give the same sequence.
- `JsSort` (js_sort.dfy) is the order used by `Array.prototype.sort()` when
  it is called without a comparator. That order compares decimal numerals
  code unit by code unit. The module proves it is a total order and that the
  sorted result is unique.

Behaviour of the code as written, which the model keeps:

- The three branches are separate `if`s, not a dispatch. A meta+shift click
  runs the toggle branch and then the shift branch. The shift branch sees the
  anchor the toggle just set (`MetaShiftClickOnUnselected`), so a meta+shift
  click never leaves the clicked item deselected
  (`MetaShiftClickOnSelectedKeepsIt`).
- The toggle guard parses as `(multi && metaKey) || ctrlKey`. A ctrl click
  toggles even when `multi` is false, and the plain branch then runs as well
  (`BranchesThatRun`).
- There is no "previous anchor" field. Whenever a range exists, a shift click
  releases the old range minus the new one, even after the anchor has moved
  (`ShiftAfterAnchorMoveReleasesOldRange`). A design that keeps the old range
  selected when the anchor moved ("grow" instead of "flip") is not what this
  code does.
- An empty `$shiftRange` left behind by a toggle is still a defined range:
  an empty jQuery collection is truthy.
- `$selection` is undefined until the first click, the first
  `selectItems`/`deselectItems` call, or a direct call to the public
  `setSelection` (lines 135-137). The first three re-read it at their end
  (lines 110, 146 and 159), whether or not anything changed. Calling
  `getSelectedIndexes` before that fails. The model returns `None` there.
- The public `deselectItems` can remove items that are still in the shift
  range. After that, the range is no longer inside the selection, and a later
  shift click does not reselect the items the old and new ranges share,
  not even the clicked item (`ShiftClickAfterDeselectLeavesItUnselected`).
  So "the range lies inside the selection" (`RangeSelected`) is kept by every
  click (`ClickKeepsRangeSelected`), but not by `deselectItems`.

## Model

| member | source | states |
|---|---|---|
| `OsxSelect.Plugin.constructor` | src/jquery.osxSelect.js:18-36 | a new instance has the anchor at 0, no shift range and `$selection` unread; items already marked stay marked |
| `OsxSelect.Plugin.SetSelection` | src/jquery.osxSelect.js:135-137 | `$selection` becomes the set of items carrying the selected class |
| `OsxSelect.Plugin.SelectItems` | src/jquery.osxSelect.js:142-150 | the selection becomes its union with the argument, so nothing outside the argument changes and a repeat is a no-op; `$selection` is re-read |
| `OsxSelect.Plugin.DeselectItems` | src/jquery.osxSelect.js:155-163 | the selection becomes its difference with the argument, so nothing outside the argument changes and a repeat is a no-op; `$selection` is re-read |
| `OsxSelect.Plugin.ClickItem` | src/jquery.osxSelect.js:45-114 | the click handler, branch by branch, leaves exactly the state `Click` gives; it keeps the domain invariant, and `$selection` mirrors the selection afterwards |
| `OsxSelect.CollectIndexes` | src/jquery.osxSelect.js:122-127 | the push loop yields every selected index exactly once, in ascending order |
| `OsxSelect.Plugin.GetSelectedIndexes` | src/jquery.osxSelect.js:121-130 | changes nothing; fails (`None`) exactly when `$selection` was never read; otherwise returns each selected index exactly once, sorted in the default string order |
| `OsxSelect.Plugin.GetSelectedIndexesAscending` | src/jquery.osxSelect.js:121-130 | corrected form: each selected index once, in strictly ascending numeric order |
| `SelectionModel.Initial` | src/jquery.osxSelect.js:30-33 | the state of a new instance: the premarked items stay selected, there is no shift range yet, and so the range trivially lies inside the selection |
| `SelectionModel.Toggles` | src/jquery.osxSelect.js:50 | the toggle guard `(multi && metaKey) \|\| ctrlKey`: a ctrl click always toggles, and with `multi` off only a ctrl click does |
| `SelectionModel.Shifts` | src/jquery.osxSelect.js:72 | the shift guard: it needs shift held, and it never holds together with the plain guard |
| `SelectionModel.IsPlain` | src/jquery.osxSelect.js:97 | the plain guard: with `multi` off every click is plain; with `multi` on, a click holding any modifier is not |
| `SelectionModel.ToggleStep` | src/jquery.osxSelect.js:52-68 | the toggle branch flips exactly the clicked item; when it selects the item, the item becomes the anchor and the range is kept; a range inside the selection stays inside it |
| `SelectionModel.ShiftStep` | src/jquery.osxSelect.js:72-94 | the shift branch keeps the anchor and makes the interval between anchor and item the range; it unselects old minus new, selects new minus old (all of new with no old range), and leaves the rest alone, including items in both ranges |
| `SelectionModel.PlainStep` | src/jquery.osxSelect.js:97-107 | the plain branch leaves only the item selected, as anchor and as a one-item range |
| `SelectionModel.Click` | src/jquery.osxSelect.js:45-114 | the three branches in the source's order; after a shift or plain branch the range is defined and holds the item |
| `SelectionModel.PrevUntil` | src/jquery.osxSelect.js:80 | walking back from the clicked item to the anchor collects exactly the items strictly between them |
| `SelectionModel.NextUntil` | src/jquery.osxSelect.js:82 | walking forward from the clicked item to the anchor collects exactly the items strictly between them |
| `SelectionModel.NewShiftRange` | src/jquery.osxSelect.js:74-83 | the three-case range is the closed interval `[min(anchor,i), max(anchor,i)]`; it is `{i}` when the anchor is `i`, and it holds both ends |
| `SelectionModel.BranchesThatRun` | src/jquery.osxSelect.js:50-97 | which branch guards can hold together: shift and plain never both run; toggle and plain both run exactly on a ctrl click with `multi` off; every click runs at least one branch |
| `SelectionModel.ClickKeepsInv` | src/jquery.osxSelect.js:45-107 | after any click on an item, all selected and range indices are items and the anchor is an item |
| `SelectionModel.ShiftStepKeepsRangeSelected` | src/jquery.osxSelect.js:85-93 | if the range lies inside the selection, the shift branch keeps it so and leaves the clicked item selected |
| `SelectionModel.ClickKeepsRangeSelected` | src/jquery.osxSelect.js:45-107 | every click keeps the shift range inside the selection |
| `SelectionModel.ShiftClickSelectsClicked` | src/jquery.osxSelect.js:72-94 | when the range lies inside the selection, any click that runs the shift branch leaves the clicked item selected |
| `SelectionModel.PlainClickSelectsOnly` | src/jquery.osxSelect.js:97-107 | a plain click (no modifier, or `multi` off) leaves selection `{i}`, range `{i}` and anchor `i`, from any state |
| `SelectionModel.PlainClickIdempotent` | src/jquery.osxSelect.js:97-107 | a second identical plain click changes nothing |
| `SelectionModel.ToggleOffClick` | src/jquery.osxSelect.js:52-64 | toggling a selected item removes it from the selection and from the range and keeps every other item; the anchor is reset to 0 if it was the item, otherwise unchanged |
| `SelectionModel.ToggleOnClick` | src/jquery.osxSelect.js:65-68 | toggling an unselected item adds exactly that item, makes it the anchor and leaves the range unchanged |
| `SelectionModel.ToggleTwiceRestores` | src/jquery.osxSelect.js:52-68 | two toggles on an unselected item always restore the selection and leave the anchor at 0; a range stays defined or undefined as before and loses only the item, so it is restored exactly when it did not hold the item, and so always when it lay inside the selection |
| `SelectionModel.ShiftClick` | src/jquery.osxSelect.js:72-94 | a shift click keeps the anchor; the range becomes the interval; with no range the selection gains the interval; otherwise it loses old minus new and gains new minus old; items outside both ranges are untouched |
| `SelectionModel.ShiftClickWithRange` | src/jquery.osxSelect.js:85-93 | when the range lies inside the selection, the new selection is `(old − (oldRange − newRange)) ∪ newRange` |
| `SelectionModel.MetaShiftClickOnUnselected` | src/jquery.osxSelect.js:50-94 | meta/ctrl+shift on an unselected item: the anchor moves to it, the range becomes `{i}`, and the previous range is released |
| `SelectionModel.MetaShiftClickOnSelectedKeepsIt` | src/jquery.osxSelect.js:50-94 | meta/ctrl+shift on a selected item leaves it selected, with the anchor reset to 0 only if it was the item |
| `SelectionModel.RangeFromTwoToFive` | src/jquery.osxSelect.js:72-94 | with the anchor at 2 and no range, a shift click on 5 selects exactly 2..5 |
| `SelectionModel.ShiftFlipAroundAnchor` | src/jquery.osxSelect.js:72-107 | anchor 5: shift on 8 selects 5..8, then shift on 2 selects 2..5 and releases 6..8 |
| `SelectionModel.ShiftAfterAnchorMoveReleasesOldRange` | src/jquery.osxSelect.js:50-107 | after a plain click on 5, a shift click on 8, and ctrl off/on on 8, a shift click on 10 leaves exactly 8..10 selected |
| `SelectionModel.ShiftClickAfterDeselectLeavesItUnselected` | src/jquery.osxSelect.js:72-94 | after a plain click on 3, a shift click on 5 and deselecting 5, the range is no longer inside the selection, and a shift click on 5 leaves 5 unselected |
| `JsSort.DecimalString` | src/jquery.osxSelect.js:129 | the string form of an index is a non-empty string of decimal digits, without a leading zero unless the index is 0, and one digit long exactly below 10 |
| `JsSort.DecimalStringValue` | src/jquery.osxSelect.js:129 | reading the string form of an index back, digit by digit from the left, gives the index |
| `JsSort.LexLe` | src/jquery.osxSelect.js:129 | code-unit string order: a prefix comes first, and strings with different first units are ordered by that unit |
| `JsSort.StrLe` | src/jquery.osxSelect.js:129 | comparing indices by their string form; for one-digit indices it agrees with numeric order |
| `JsSort.StrLeTotalOrder` | src/jquery.osxSelect.js:129 | the string order on indices is total, transitive and antisymmetric |
| `JsSort.DefaultSort` | src/jquery.osxSelect.js:129 | `sort()` returns a permutation of its input sorted in string order |
| `JsSort.StringSortedUnique` | src/jquery.osxSelect.js:129 | two string-sorted permutations of the same indices are equal, so any correct sort gives the same result |
| `JsSort.TenBeforeTwo` | src/jquery.osxSelect.js:129 | in the default order 10 comes before 2 |
| `JsSort.SortOfOneTwoTen` | src/jquery.osxSelect.js:129 | the selected indices `[1, 2, 10]` come back as `[1, 10, 2]` |

## Left out

- Event binding, the `$.fn` wrapper and the `$.data` registration: host
  plumbing. The `selectedClass` and `selector` options and the selector
  strings are replaced by indices.
- Deriving the click index from the event target (`$clicked.index()`). The
  index is an input, and `ClickItem` requires it to be an item of the list.
  The model assumes that the position among siblings and the position among
  the elements `:eq` counts are the same index. It also assumes that the
  event target is the item itself, not an element inside it.
- OsxSelect.Plugin.SelectItems: requires every index to be an item of the
  list, that is, one of the container's elements that `selector` matches.
  jQuery would also add the class to any other element it is given.
  `$selection` (line 136) reads back every descendant of the container that
  has the class, so a non-item inside the container would show up there. For
  it, `getSelectedIndexes` would push -1 (line 126), and the next plain click
  would remove its class (line 98). The model has no such elements. Elements
  outside the container are never read back, so leaving them out loses
  nothing.
- The `selector` option is assumed to be given and to match exactly the
  list's items. The defaults (lines 6-10) have no `selector`. Without one,
  line 74 builds `"undefined:eq(k)"`, which matches nothing. A shift click
  would then select everything from the click to the end of the list in the
  direction of the anchor, and line 126 would push -1 for every item. The
  model does not cover that configuration.
- The `minSelection` option, which is declared but never read.
- The commented-out `onSelectionChange` callbacks, which are not live code.
- Items added to or removed from the list, and classes changed by code
  outside the plugin: the list is fixed at `n` items during the model's
  lifetime.
- Drag-rectangle selection, re-entrancy guards and a previous-anchor field.
  This source has none of them.

## Findings

| source | as written | input that shows it | evidently intended | confidence | as-written member | corrected member |
|---|---|---|---|---|---|---|
| src/jquery.osxSelect.js:129 | `indexes.sort()` with no comparator sorts the indices as strings | selected items 1, 2 and 10: the push loop yields `[1, 2, 10]`, and the sort returns `[1, 10, 2]` | the selected indices in ascending numeric order, which the loop already produces | medium; not executed | `JsSort.SortOfOneTwoTen` (about `OsxSelect.Plugin.GetSelectedIndexes`) | `OsxSelect.Plugin.GetSelectedIndexesAscending` |
