# Text area buffer model

A Dafny model of the text-editing core of the editor's text area:

- the `TextArea` state of package `ui`: the string, the cursor index, the
  selection (a flag and an anchor index), the vertical scroll offset in
  26.6 fixed-point units, the open edit transaction and the undo history,
  with every setter that clamps, switches the selection off or scrolls;
- the `Backspace` command of package `tautil`, which deletes the selection
  or the rune before the cursor in one edit transaction;
- the early-exit stage of the layout pipeline (`EarlyExitLooper.Loop` of
  package `loopers`), which stops a layout pass at the first step whose pen
  top lies below the bounds.

Modules, one per unit of the program:

| file | module | models |
|---|---|---|
| `textarea.dfy` | `Ui` | class `TextArea` with `Valid()` (a selection that is on is never empty) and its setters |
| `backspace.dfy` | `Tautil` | `Backspace`, `SelectionStringIndexes`, `PreviousRuneIndex` |
| `earlyexitlooper.dfy` | `Loopers` | `EarlyExitLooper.Loop` over a sequence of pen positions |
| `edithistory.dfy` | `EditHistory` | the edit transaction and bounded undo history the text area delegates to |
| `utf8.dfy` | `Utf8` | the byte counts of Go's `utf8.DecodeRuneInString` and `DecodeLastRuneInString`, with `EncodeRune` as reference |
| `fixed.dfy` | `Fixed` | `fixed.I`, `Int26_6.Floor` and Go's truncating `/ 2` |
| `scenarios.dfy` | `Scenarios` | clients that follow an insert, an undo and a Backspace through a fresh area |
| `wrappers.dfy` | `Wrappers` | `Option` |

The layout drawer the text area measures with (`LineHeight`, `Height`,
`GetPoint(i).Y`, `GetIndex`) is given to the `TextArea` constructor as a
constant and three functions of the string; the area's bounds are constants.
The string the drawer last measured (`drawer.Str`) is a field of its own,
`drawerStr`: `SetRawStr` clamps the cursor, and so scrolls, before it hands
the new string to the drawer, so that scroll is measured on the previous
string's layout.
An index that stays within `[0, len(Str())]` is not an invariant of the
object: during an edit transaction a deletion shortens `Str()` without
moving the cursor, and the next `setStr` clamps it again. What is invariant
is `Valid()`: non-negative indices and offset, a history within its depth,
and a selection that is on only while it is non-empty. `Backspace` needs
the cursor within the string (and the anchor too when a selection is on),
and leaves them so whenever it deletes.

## Model

| member | source | states |
|---|---|---|
| `Ui.TextArea.constructor` | ui/textarea.go:47-72 | a new area holds the empty string, cursor and offset 0, no selection, no transaction and an empty history |
| `Ui.TextArea.Str` | ui/textarea.go:153-159 | while a transaction is open the text is the transaction's running string, otherwise `str` |
| `Ui.TextArea.ValidIndex` | ui/textarea.go:292-299 | the result is always in `[0, len(Str())]`, is `v` itself when `v` is already in range, 0 below and `len(Str())` above |
| `Ui.TextArea.SomethingSelected` | ui/textarea.go:305-309 | something is selected exactly when the span between anchor and cursor holds at least one byte |
| `Ui.TextArea.SelectionOn` | ui/textarea.go:279-281 | under the invariant it is exactly the selection flag; when it holds, anchor and cursor differ |
| `Ui.TextArea.SetSelectionOn` | ui/textarea.go:285-290 | the flag becomes `v`; switching it on is only done when something is selected, so the invariant holds |
| `Ui.TextArea.SetSelectionOff` | ui/textarea.go:282-284 | the selection is off afterwards and the invariant holds |
| `Ui.TextArea.ValidateSelection` | ui/textarea.go:300-309 | an empty selection is switched off and a non-empty one keeps its flag, restoring the invariant |
| `Ui.TextArea.StrHeight` | ui/textarea.go:116-123 | the content height is the larger of one line height and the height the drawer measured for the string it was last given |
| `Ui.TextArea.UpdateStringCache` | ui/textarea.go:80-88 | `updateStringCache` through `drawerMeasure`: afterwards the drawer holds the current string |
| `Ui.ClampOffset` | ui/textarea.go:314-320 | the offset is limited to `[0, h]`: unchanged inside, 0 below, `h` above |
| `Ui.TextArea.SetOffsetY` | ui/textarea.go:314-328 | afterwards `0 <= offsetY <= StrHeight()` and `StrHeight() >= LineHeight()`; the offset is `v` clamped into that range |
| `Ui.ScrollTarget` | ui/textarea.go:338-365 | no scroll exactly when the line lies wholly in the viewport; otherwise the line's top goes to the viewport's top when it is cut off above, else its bottom to the viewport's bottom when cut off below, else its top to half the viewport |
| `Ui.TextArea.MakeIndexVisible` | ui/textarea.go:338-365 | the offset is left alone when the index's line (on the drawer's current layout) is wholly visible, otherwise aligned to the top, to the bottom or to half the viewport, then clamped |
| `Ui.IndexVisibleAfterScroll` | ui/textarea.go:338-365 | when the line fits in the lower half of the viewport and starts within the content, the whole line is in view afterwards |
| `Ui.TextArea.SetOffsetIndex` | ui/textarea.go:334-337 | the offset becomes the Y of the index's line on the drawer's current layout, clamped into the content |
| `Ui.TextArea.MakeIndexVisibleAtCenter` | ui/textarea.go:367-373 | the offset becomes the index's line Y less half the viewport, clamped into the content |
| `Ui.TextArea.SetCursorIndex` | ui/textarea.go:253-261 | the cursor becomes `validIndex(v)`; when that is the old cursor no field changes; otherwise an emptied selection is switched off and the line is scrolled into view |
| `Ui.TextArea.SetSelectionIndex` | ui/textarea.go:265-272 | the anchor becomes `validIndex(v)`; when unchanged nothing changes; an emptied selection is switched off |
| `Ui.TextArea.SetSelection` | ui/textarea.go:273-277 | anchor and cursor become `validIndex(si)` and `validIndex(ci)`, and the selection is on exactly when these differ |
| `Ui.TextArea.SetRawStr` | ui/textarea.go:162-175 | nothing changes when `s` is already the string; otherwise `str` becomes `s`, cursor then anchor are re-clamped and an emptied selection switched off, the cursor move scrolling on the layout of the drawer's previous string, and then the drawer is given `s` |
| `Ui.TextArea.SetStr` | ui/textarea.go:177-188 | the same change of state as `SetRawStr`, the scroll included |
| `Ui.TextArea.SetStrClear` | ui/textarea.go:191-207 | the string becomes `str` in every case with the selection off; `clearPosition` puts cursor and offset at 0; without it the cursor is re-clamped and scrolled on the drawer's previous layout; `clearUndoQ` empties the history, otherwise exactly one record is pushed when the string changed; the drawer holds the new string whenever it changed |
| `Ui.TextArea.ReplaceInEdit` | ui/textarea.go:200-205 | without `clearUndoQ` the string is replaced in one open/delete/insert/close transaction: exactly one record from the old string to the new one is pushed when they differ, and the string is set as `SetRawStr` sets it |
| `Ui.TextArea.EditOpen` | ui/textarea.go:209-214 | opening requires that no transaction is open (a panic otherwise); it starts on the current text, which it does not change |
| `Ui.TextArea.EditInsert` | ui/textarea.go:215-217 | the text becomes the old text with `str` inserted at `index` |
| `Ui.TextArea.EditDelete` | ui/textarea.go:218-220 | the text becomes the old text without `[index, index2)` |
| `Ui.TextArea.EditClose` | ui/textarea.go:221-229 | the transaction is always closed; with no change no record is pushed and nothing else changes; with a change its record is pushed and the string set as `SetRawStr` sets it, scrolling on the drawer's previous layout |
| `Ui.TextArea.PopUndo` | ui/textarea.go:231-239 | at the oldest record nothing changes; otherwise the string before the newest record is restored (the re-clamped cursor scrolling on the drawer's previous layout), the cursor moved to the reported index (scrolling on the restored layout) and the selection switched off |
| `Ui.TextArea.UnpopRedo` | ui/textarea.go:240-248 | at the newest record nothing changes; otherwise the string after the next undone record is restored (the re-clamped cursor scrolling on the drawer's previous layout), the cursor moved to the reported index (scrolling on the restored layout) and the selection switched off |
| `Ui.TextArea.PointIndexInsideSelection` | ui/textarea.go:498-508 | true exactly when the index under the point (on the drawer's current layout) lies in the half-open span between anchor and cursor, whichever comes first; so only when that span is non-empty |
| `EditHistory.Open` | ui/textarea.go:213 | a transaction opened on `s` and closed at once hands `s` back and reports no change |
| `EditHistory.Empty` | ui/textarea.go:198 | after `ClearQ` there is nothing to undo and nothing to redo, whatever the current string |
| `EditHistory.Insert` | ui/textarea.go:215-217 | the running string gets the text at `index`, everything before and after kept |
| `EditHistory.Delete` | ui/textarea.go:218-220 | the running string loses `[i, j)`, everything before and after kept |
| `EditHistory.DeleteInsertRoundTrip` | ui/textarea.go:215-220 | deleting a span and inserting the deleted text at its start restores the running string |
| `EditHistory.Close` | ui/textarea.go:222 | closing reports the running string, a record from baseline to it, and a change exactly when the two differ |
| `EditHistory.ChangeIndex` | ui/textarea.go:232-237 | the index undo and redo report is where the two strings of the record start to differ: a common prefix that cannot be extended |
| `EditHistory.History.Push` | ui/textarea.go:227 | pushing drops the undone records, appends the record and, at depth 40 (ui/textarea.go:55), evicts exactly the oldest one |
| `EditHistory.History.PopUndo` | ui/textarea.go:232 | ok exactly when a committed record exists; otherwise history and string are returned unchanged; when ok the newest record moves to the undone ones and its before-string is returned |
| `EditHistory.History.UnpopRedo` | ui/textarea.go:241 | ok exactly when an undone record exists; otherwise nothing changes; when ok that record moves back and its after-string is returned |
| `EditHistory.UndosMoveRecords` | ui/textarea.go:231-239 | n undos move the newest n records, in order, to the front of the undone ones and return the string before the n-th newest |
| `EditHistory.RedosMoveRecords` | ui/textarea.go:240-248 | n redos move the first n undone records back in order and return the string after the last one |
| `EditHistory.UndoThenRedo` | ui/textarea.go:231-248 | n undos followed by n redos restore the history and give the string after the newest record |
| `Utf8.DecodeRuneSize` | ui/tautil/backspace.go:11 | decoding forwards consumes 1 to the announced length; more than 1 only for a complete encoding with an accepted second byte and continuation bytes after it |
| `Utf8.ScanBack` | ui/tautil/backspace.go:11 | the backward scan stops at the nearest byte that can start an encoding, no lower than the limit, with only continuation bytes passed over |
| `Utf8.DecodeLastRuneSize` | ui/tautil/backspace.go:11 | decoding backwards consumes 0 bytes only from the empty string, otherwise 1 to 4, and exactly 1 when the last byte is ASCII |
| `Utf8.DecodeLastOfEncoded` | ui/tautil/backspace.go:11 | behind any prefix, decoding backwards consumes exactly the UTF-8 encoding of the last rune |
| `Tautil.PreviousRuneIndex` | ui/tautil/backspace.go:11-14 | there is no previous rune exactly at index 0; otherwise it starts at most 4 bytes back, and one byte back after an ASCII byte |
| `Tautil.PreviousRuneOfTypedRune` | ui/tautil/backspace.go:10-14 | right after a rune typed at the end of a prefix, the previous rune starts where the prefix ends, so Backspace removes exactly that rune |
| `Tautil.SelectionStringIndexes` | ui/tautil/backspace.go:7 | returns the anchor and the cursor, smaller first |
| `Tautil.Backspace` | ui/tautil/backspace.go:3-20 | with a selection, deletes exactly `[min, max)` of anchor and cursor, switches the selection off and puts the cursor at the start; without one, at index 0 nothing changes; otherwise deletes `[previous rune, cursor)` and moves the cursor there; each deletion pushes exactly one record and scrolls first on the previous, then on the shortened layout; an anchor past the end is accepted when no selection is on |
| `Tautil.DeleteSpan` | ui/tautil/backspace.go:16-19 | one open/delete/close transaction over `[a, b)` followed by moving the cursor to `a`: the span cut out, one record pushed, cursor and anchor re-clamped with the scroll on the previous layout, then the cursor at `a` scrolled on the shortened layout |
| `Fixed.I` | ui/textarea.go:340 | a whole number converted to 26.6 floors back to itself |
| `Fixed.Floor` | drawutil2/loopers/earlyexitlooper.go:18 | `Floor(x)` is the greatest whole number whose 64 multiples do not exceed `x`, negative values included |
| `Fixed.Half` | ui/textarea.go:363 | Go's `/ 2` truncates toward zero |
| `Loopers.PenTop` | drawutil2/loopers/earlyexitlooper.go:17-18 | the pen's top is the whole-pixel row, counted from the bounds' top, that holds the pen's 26.6 Y |
| `Loopers.BeyondBounds` | drawutil2/loopers/earlyexitlooper.go:17-19 | the early-exit test holds exactly when the pen's 26.6 Y is at or below the first pixel row after the bounds' bottom row |
| `Loopers.Loop` | drawutil2/loopers/earlyexitlooper.go:14-24 | `fn` runs on a prefix of the steps, never on one whose pen top is beyond the bounds' bottom edge (a top on the edge still runs); every call but the last returned true; the pass ends early only at the first step beyond the bounds or after `fn` returns false; over a downward pass with `fn` never stopping, `fn` runs on exactly the in-bounds steps |
| `Scenarios.InsertThenUndo` | ui/textarea.go:209-239 | inserting one byte at 0 of a two-byte string in one transaction gives the three bytes and one record; an undo restores the two bytes; a second undo at the oldest record is ignored |
| `Scenarios.TypeThenBackspace` | ui/tautil/backspace.go:3-20 | Backspace right after a rune was typed at the end removes exactly that rune's bytes |
| `Scenarios.AnchorPastEnd` | ui/tautil/backspace.go:3-20 | a transaction that changes nothing can leave the anchor past the end of the string; Backspace with no selection on still deletes the byte before the cursor |

## Left out

- Painting, `paint`, `getDrawSelection`, `C.NeedPaint` and `EvReg.RunCallbacks`: side effects on the window and on observers, with no state of the text area behind them.
- The input handlers (`onKeyPress`, `onButtonPress`, `onMotionNotify`, `onButtonRelease`, `onDoubleClick`, `onTripleClick`, `insertKeyRune`), `PageUp`, `PageDown`: key and button dispatch to `tautil` commands that are not part of this model.
- `NewTextArea`'s event registration, `Close`, `WarpPointerToIndexIfVisible`, the clipboard wrappers and `InsertStringAsync`: calls into the window system.
- `CalcStringHeight`, `OffsetIndex`, `onContainerCalc` and the bounds-change handling: the drawer is measured with a fixed width and the bounds are constant in this model, so `drawerMeasure` reduces to `UpdateStringCache` handing the drawer the current string.
- The layout drawer itself (`Measure`, `Height`, `GetPoint`, `GetIndex`, `LineHeight`): its source is not part of this model; it is given as functions of the string, and `LineHeight() >= 0` is the one thing assumed of it.
- EditHistory.History.PopUndo: tautil.EditHistory is not part of this model. Records are kept as the strings before and after a transaction, so undo returns the recorded before-string rather than replaying inverse operations against the current string (the two agree when the string has not been changed since outside the history), and the cursor index it reports is modelled as the first index where the two strings differ.
- EditHistory.History.UnpopRedo: as for `PopUndo`, redo returns the recorded after-string.
- EditHistory.Close: tautil.EditHistoryEdit is not part of this model; a transaction is taken to report a change when its string differs from its baseline.
- Tautil.PreviousRuneIndex: assumed to decode `str[:index]` backwards with `utf8.DecodeLastRuneInString`; the rune it also returns is not modelled, only its index.
- Fixed.I: does not model the 32-bit wrap-around of Int26_6 or of Go's `int` arithmetic on offsets; every offset and pen position is an unbounded integer.
- Loopers.Loop: the outer looper chain and the string looper are reduced to a sequence of pen positions, one per step, and `fn`'s drawing to the boolean it returns at each step.
- Render concurrency (a goroutine per glyph) and the wrap, line, selection and cursor stages of the pipeline: not part of this model.
