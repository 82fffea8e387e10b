/**
  Clients of the text area that follow single edits through the model from
  a fresh area, using only the contracts of its methods.
 */
module Scenarios {
  import opened Utf8
  import opened EditHistory
  import opened Ui
  import opened Tautil
  import opened Wrappers

  /** A text area whose drawer puts every index on the first line of height 16. */
  method NewArea() returns (ta: TextArea)
    ensures fresh(ta) && ta.Valid() && ta.str == [] && ta.history == Empty() && ta.edit.None?
  {
    ta := new TextArea(16 * 64, s => 16 * 64, (s, i) => 0, (s, x, y) => 0, 0, 0, 100);
  }

  /**
    Inserting x at index 0 of [a, b] in one transaction gives [x, a, b] and
    pushes one record; undoing it restores [a, b] and a second undo is
    ignored.
   */
  method InsertThenUndo(x: Byte, a: Byte, b: Byte) returns (inserted: seq<Byte>, records: nat, undone: seq<Byte>, again: seq<Byte>)
    ensures inserted == [x, a, b] && records == 1
    ensures undone == [a, b] && again == [a, b]
  {
    var ta := NewArea();
    ta.SetStrClear([a, b], true, true);
    ta.EditOpen();
    ta.EditInsert(0, [x]);
    ta.EditClose();
    inserted, records := ta.str, |ta.history.done|;
    ta.PopUndo();
    undone := ta.str;
    ta.PopUndo();
    again := ta.str;
  }

  /** An area holding [a] followed by the rune r, typed in one transaction, with the cursor after it. */
  method TypeRune(a: Byte, r: int) returns (ta: TextArea)
    ensures fresh(ta) && ta.Valid() && ta.edit.None? && !ta.SelectionOn()
    ensures ta.str == [a] + EncodeRune(r) && ta.cursorIndex == |ta.str| && ta.selectionIndex <= |ta.str|
  {
    ta := NewArea();
    ta.SetStrClear([a], true, true);
    ta.EditOpen();
    ta.EditInsert(1, EncodeRune(r));
    ta.EditClose();
    ta.SetCursorIndex(|ta.str|);
  }

  /** Backspace right after typing the rune r removes exactly r's bytes. */
  method TypeThenBackspace(a: Byte, r: int) returns (typed: seq<Byte>, after: seq<Byte>)
    ensures typed == [a] + EncodeRune(r) && after == [a]
  {
    var ta := TypeRune(a, r);
    typed := ta.str;
    PreviousRuneOfTypedRune([a], r, []);
    assert [a] + EncodeRune(r) + [] == typed;
    Backspace(ta);
    assert ta.str == typed[..1] + typed[|typed|..];
    after := ta.str;
  }

  /**
    A transaction that inserts at the end, moves the anchor past the old end
    and deletes the insertion again changes nothing, so nothing re-clamps the
    anchor; Backspace still deletes the byte before the cursor.
   */
  method AnchorPastEnd() returns (anchor: int, size: nat, after: seq<Byte>)
    ensures anchor == 3 && size == 2 && after == [0x61]
  {
    var ta := NewArea();
    ta.SetStrClear([0x61, 0x62], true, true);
    ta.SetCursorIndex(2);
    ta.EditOpen();
    ta.EditInsert(2, [0x63]);
    ta.SetSelectionIndex(3);
    ta.EditDelete(2, 3);
    ta.EditClose();
    anchor, size := ta.selectionIndex, |ta.str|;
    Backspace(ta);
    after := ta.str;
  }
}
