/**
  The Backspace command of package tautil and the two helpers it calls,
  acting on a text area.
 */
module Tautil {
  import opened Wrappers
  import opened Utf8
  import opened EditHistory
  import opened Ui

  /** SelectionStringIndexes: the selection index and the cursor, smaller first. */
  function SelectionStringIndexes(ta: TextArea): (r: (int, int))
    reads ta
    ensures r.0 <= r.1
    ensures (r.0 == ta.selectionIndex && r.1 == ta.cursorIndex) || (r.0 == ta.cursorIndex && r.1 == ta.selectionIndex)
  {
    if ta.selectionIndex <= ta.cursorIndex then (ta.selectionIndex, ta.cursorIndex)
    else (ta.cursorIndex, ta.selectionIndex)
  }

  /**
    PreviousRuneIndex: the index where the rune ending at `index` starts,
    found by decoding str[:index] backwards; None when there is no rune
    before index. The rune itself is not modelled.
   */
  function PreviousRuneIndex(s: seq<Byte>, index: int): (r: Option<nat>)
    requires 0 <= index <= |s|
    ensures r.None? <==> index == 0
    ensures r.Some? ==> index - UTFMax <= r.value < index
    ensures r.Some? && s[index - 1] < RuneSelf ==> r.value == index - 1
  {
    var size := DecodeLastRuneSize(s[..index]);
    if size == 0 then None else Some(index - size)
  }

  /** Right after a rune typed at the end of p, the previous rune starts where p ends. */
  lemma PreviousRuneOfTypedRune(p: seq<Byte>, r: int, rest: seq<Byte>)
    ensures var s := p + EncodeRune(r) + rest;
      PreviousRuneIndex(s, |p| + |EncodeRune(r)|) == Some(|p|)
  {
    var e := EncodeRune(r);
    var s := p + e + rest;
    assert s[..|p| + |e|] == p + e;
    DecodeLastOfEncoded(p, r);
  }

  /**
    The state Backspace leaves after deleting the span [a, b): the string
    with that span cut out, one record pushed for it, the transaction closed,
    the selection off and the cursor at a. Cursor and anchor are first
    clamped into the shorter string (setStr), then the cursor moves to a,
    each cursor move scrolling as SetCursorIndex does: the first on the
    layout of the string the drawer held before, the second on the new one.
   */
  twostate predicate DeletedSpan(ta: TextArea, a: int, b: int)
    reads ta
    requires ta.lineHeight >= 0 && old(ta.history).Valid()
  {
    var c1 := ta.ValidIndex(old(ta.cursorIndex));
    0 <= a < b <= |old(ta.str)| &&
    ta.str == old(ta.str)[..a] + old(ta.str)[b..] && ta.drawerStr == ta.str &&
    ta.edit.None? &&
    ta.history == old(ta.history).Push(Record(old(ta.str), ta.str)) &&
    ta.cursorIndex == a && !ta.selectionOn &&
    ta.selectionIndex == ta.ValidIndex(old(ta.selectionIndex)) &&
    ta.offsetY == ta.ScrollAfterMove(ta.str, ta.ScrollAfterMove(old(ta.drawerStr), old(ta.offsetY), old(ta.cursorIndex), c1), c1, a)
  }

  /**
    Backspace: with a selection on, deletes the selected span; otherwise
    deletes the rune before the cursor, and does nothing at all when there
    is none. The deletion is one edit transaction, so one undo record.
   */
  method Backspace(ta: TextArea)
    requires ta.Valid()
    // str[:index] and the deletion panic past the end; an anchor past the end is harmless with the selection off
    requires ta.cursorIndex <= |ta.Str()| && (ta.SelectionOn() ==> ta.selectionIndex <= |ta.Str()|)
    // EditOpen panics on an open transaction; only the early return avoids it
    requires ta.edit.None? || (!ta.SelectionOn() && ta.cursorIndex == 0)
    modifies ta`edit, ta`history, ta`str, ta`drawerStr, ta`cursorIndex, ta`selectionIndex, ta`selectionOn, ta`offsetY
    ensures ta.Valid()
    ensures ta.cursorIndex <= |ta.Str()|
    ensures old(ta.SelectionOn()) || old(ta.cursorIndex) > 0 || old(ta.selectionIndex) <= old(|ta.Str()|) ==>
      ta.selectionIndex <= |ta.Str()|
    ensures !old(ta.SelectionOn()) && old(ta.cursorIndex) == 0 ==> unchanged(ta)
    ensures old(ta.SelectionOn()) ==>
      var (a, b) := old(SelectionStringIndexes(ta));
      DeletedSpan(ta, a, b)
    ensures !old(ta.SelectionOn()) && old(ta.cursorIndex) > 0 ==>
      var a := old(PreviousRuneIndex(ta.Str(), ta.cursorIndex)).value;
      DeletedSpan(ta, a, old(ta.cursorIndex))
  {
    var a, b;
    if ta.SelectionOn() {
      var span := SelectionStringIndexes(ta);
      a, b := span.0, span.1;
      ta.SetSelectionOff();
    } else {
      b := ta.cursorIndex;
      var prev := PreviousRuneIndex(ta.Str(), b);
      if prev.None? {
        return;
      }
      a := prev.value;
    }
    DeleteSpan(ta, a, b);
  }

  /** The tail of Backspace: one edit transaction deleting [a, b), then the cursor moves to a. */
  method DeleteSpan(ta: TextArea, a: int, b: int)
    requires ta.Valid() && ta.edit.None? && !ta.selectionOn
    requires 0 <= a < b <= |ta.str|
    modifies ta`edit, ta`history, ta`str, ta`drawerStr, ta`cursorIndex, ta`selectionIndex, ta`selectionOn, ta`offsetY
    ensures ta.Valid()
    ensures DeletedSpan(ta, a, b)
  {
    ta.EditOpen();
    ta.EditDelete(a, b);
    ta.EditClose();
    ta.SetCursorIndex(a);
  }
}
