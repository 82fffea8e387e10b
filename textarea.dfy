/**
  The text area's buffer, cursor, selection and scroll state (type TextArea
  of package ui). Painting, events and the input handlers are not modelled;
  the layout drawer it measures with is given at construction as functions.
 */
module Ui {
  import opened Wrappers
  import opened Fixed
  import opened Utf8
  import opened EditHistory

  /** The scroll offset SetOffsetY keeps: v limited to [0, h]. */
  function ClampOffset(v: int, h: int): (r: int)
    requires h >= 0
    ensures 0 <= r <= h
    ensures 0 <= v <= h ==> r == v
    ensures v < 0 ==> r == 0
    ensures v > h ==> r == h
  {
    var v := if v < 0 then 0 else v;
    if v > h then h else v
  }

  /**
    makeIndexVisible's choice, for a viewport at offset y0 that is dy pixels
    high and a line at a0 that is lh high: None when the line is already
    wholly visible, otherwise the offset it asks SetOffsetY for.
   */
  function ScrollTarget(y0: int, dy: int, a0: int, lh: int): (r: Option<int>)
    // no scroll exactly when the line lies wholly within the viewport
    ensures r.None? <==> (y0 <= a0 && a0 + lh <= y0 + I(dy))
    // hidden in part above: the line's top goes to the viewport's top
    ensures r.Some? && a0 <= y0 <= a0 + lh ==> r.value == a0
    // else hidden in part below: the line's bottom goes to the viewport's bottom
    ensures r.Some? && !(a0 <= y0 <= a0 + lh) && a0 <= y0 + I(dy) <= a0 + lh ==> r.value + I(dy) == a0 + lh
    // else out of view: the line's top goes to half the viewport
    ensures r.Some? && !(a0 <= y0 <= a0 + lh) && !(a0 <= y0 + I(dy) <= a0 + lh) ==> r.value + I(Half(dy)) == a0
  {
    var y1 := y0 + I(dy);
    var a1 := a0 + lh;
    if a0 >= y0 && a1 <= y1 then None
    // partially visible at the top: align the line with the top
    else if y0 >= a0 && y0 <= a1 then Some(a0)
    // partially visible at the bottom: align the line with the bottom
    else if y1 >= a0 && y1 <= a1 then Some(a0 - I(dy) + lh)
    // out of view: put the line at half the viewport
    else Some(a0 - I(Half(dy)))
  }

  /** The offset after makeIndexVisible, for content of height h. */
  function OffsetAfterScroll(y0: int, dy: int, a0: int, lh: int, h: int): int
    requires h >= 0
  {
    match ScrollTarget(y0, dy, a0, lh)
    case None => y0
    case Some(t) => ClampOffset(t, h)
  }

  /**
    makeIndexVisible does what its name says: when the line fits in the
    part of the viewport below its middle and starts within the content,
    the whole line lies in the viewport afterwards.
   */
  lemma IndexVisibleAfterScroll(y0: int, dy: int, a0: int, lh: int, h: int)
    requires 0 <= dy && 0 <= lh <= I(dy - Half(dy))
    requires 0 <= a0 <= h
    ensures var y := OffsetAfterScroll(y0, dy, a0, lh, h);
      y <= a0 && a0 + lh <= y + I(dy)
  {
  }

  class TextArea {
    // The layout drawer (hsdrawer), measured with the area's width over the
    // string it was last given (drawerStr).
    /** drawer.LineHeight() */
    const lineHeight: int
    /** drawer.Height() once the drawer has measured the given string */
    const measureHeight: seq<Byte> -> int
    /** drawer.GetPoint(i).Y for the given string */
    const pointY: (seq<Byte>, int) -> int
    /** drawer.GetIndex(p) for the given string and point (x, y) */
    const pointIndex: (seq<Byte>, int, int) -> int
    // The area's bounds (C.Bounds).
    const boundsMinX: int
    const boundsMinY: int
    const boundsDy: int

    var str: seq<Byte>
    /** drawer.Str: the string the drawer last measured, which is what StrHeight and the drawer's points read */
    var drawerStr: seq<Byte>
    var cursorIndex: int
    var selectionOn: bool
    /** the selection runs from this index to the cursor */
    var selectionIndex: int
    var offsetY: int
    var edit: Option<Edit>
    var history: History

    /** What holds of every state, even between the steps of a setter. */
    predicate Sound()
      reads this
    {
      lineHeight >= 0 && 0 <= cursorIndex && 0 <= selectionIndex && 0 <= offsetY && history.Valid()
    }

    /** The object invariant: a selection that is on is never empty. */
    predicate Valid()
      reads this
    {
      Sound() && (selectionOn ==> SomethingSelected())
    }

    /** NewTextArea: empty string, cursor and offset at 0, no selection, a history of depth 40. */
    constructor (lineHeight: int, measureHeight: seq<Byte> -> int, pointY: (seq<Byte>, int) -> int,
                 pointIndex: (seq<Byte>, int, int) -> int, boundsMinX: int, boundsMinY: int, boundsDy: int)
      requires lineHeight >= 0
      ensures Valid()
      ensures this.lineHeight == lineHeight && this.measureHeight == measureHeight
      ensures this.pointY == pointY && this.pointIndex == pointIndex
      ensures this.boundsMinX == boundsMinX && this.boundsMinY == boundsMinY && this.boundsDy == boundsDy
      ensures str == [] && drawerStr == [] && cursorIndex == 0 && !selectionOn && selectionIndex == 0 && offsetY == 0
      ensures edit == None && history == Empty()
    {
      this.lineHeight := lineHeight;
      this.measureHeight := measureHeight;
      this.pointY := pointY;
      this.pointIndex := pointIndex;
      this.boundsMinX := boundsMinX;
      this.boundsMinY := boundsMinY;
      this.boundsDy := boundsDy;
      str := [];
      drawerStr := [];
      cursorIndex := 0;
      selectionOn := false;
      selectionIndex := 0;
      offsetY := 0;
      edit := None;
      history := Empty();
    }

    /** The text as seen by everything else: the running string of an open edit, else str. */
    function Str(): (s: seq<Byte>)
      reads this
      ensures edit.Some? ==> s == edit.value.str
      ensures edit.None? ==> s == str
    {
      if edit.Some? then edit.value.str else str
    }

    /** validIndex: v clamped into [0, len(Str())]. */
    function ValidIndex(v: int): (r: int)
      reads this
      ensures 0 <= r <= |Str()|
      ensures 0 <= v <= |Str()| ==> r == v
      ensures v < 0 ==> r == 0
      ensures v > |Str()| ==> r == |Str()|
    {
      if v < 0 then 0 else if v > |Str()| then |Str()| else v
    }

    /** somethingSelected: the span between anchor and cursor holds at least one byte. */
    function SomethingSelected(): (some: bool)
      reads this
      ensures some <==> (if selectionIndex <= cursorIndex then cursorIndex - selectionIndex else selectionIndex - cursorIndex) >= 1
    {
      selectionIndex != cursorIndex
    }

    /** SelectionOn: under the invariant it is exactly the selection flag. */
    function SelectionOn(): (on: bool)
      reads this
      ensures Valid() ==> (on <==> selectionOn)
      ensures on ==> selectionIndex != cursorIndex
    {
      selectionOn && SomethingSelected()
    }

    /** The content height on the drawer's layout of d: the measured height, but never less than one line. */
    function HeightOf(d: seq<Byte>): (h: int)
      reads this
      ensures h >= lineHeight && h >= measureHeight(d)
      ensures h == lineHeight || h == measureHeight(d)
    {
      var h := measureHeight(d);
      if h < lineHeight then lineHeight else h
    }

    /** StrHeight: the height the drawer measured for the string it was last given, at least one line. */
    function StrHeight(): (h: int)
      reads this
      ensures h >= lineHeight && h >= measureHeight(drawerStr)
      ensures h == lineHeight || h == measureHeight(drawerStr)
    {
      HeightOf(drawerStr)
    }

    /** The offset makeIndexVisible(index) leaves when it starts from offset y0 with the drawer holding d. */
    function OffsetToShow(d: seq<Byte>, y0: int, index: int): int
      reads this
      requires lineHeight >= 0
    {
      OffsetAfterScroll(y0, boundsDy, pointY(d, index), lineHeight, HeightOf(d))
    }

    /**
      The offset after SetCursorIndex moves the cursor from `from` to `to`,
      starting from offset y0 with the drawer holding d.
     */
    function ScrollAfterMove(d: seq<Byte>, y0: int, from: int, to: int): int
      reads this
      requires lineHeight >= 0
    {
      if to != from then OffsetToShow(d, y0, to) else y0
    }

    /**
      PointIndexInsideSelection: the index under the window point (px, py)
      lies in the half-open span between selection index and cursor. The
      selection flag is not consulted.
     */
    function PointIndexInsideSelection(px: int, py: int): (inside: bool)
      reads this
      ensures var i := pointIndex(drawerStr, I(px - boundsMinX), I(py - boundsMinY) + offsetY);
        inside <==> (selectionIndex <= i < cursorIndex || cursorIndex <= i < selectionIndex)
      ensures inside ==> SomethingSelected()
    {
      var i := pointIndex(drawerStr, I(px - boundsMinX), I(py - boundsMinY) + offsetY);
      var s, e := if selectionIndex > cursorIndex then cursorIndex else selectionIndex,
                  if selectionIndex > cursorIndex then selectionIndex else cursorIndex;
      i >= s && i < e
    }

    /**
      What setStr(s) and SetRawStr(s) do: nothing when s is already the
      string; otherwise str becomes s and the cursor, then the selection
      index, are clamped into the new range, and only then is the drawer
      given s. So the cursor move scrolls as SetCursorIndex does, but on the
      layout of the drawer's previous string.
     */
    twostate predicate StrSet(s: seq<Byte>)
      reads this
      requires lineHeight >= 0
    {
      str == s &&
      if s == old(str) then
        cursorIndex == old(cursorIndex) && selectionIndex == old(selectionIndex) &&
        selectionOn == old(selectionOn) && offsetY == old(offsetY) && drawerStr == old(drawerStr)
      else
        cursorIndex == ValidIndex(old(cursorIndex)) &&
        selectionIndex == ValidIndex(old(selectionIndex)) &&
        selectionOn == (old(selectionOn) && SomethingSelected()) &&
        offsetY == ScrollAfterMove(old(drawerStr), old(offsetY), old(cursorIndex), cursorIndex) &&
        drawerStr == s
    }

    method SetSelectionOn(v: bool)
      requires Sound() && (v ==> SomethingSelected())
      modifies this`selectionOn
      ensures Valid() && selectionOn == v
    {
      if v != selectionOn {
        selectionOn := v;
      }
    }

    method SetSelectionOff()
      requires Sound()
      modifies this`selectionOn
      ensures Valid() && !selectionOn && !SelectionOn()
    {
      SetSelectionOn(false);
    }

    /** validateSelection: an empty selection is switched off, anything else is kept. */
    method ValidateSelection()
      requires Sound()
      modifies this`selectionOn
      ensures Valid()
      ensures selectionOn == (old(selectionOn) && SomethingSelected())
    {
      if !SomethingSelected() {
        SetSelectionOff();
      }
    }

    /** SetOffsetY: the offset is kept within the content, never below one line high. */
    method SetOffsetY(v: int)
      requires Sound()
      modifies this`offsetY
      ensures Sound()
      ensures 0 <= offsetY <= StrHeight() && StrHeight() >= lineHeight
      ensures offsetY == ClampOffset(v, StrHeight())
    {
      var w := v;
      if w < 0 {
        w := 0;
      }
      if w > StrHeight() {
        w := StrHeight();
      }
      if w != offsetY {
        offsetY := w;
      }
    }

    method MakeIndexVisible(index: int)
      requires Sound()
      modifies this`offsetY
      ensures Sound()
      ensures offsetY == old(OffsetToShow(drawerStr, offsetY, index))
    {
      var y0 := offsetY;
      var y1 := y0 + I(boundsDy);
      var a0 := pointY(drawerStr, index);
      var a1 := a0 + lineHeight;
      if a0 >= y0 && a1 <= y1 {
        return;
      }
      if y0 >= a0 && y0 <= a1 {
        SetOffsetY(a0);
        return;
      }
      if y1 >= a0 && y1 <= a1 {
        var sy := I(boundsDy);
        SetOffsetY(a0 - sy + lineHeight);
        return;
      }
      var half := I(Half(boundsDy));
      SetOffsetY(a0 - half);
    }

    /** SetOffsetIndex: scrolls so that the line of index i is at the top, as far as the content allows. */
    method SetOffsetIndex(i: int)
      requires Sound()
      modifies this`offsetY
      ensures Sound()
      ensures offsetY == ClampOffset(pointY(drawerStr, i), StrHeight())
    {
      var y := pointY(drawerStr, i);
      SetOffsetY(y);
    }

    /** MakeIndexVisibleAtCenter: scrolls the line of index to half the viewport, as far as the content allows. */
    method MakeIndexVisibleAtCenter(index: int)
      requires Sound()
      modifies this`offsetY
      ensures Sound()
      ensures offsetY == ClampOffset(pointY(drawerStr, index) - I(Half(boundsDy)), StrHeight())
    {
      var p0 := pointY(drawerStr, index);
      var half := I(Half(boundsDy));
      SetOffsetY(p0 - half);
    }

    /**
      SetCursorIndex: the cursor becomes ValidIndex(v); if that is where it
      already was, nothing changes; otherwise an empty selection is switched
      off and the cursor's line is scrolled into view.
     */
    method SetCursorIndex(v: int)
      requires Valid()
      modifies this`cursorIndex, this`selectionOn, this`offsetY
      ensures Valid()
      ensures cursorIndex == old(ValidIndex(v))
      ensures old(ValidIndex(v)) == old(cursorIndex) ==> unchanged(this)
      ensures selectionOn == (old(selectionOn) && SomethingSelected())
      ensures offsetY == old(ScrollAfterMove(drawerStr, offsetY, cursorIndex, ValidIndex(v)))
    {
      var index := ValidIndex(v);
      if index != cursorIndex {
        cursorIndex := index;
        ValidateSelection();
        MakeIndexVisible(index);
      }
    }

    /** SetSelectionIndex: the anchor becomes ValidIndex(v); an empty selection is switched off. */
    method SetSelectionIndex(v: int)
      requires Valid()
      modifies this`selectionIndex, this`selectionOn
      ensures Valid()
      ensures selectionIndex == old(ValidIndex(v))
      ensures old(ValidIndex(v)) == old(selectionIndex) ==> unchanged(this)
      ensures selectionOn == (old(selectionOn) && SomethingSelected())
    {
      var index := ValidIndex(v);
      if index != selectionIndex {
        selectionIndex := index;
        ValidateSelection();
      }
    }

    /** SetSelection: anchor and cursor are set, and the selection is on exactly when they differ. */
    method SetSelection(si: int, ci: int)
      requires Valid()
      modifies this`cursorIndex, this`selectionIndex, this`selectionOn, this`offsetY
      ensures Valid()
      ensures selectionIndex == old(ValidIndex(si)) && cursorIndex == old(ValidIndex(ci))
      ensures SelectionOn() <==> old(ValidIndex(si) != ValidIndex(ci))
      ensures selectionOn == SelectionOn()
      ensures offsetY == old(ScrollAfterMove(drawerStr, offsetY, cursorIndex, ValidIndex(ci)))
    {
      SetSelectionIndex(si);
      SetCursorIndex(ci);
      SetSelectionOn(SomethingSelected());
    }

    /** SetRawStr: replaces the string without events, undo records or clears. */
    method SetRawStr(s: seq<Byte>)
      requires Valid()
      modifies this`str, this`drawerStr, this`cursorIndex, this`selectionIndex, this`selectionOn, this`offsetY
      ensures Valid() && StrSet(s)
    {
      if s == str {
        return;
      }
      str := s;
      SetCursorIndex(cursorIndex);
      SetSelectionIndex(selectionIndex);
      UpdateStringCache();
    }

    /** updateStringCache: the drawer is given the current string (the width is fixed in this model). */
    method UpdateStringCache()
      modifies this`drawerStr
      ensures drawerStr == str
    {
      if drawerStr != str {
        drawerStr := str;
      }
    }

    /** setStr: SetRawStr followed by the set-string event. */
    method SetStr(s: seq<Byte>)
      requires Valid()
      modifies this`str, this`drawerStr, this`cursorIndex, this`selectionIndex, this`selectionOn, this`offsetY
      ensures Valid() && StrSet(s)
    {
      if s == str {
        return;
      }
      SetRawStr(s);
    }

    /** EditOpen: a second open transaction is a programming error (a panic in the source). */
    method EditOpen()
      requires edit.None?
      modifies this`edit
      ensures edit == Some(Open(old(str)))
      ensures Str() == old(Str())
    {
      edit := Some(Open(Str()));
    }

    method EditInsert(index: int, text: seq<Byte>)
      requires edit.Some? && 0 <= index <= |Str()|
      modifies this`edit
      ensures edit == Some(Insert(old(edit.value), index, text))
      ensures Str() == old(Str()[..index] + text + Str()[index..])
    {
      edit := Some(Insert(edit.value, index, text));
    }

    method EditDelete(i: int, j: int)
      requires edit.Some? && 0 <= i <= j <= |Str()|
      modifies this`edit
      ensures edit == Some(Delete(old(edit.value), i, j))
      ensures Str() == old(Str()[..i] + Str()[j..])
    {
      edit := Some(Delete(edit.value, i, j));
    }

    /**
      EditClose: the transaction is always gone afterwards. A transaction
      that changed nothing pushes no record and leaves everything else as it
      was; one that did pushes its record and sets the string.
     */
    method EditClose()
      requires Valid() && edit.Some?
      modifies this`edit, this`history, this`str, this`drawerStr, this`cursorIndex, this`selectionIndex, this`selectionOn, this`offsetY
      ensures Valid() && edit.None?
      ensures var c := Close(old(edit.value));
        if c.ok then history == old(history).Push(c.record) && StrSet(c.str)
        else (history == old(history) && str == old(str) && cursorIndex == old(cursorIndex) &&
              selectionIndex == old(selectionIndex) && selectionOn == old(selectionOn) && offsetY == old(offsetY) &&
              drawerStr == old(drawerStr))
    {
      var c := Close(edit.value);
      edit := None;
      if !c.ok {
        return;
      }
      history := history.Push(c.record);
      SetStr(c.str);
    }

    /**
      popUndo: at the oldest record nothing changes; otherwise the string
      before the newest record is restored, the cursor goes to where that
      record's change began and the selection is switched off.
     */
    method PopUndo()
      requires Valid()
      modifies this`history, this`str, this`drawerStr, this`cursorIndex, this`selectionIndex, this`selectionOn, this`offsetY
      ensures Valid()
      ensures var r := old(history.PopUndo(Str()));
        if !r.ok then unchanged(this)
        else Replayed(r)
    {
      var r := history.PopUndo(Str());
      if !r.ok {
        return;
      }
      history := r.history;
      SetStr(r.str);
      SetCursorIndex(r.index);
      SetSelectionOff();
    }

    /** unpopRedo: as popUndo, redoing the first undone record. */
    method UnpopRedo()
      requires Valid()
      modifies this`history, this`str, this`drawerStr, this`cursorIndex, this`selectionIndex, this`selectionOn, this`offsetY
      ensures Valid()
      ensures var r := old(history.UnpopRedo(Str()));
        if !r.ok then unchanged(this)
        else Replayed(r)
    {
      var r := history.UnpopRedo(Str());
      if !r.ok {
        return;
      }
      history := r.history;
      SetStr(r.str);
      SetCursorIndex(r.index);
      SetSelectionOff();
    }

    /**
      The state after a successful undo or redo r: setStr(r.str),
      SetCursorIndex(r.index), SetSelectionOff. The first cursor move is
      measured on the drawer's previous string, the second on r.str.
     */
    twostate predicate Replayed(r: Replay)
      reads this
      requires lineHeight >= 0
    {
      var moved := r.str != old(str);
      var c1 := if moved then ValidIndex(old(cursorIndex)) else old(cursorIndex);
      // setStr clamps the cursor before the drawer is given r.str
      var y1 := ScrollAfterMove(old(drawerStr), old(offsetY), old(cursorIndex), c1);
      var d1 := if moved then r.str else old(drawerStr);
      history == r.history && str == r.str && drawerStr == d1 && edit == old(edit) && !selectionOn &&
      cursorIndex == ValidIndex(r.index) &&
      selectionIndex == (if moved then ValidIndex(old(selectionIndex)) else old(selectionIndex)) &&
      offsetY == ScrollAfterMove(d1, y1, c1, cursorIndex)
    }

    /**
      SetStrClear: the string becomes str in every case and the selection is
      off. With clearPosition the cursor and the offset go to 0. With
      clearUndoQ the history is emptied; without it the replacement is made
      as one edit transaction, so that it can be undone.
     */
    method SetStrClear(s: seq<Byte>, clearPosition: bool, clearUndoQ: bool)
      requires Valid()
      requires !clearUndoQ ==> edit.None?
      modifies this`str, this`drawerStr, this`cursorIndex, this`selectionIndex, this`selectionOn, this`offsetY, this`history, this`edit
      ensures Valid()
      ensures str == s && edit == old(edit) && !selectionOn
      ensures drawerStr == if s != old(str) then s else old(drawerStr)
      ensures clearUndoQ ==> history == Empty()
      ensures !clearUndoQ ==> history == if s != old(str) then old(history).Push(Record(old(str), s)) else old(history)
      ensures selectionIndex == if s != old(str) then ValidIndex(old(selectionIndex)) else old(selectionIndex)
      ensures clearPosition ==> cursorIndex == 0 && offsetY == 0
      ensures !clearPosition ==>
        cursorIndex == (if s != old(str) then ValidIndex(old(cursorIndex)) else old(cursorIndex)) &&
        offsetY == ScrollAfterMove(old(drawerStr), old(offsetY), old(cursorIndex), cursorIndex)
    {
      SetSelectionOff();
      if clearPosition {
        SetCursorIndex(0);
        SetOffsetY(0);
      }
      if clearUndoQ {
        history := Empty();
        SetStr(s);
      } else {
        ReplaceInEdit(s);
      }
    }

    /** SetStrClear without clearUndoQ: the string is replaced by s in one transaction, so that it can be undone. */
    method ReplaceInEdit(s: seq<Byte>)
      requires Valid() && edit.None?
      modifies this`edit, this`history, this`str, this`drawerStr, this`cursorIndex, this`selectionIndex, this`selectionOn, this`offsetY
      ensures Valid() && edit.None?
      ensures history == if s != old(str) then old(history).Push(Record(old(str), s)) else old(history)
      ensures StrSet(s)
    {
      EditOpen();
      EditDelete(0, |Str()|);
      EditInsert(0, s);
      assert edit.value == Edit(old(str), s);
      EditClose();
    }
  }
}
