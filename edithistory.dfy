/**
  The edit transaction and undo history a text area delegates to
  (tautil.EditHistoryEdit and tautil.EditHistory). Their implementation is
  not part of this model; what is modelled is their interface as the text
  area uses it: a transaction is opened on a baseline string, insertions and
  deletions change its running string, and closing it yields the final string,
  a record of the change and whether anything changed. The history keeps the
  records with bounded depth and replays them for undo and redo. A record is
  kept as the pair of strings before and after the transaction.
 */
module EditHistory {
  import opened Utf8

  /** Depth of the history a text area creates (NewEditHistory(40)). */
  const MaxDepth := 40

  /** An open transaction: the string it started from and its running string. */
  datatype Edit = Edit(baseline: seq<Byte>, str: seq<Byte>)

  /** One committed transaction. */
  datatype Record = Record(before: seq<Byte>, after: seq<Byte>)

  /** What closing a transaction reports: final string, record, and whether it changed anything. */
  datatype Closed = Closed(str: seq<Byte>, record: Record, ok: bool)

  /** NewEditHistoryEdit: a transaction on s; closed at once it hands s back and reports no change. */
  function Open(s: seq<Byte>): (e: Edit)
    ensures Close(e).str == s && !Close(e).ok
  {
    Edit(s, s)
  }

  /** Insert text at index of the running string. */
  function Insert(e: Edit, index: int, text: seq<Byte>): (r: Edit)
    requires 0 <= index <= |e.str|
    ensures r.baseline == e.baseline
    ensures |r.str| == |e.str| + |text|
    ensures r.str[..index] == e.str[..index]
    ensures r.str[index..index + |text|] == text
    ensures r.str[index + |text|..] == e.str[index..]
  {
    Edit(e.baseline, e.str[..index] + text + e.str[index..])
  }

  /** Remove the bytes [i, j) of the running string. */
  function Delete(e: Edit, i: int, j: int): (r: Edit)
    requires 0 <= i <= j <= |e.str|
    ensures r.baseline == e.baseline
    ensures |r.str| == |e.str| - (j - i)
    ensures r.str[..i] == e.str[..i]
    ensures r.str[i..] == e.str[j..]
  {
    Edit(e.baseline, e.str[..i] + e.str[j..])
  }

  /** Deleting a span and inserting the deleted text back restores the running string. */
  lemma DeleteInsertRoundTrip(e: Edit, i: int, j: int)
    requires 0 <= i <= j <= |e.str|
    ensures Insert(Delete(e, i, j), i, e.str[i..j]) == e
  {
    var d := Delete(e, i, j);
    assert d.str[..i] + e.str[i..j] + d.str[i..] == e.str;
  }

  /** Close a transaction; it reports a change exactly when the string differs from the baseline. */
  function Close(e: Edit): (c: Closed)
    ensures c.str == e.str && c.record == Record(e.baseline, e.str)
    ensures c.ok <==> e.str != e.baseline
  {
    Closed(e.str, Record(e.baseline, e.str), e.str != e.baseline)
  }

  /**
    The index at which two strings start to differ: the length of their
    longest common prefix. Undo and redo report it as the cursor position.
   */
  function ChangeIndex(a: seq<Byte>, b: seq<Byte>): (k: nat)
    ensures k <= |a| && k <= |b|
    ensures a[..k] == b[..k]
    ensures k < |a| && k < |b| ==> a[k] != b[k]
  {
    if a == [] || b == [] || a[0] != b[0] then 0
    else
      var k := ChangeIndex(a[1..], b[1..]);
      assert a[..k + 1] == [a[0]] + a[1..][..k];
      assert b[..k + 1] == [b[0]] + b[1..][..k];
      k + 1
  }

  /**
    The history: committed records in order (the last one is undone first)
    and the undone records (the first one is redone first).
   */
  datatype History = History(done: seq<Record>, undone: seq<Record>) {

    /** The depth bound covers the undone records too, as they stay in the list. */
    predicate Valid() {
      |done| + |undone| <= MaxDepth
    }

    /**
      PushEdit: drops every undone record, appends r, and evicts the oldest
      record when the history is full.
     */
    function Push(r: Record): (h: History)
      requires Valid()
      ensures h.Valid() && h.undone == []
      ensures |done| < MaxDepth ==> h.done == done + [r]
      ensures |done| == MaxDepth ==> h.done == done[1..] + [r]
    {
      var all := done + [r];
      if |all| > MaxDepth then History(all[1..], []) else History(all, [])
    }

    /**
      PopUndo: at the oldest record it reports ok = false and changes
      nothing; otherwise it moves the newest committed record to the front of
      the undone ones and returns the string from before it.
     */
    function PopUndo(cur: seq<Byte>): (r: Replay)
      requires Valid()
      ensures r.history.Valid()
      ensures r.ok <==> done != []
      ensures !r.ok ==> r.history == this && r.str == cur
      ensures r.ok ==> r.str == done[|done| - 1].before
      ensures r.ok ==> r.history.done + [done[|done| - 1]] == done
      ensures r.ok ==> r.history.undone == [done[|done| - 1]] + undone
    {
      if done == [] then Replay(this, cur, 0, false)
      else
        var rec := done[|done| - 1];
        Replay(History(done[..|done| - 1], [rec] + undone), rec.before, ChangeIndex(rec.before, rec.after), true)
    }

    /**
      UnpopRedo: at the newest record it reports ok = false and changes
      nothing; otherwise it moves the first undone record back to the
      committed ones and returns the string from after it.
     */
    function UnpopRedo(cur: seq<Byte>): (r: Replay)
      requires Valid()
      ensures r.history.Valid()
      ensures r.ok <==> undone != []
      ensures !r.ok ==> r.history == this && r.str == cur
      ensures r.ok ==> r.str == undone[0].after
      ensures r.ok ==> r.history.done == done + [undone[0]]
      ensures r.ok ==> [undone[0]] + r.history.undone == undone
    {
      if undone == [] then Replay(this, cur, 0, false)
      else
        var rec := undone[0];
        Replay(History(done + [rec], undone[1..]), rec.after, ChangeIndex(rec.before, rec.after), true)
    }
  }

  /** ClearQ: a history with nothing to undo and nothing to redo, whatever the current string. */
  function Empty(): (h: History)
    ensures h.Valid()
    ensures forall cur :: !h.PopUndo(cur).ok && !h.UnpopRedo(cur).ok
  {
    History([], [])
  }

  /** What an undo or redo reports: new history, string, cursor index, ok. */
  datatype Replay = Replay(history: History, str: seq<Byte>, index: int, ok: bool)

  /** n undos in a row, each applied to the string the previous one returned. */
  function Undos(h: History, cur: seq<Byte>, n: nat): Replay
    requires h.Valid()
    ensures Undos(h, cur, n).history.Valid()
  {
    if n == 0 then Replay(h, cur, 0, true)
    else
      var r := Undos(h, cur, n - 1);
      r.history.PopUndo(r.str)
  }

  /** n redos in a row. */
  function Redos(h: History, cur: seq<Byte>, n: nat): Replay
    requires h.Valid()
    ensures Redos(h, cur, n).history.Valid()
  {
    if n == 0 then Replay(h, cur, 0, true)
    else
      var r := Redos(h, cur, n - 1);
      r.history.UnpopRedo(r.str)
  }

  /** n undos move the newest n committed records, in order, to the front of the undone ones. */
  lemma {:induction false} UndosMoveRecords(h: History, cur: seq<Byte>, n: nat)
    requires h.Valid() && n <= |h.done|
    ensures var r := Undos(h, cur, n);
      r.history == History(h.done[..|h.done| - n], h.done[|h.done| - n..] + h.undone)
    ensures n > 0 ==> Undos(h, cur, n).str == h.done[|h.done| - n].before
  {
    if n > 0 {
      UndosMoveRecords(h, cur, n - 1);
      var m := |h.done|;
      assert h.done[..m - (n - 1)][..m - n] == h.done[..m - n];
      assert [h.done[m - n]] + h.done[m - (n - 1)..] == h.done[m - n..];
    }
  }

  /** n redos move the first n undone records, in order, back to the committed ones. */
  lemma {:induction false} RedosMoveRecords(h: History, cur: seq<Byte>, n: nat)
    requires h.Valid() && n <= |h.undone|
    ensures var r := Redos(h, cur, n);
      r.history == History(h.done + h.undone[..n], h.undone[n..])
    ensures n > 0 ==> Redos(h, cur, n).str == h.undone[n - 1].after
  {
    if n > 0 {
      RedosMoveRecords(h, cur, n - 1);
      assert h.undone[..n - 1] + [h.undone[n - 1]] == h.undone[..n];
      assert h.undone[n - 1..][1..] == h.undone[n..];
    }
  }

  /**
    Undoing n committed records and then redoing n restores the history and
    leaves the string from after the newest record.
   */
  lemma UndoThenRedo(h: History, cur: seq<Byte>, n: nat)
    requires h.Valid() && 0 < n <= |h.done|
    ensures var u := Undos(h, cur, n);
      var r := Redos(u.history, u.str, n);
      r.history == h && r.str == h.done[|h.done| - 1].after
  {
    var m := |h.done|;
    UndosMoveRecords(h, cur, n);
    var u := Undos(h, cur, n);
    RedosMoveRecords(u.history, u.str, n);
    assert h.done[..m - n] + h.done[m - n..] == h.done;
    assert (h.done[m - n..] + h.undone)[..n] == h.done[m - n..];
    assert (h.done[m - n..] + h.undone)[n..] == h.undone;
    assert (h.done[m - n..] + h.undone)[n - 1] == h.done[m - 1];
  }
}
