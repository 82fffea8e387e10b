/**
  The early-exit stage of the layout pipeline (EarlyExitLooper of package
  loopers). The outer looper's pass is modelled as a sequence of steps, each
  carrying the pen's top Y (an Int26_6) at that step; the inner callback is a
  function from the step number to the result it returns, standing for
  whatever drawing or measuring it does.
 */
module Loopers {
  import opened Fixed

  /** The pen's top in whole pixels, in window coordinates: bounds.Min.Y + floor(penMinY). */
  function PenTop(boundsMinY: int, penMinY: int): (y: int)
    // the whole-pixel row, below the bounds' top, that holds the pen
    ensures (y - boundsMinY) * Unit <= penMinY < (y - boundsMinY + 1) * Unit
  {
    boundsMinY + Floor(penMinY)
  }

  /** The early-exit test: the pen's top is strictly below the bounds' bottom edge. */
  function BeyondBounds(boundsMinY: int, boundsMaxY: int, penMinY: int): (beyond: bool)
    // in 26.6 terms: the pen is at or below the first pixel row after the bounds' bottom row
    ensures beyond <==> penMinY >= I(boundsMaxY - boundsMinY + 1)
  {
    PenTop(boundsMinY, penMinY) > boundsMaxY
  }

  /** The pen positions of a pass only move down. */
  predicate Descending(pens: seq<int>) {
    forall i, j :: 0 <= i < j < |pens| ==> pens[i] <= pens[j]
  }

  /**
    EarlyExitLooper.Loop: the outer looper runs its steps in order while the
    callback it was given returns true; that callback returns false, without
    calling fn, at a step whose pen top lies beyond the bounds, and otherwise
    returns what fn returns. The result lists the steps on which fn ran.
   */
  method Loop(pens: seq<int>, boundsMinY: int, boundsMaxY: int, fn: nat -> bool) returns (calls: seq<nat>)
    // fn runs on a prefix of the steps
    ensures |calls| <= |pens|
    ensures forall i :: 0 <= i < |calls| ==> calls[i] == i
    // never beyond the bounds; a pen top on the bottom edge itself still runs
    ensures forall i :: 0 <= i < |calls| ==> PenTop(boundsMinY, pens[i]) <= boundsMaxY
    // every call but the last asked to go on
    ensures forall i :: 0 <= i < |calls| - 1 ==> fn(i)
    // the pass ended early only because fn said stop or the next step was beyond the bounds
    ensures |calls| < |pens| ==>
      (|calls| > 0 && !fn(|calls| - 1)) || BeyondBounds(boundsMinY, boundsMaxY, pens[|calls|])
    // over a downward pass with fn never stopping, fn runs on exactly the steps within the bounds
    ensures Descending(pens) && (forall i :: 0 <= i < |pens| ==> fn(i)) ==>
      forall i :: 0 <= i < |pens| ==> (i < |calls| <==> !BeyondBounds(boundsMinY, boundsMaxY, pens[i]))
  {
    calls := [];
    var k := 0;
    while k < |pens|
      invariant 0 <= k <= |pens|
      invariant |calls| == k
      invariant forall i :: 0 <= i < k ==> calls[i] == i
      invariant forall i :: 0 <= i < k ==> PenTop(boundsMinY, pens[i]) <= boundsMaxY && fn(i)
    {
      // the callback EarlyExitLooper passes to the outer looper
      var pb := pens[k];
      var y0 := boundsMinY + Floor(pb);
      if y0 > boundsMaxY {
        break;
      }
      calls := calls + [k];
      var more := fn(k);
      if !more {
        break;
      }
      k := k + 1;
    }
    if Descending(pens) && k < |pens| && |calls| == k {
      // stopped by the bounds: every later step is beyond them too
      forall i | k <= i < |pens|
        ensures BeyondBounds(boundsMinY, boundsMaxY, pens[i])
      {
        FloorMonotone(pens[k], pens[i]);
      }
    }
  }

  /** Floor keeps the order of its arguments. */
  lemma FloorMonotone(x: int, y: int)
    requires x <= y
    ensures Floor(x) <= Floor(y)
  {
  }
}
