/**
  The parts of golang.org/x/image/math/fixed that the text area and the
  loopers use. An Int26_6 is an integer counted in 1/64 units; it is modelled
  as an unbounded `int` (the source's 32-bit width is not modelled).
 */
module Fixed {

  /** Number of fractional units in one whole unit of an Int26_6. */
  const Unit := 64

  /** fixed.I: the Int26_6 holding the whole number n (n << 6). */
  function I(n: int): (x: int)
    ensures Floor(x) == n
  {
    n * Unit
  }

  /**
    Int26_6.Floor: an arithmetic shift right by 6, i.e. the greatest whole
    number not above x / 64, also for negative x.
   */
  function Floor(x: int): (r: int)
    ensures r * Unit <= x < r * Unit + Unit
  {
    // Dafny's division is Euclidean, which for the positive divisor 64 is
    // floor division, exactly what the arithmetic shift computes.
    x / Unit
  }

  /** Go's integer division `a / 2`, which truncates toward zero. */
  function Half(a: int): (r: int)
    ensures a >= 0 ==> 0 <= a - 2 * r <= 1
    ensures a < 0 ==> -1 <= a - 2 * r <= 0
  {
    if a >= 0 then a / 2 else -((-a) / 2)
  }
}
