/**
  The part of Go's unicode/utf8 package that finding the previous rune relies
  on: how many bytes DecodeRuneInString and DecodeLastRuneInString consume.
  The decoded rune value itself is not modelled. EncodeRune is given as the
  reference against which decoding is checked.
 */
module Utf8 {

  /** A byte of a Go string. */
  type Byte = b: int | 0 <= b < 0x100

  const RuneSelf := 0x80
  const UTFMax := 4
  const MaxRune := 0x10FFFF
  const RuneError := 0xFFFD
  const SurrogateMin := 0xD800
  const SurrogateMax := 0xDFFF

  /** A byte of the form 10xxxxxx, which never begins an encoding. */
  predicate IsContinuation(b: Byte) {
    0x80 <= b < 0xC0
  }

  /** utf8.RuneStart */
  predicate RuneStart(b: Byte) {
    !IsContinuation(b)
  }

  /** Length announced by a leading byte; 1 for ASCII and for bytes that cannot lead. */
  function LeadSize(b: Byte): (n: nat)
    ensures 1 <= n <= UTFMax
  {
    if 0xC2 <= b <= 0xDF then 2
    else if 0xE0 <= b <= 0xEF then 3
    else if 0xF0 <= b <= 0xF4 then 4
    else 1
  }

  /** Lowest second byte accepted after leading byte b (rejects overlong forms). */
  function AcceptLo(b: Byte): Byte {
    if b == 0xE0 then 0xA0 else if b == 0xF0 then 0x90 else 0x80
  }

  /** Highest second byte accepted after leading byte b (rejects surrogates and runes past MaxRune). */
  function AcceptHi(b: Byte): Byte {
    if b == 0xED then 0x9F else if b == 0xF4 then 0x8F else 0xBF
  }

  /**
    Number of bytes utf8.DecodeRuneInString consumes from a non-empty string:
    the length of a well-formed encoding at its front, or 1 (RuneError, 1)
    when the front is ASCII or malformed.
   */
  function DecodeRuneSize(s: seq<Byte>): (n: nat)
    requires |s| > 0
    ensures 1 <= n <= |s| && n <= LeadSize(s[0])
    ensures n > 1 ==> n == LeadSize(s[0]) && AcceptLo(s[0]) <= s[1] <= AcceptHi(s[0])
    ensures forall k :: 1 < k < n ==> IsContinuation(s[k])
  {
    var sz := LeadSize(s[0]);
    if sz == 1 || |s| < sz then 1
    else if !(AcceptLo(s[0]) <= s[1] <= AcceptHi(s[0])) then 1
    else if sz == 2 then 2
    else if !IsContinuation(s[2]) then 1
    else if sz == 3 then 3
    else if !IsContinuation(s[3]) then 1
    else 4
  }

  /**
    The backward scan of DecodeLastRuneInString: from position i down to lim,
    the first byte that can start an encoding, or lim - 1 if there is none.
   */
  function ScanBack(s: seq<Byte>, i: int, lim: nat): (j: int)
    requires -1 <= i < |s| && lim <= i + 1
    ensures lim - 1 <= j <= i
    ensures j >= lim ==> RuneStart(s[j])
    ensures forall k :: j < k <= i ==> IsContinuation(s[k])
    decreases i + 1 - lim
  {
    if i < lim then i
    else if RuneStart(s[i]) then i
    else ScanBack(s, i - 1, lim)
  }

  /**
    Number of bytes utf8.DecodeLastRuneInString consumes from the end of s:
    0 only for the empty string, otherwise between 1 and UTFMax.
   */
  function DecodeLastRuneSize(s: seq<Byte>): (n: nat)
    ensures n <= |s| && n <= UTFMax
    ensures n == 0 <==> |s| == 0
    ensures |s| > 0 && s[|s| - 1] < RuneSelf ==> n == 1
  {
    if |s| == 0 then 0
    else if s[|s| - 1] < RuneSelf then 1
    else
      var end := |s|;
      var lim := if end - UTFMax < 0 then 0 else end - UTFMax;
      var start := ScanBack(s, end - 2, lim);
      var start := if start < 0 then 0 else start;
      var size := DecodeRuneSize(s[start..]);
      if start + size != end then 1 else size
  }

  /** utf8.EncodeRune: invalid runes (negative, surrogate, past MaxRune) encode RuneError. */
  function EncodeRune(r: int): (e: seq<Byte>)
    ensures 1 <= |e| <= UTFMax
  {
    if 0 <= r < 0x80 then [r]
    else if 0x80 <= r < 0x800 then [0xC0 + r / 0x40, 0x80 + r % 0x40]
    else if r < 0 || r > MaxRune || SurrogateMin <= r <= SurrogateMax then EncodeThree(RuneError)
    else if r < 0x10000 then EncodeThree(r)
    else [0xF0 + r / 0x40000, 0x80 + (r / 0x1000) % 0x40, 0x80 + (r / 0x40) % 0x40, 0x80 + r % 0x40]
  }

  function EncodeThree(r: int): (e: seq<Byte>)
    requires 0x800 <= r < 0x10000
  {
    [0xE0 + r / 0x1000, 0x80 + (r / 0x40) % 0x40, 0x80 + r % 0x40]
  }

  /** Every encoding EncodeRune produces is read back whole by DecodeRuneSize. */
  lemma DecodeEncoded(r: int)
    ensures DecodeRuneSize(EncodeRune(r)) == |EncodeRune(r)|
    ensures RuneStart(EncodeRune(r)[0])
    ensures forall k :: 0 < k < |EncodeRune(r)| ==> IsContinuation(EncodeRune(r)[k])
  {
    var e := EncodeRune(r);
    if 0x800 <= r < 0x10000 && !(SurrogateMin <= r <= SurrogateMax) {
      if r < 0x1000 {
        assert r / 0x1000 == 0 && 0x20 <= r / 0x40 < 0x40;
      } else if 0xD000 <= r < 0xD800 {
        assert r / 0x1000 == 0xD && (r / 0x40) % 0x40 < 0x20;
      }
    } else if 0x10000 <= r <= MaxRune {
      if r < 0x40000 {
        assert r / 0x40000 == 0 && 0x10 <= r / 0x1000 < 0x40;
      } else if r >= 0x100000 {
        assert r / 0x40000 == 4 && (r / 0x1000) % 0x40 < 0x10;
      }
    }
  }

  /**
    Decoding backwards from the end of p + EncodeRune(r) consumes exactly the
    encoding of r, whatever bytes p holds.
   */
  lemma DecodeLastOfEncoded(p: seq<Byte>, r: int)
    ensures DecodeLastRuneSize(p + EncodeRune(r)) == |EncodeRune(r)|
  {
    var e := EncodeRune(r);
    var s := p + e;
    DecodeEncoded(r);
    if |e| > 1 {
      var end := |s|;
      var lim := if end - UTFMax < 0 then 0 else end - UTFMax;
      assert lim <= |p|;
      ScanBackFinds(s, end - 2, lim, |p|);
      assert s[|p|..] == e;
    }
  }

  /** The backward scan stops at the start byte b when every byte after it is a continuation. */
  lemma {:induction false} ScanBackFinds(s: seq<Byte>, i: int, lim: nat, b: nat)
    requires lim <= b <= i < |s|
    requires RuneStart(s[b])
    requires forall k :: b < k <= i ==> IsContinuation(s[k])
    ensures ScanBack(s, i, lim) == b
    decreases i
  {
    if i > b {
      ScanBackFinds(s, i - 1, lim, b);
    }
  }
}
