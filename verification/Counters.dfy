/** The 32-bit request counters and their wraparound comparison. */
module Counters {

  const MODULUS := 0x1_0000_0000
  const UINT32_MAX := 0xFFFF_FFFF
  const HALF := 0x8000_0000

  type Uint32 = x: int | 0 <= x < MODULUS

  /** The 32-bit image of an unbounded counter. */
  function Low(n: int): Uint32 {
    n % MODULUS
  }

  function Sub32(a: Uint32, b: Uint32): Uint32 {
    (a - b) % MODULUS
  }

  function CmpCounters(a: Uint32, b: Uint32): int {
    if a == b then 0
    else if Sub32(a, b) < UINT32_MAX / 2 then 1
    else -1
  }

  /** The order of two 32-bit serial numbers in section 3.2 of RFC 1982. */
  predicate SerialGreater(a: Uint32, b: Uint32) {
    (a < b && b - a > HALF) || (a > b && a - b < HALF)
  }

  /** Subtracting the images is taking the image of the difference. */
  lemma LowOfDifference(p: int, c: int)
    ensures Sub32(Low(p), Low(c)) == Low(p - c)
  {
    var k := p / MODULUS - c / MODULUS;
    assert p - c == k * MODULUS + (Low(p) - Low(c));
  }

  /** For all unbounded counters, what the comparison decides: only the distance modulo 2^32. */
  lemma CmpByDistance(p: int, c: int)
    ensures CmpCounters(Low(p), Low(c)) > 0 <==> 1 <= Low(p - c) <= HALF - 2
    ensures CmpCounters(Low(p), Low(c)) == 0 <==> Low(p - c) == 0
  {
    LowOfDifference(p, c);
  }

  /** Inside its window the comparison orders the unbounded counters correctly. */
  lemma CmpInWindow(p: int, c: int)
    requires -(HALF + 1) <= p - c <= HALF - 2
    ensures CmpCounters(Low(p), Low(c)) > 0 <==> p > c
    ensures CmpCounters(Low(p), Low(c)) == 0 <==> p == c
    ensures CmpCounters(Low(p), Low(c)) < 0 <==> p < c
  {
    CmpByDistance(p, c);
  }

  /** The window cannot be widened at either end: one step further the verdict is wrong. */
  lemma WindowIsTight(c: int)
    ensures CmpCounters(Low(c + HALF - 1), Low(c)) < 0
    ensures CmpCounters(Low(c - HALF - 2), Low(c)) > 0
  {
    CmpByDistance(c + HALF - 1, c);
    CmpByDistance(c - HALF - 2, c);
  }

  /** Compared with RFC 1982 the verdict "greater" is missing at exactly one distance, 2^31 - 1. */
  lemma CmpAgainstRfc1982(a: Uint32, b: Uint32)
    ensures CmpCounters(a, b) > 0 <==> SerialGreater(a, b) && Sub32(a, b) != HALF - 1
  {
    if a >= b {
      assert Sub32(a, b) == a - b;
    } else {
      assert Sub32(a, b) == a - b + MODULUS;
    }
  }
}
