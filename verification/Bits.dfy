/** Bitwise operators of unsigned C integers, on natural numbers.

    `&`, `^` and `>>` are defined bit by bit; the lemmas give the arithmetic facts that
    power-of-two masks and xor-shifts rest on.  Operators that can overflow (`*`, `+`, `<<`)
    are written with an explicit modulus where they are used. */
module Bits {

  type Byte = x: int | 0 <= x < 256

  function Pow2(k: nat): (p: nat)
    ensures p >= 1
  {
    if k == 0 then 1 else 2 * Pow2(k - 1)
  }

  function And(a: nat, b: nat): nat {
    if a == 0 || b == 0 then 0
    else (if a % 2 == 1 && b % 2 == 1 then 1 else 0) + 2 * And(a / 2, b / 2)
  }

  function Xor(a: nat, b: nat): nat
    decreases a + b
  {
    if a == 0 && b == 0 then 0
    else (if a % 2 != b % 2 then 1 else 0) + 2 * Xor(a / 2, b / 2)
  }

  function Shr(x: nat, k: nat): nat
    decreases k
  {
    if k == 0 then x else Shr(x / 2, k - 1)
  }

  lemma {:induction false} Pow2Add(j: nat, k: nat)
    ensures Pow2(j + k) == Pow2(j) * Pow2(k)
  {
    if j != 0 {
      Pow2Add(j - 1, k);
      assert Pow2(j + k) == 2 * (Pow2(j - 1) * Pow2(k)) == Pow2(j) * Pow2(k);
    }
  }

  /** Halving before or after a division by a power of two. */
  lemma DivHalf(x: nat, p: nat)
    requires p >= 1
    ensures x / 2 / p == x / (2 * p)
    ensures x % (2 * p) == x % 2 + 2 * (x / 2 % p)
  {
    var q, r := x / 2 / p, x / 2 % p;
    assert x == q * (2 * p) + (2 * r + x % 2);
    DivModUnique(x, 2 * p, q, 2 * r + x % 2);
  }

  lemma DivModUnique(x: nat, d: nat, q: nat, r: nat)
    requires r < d && x == q * d + r
    ensures x / d == q && x % d == r
  {
    var k: int := x / d - q;
    assert k * d == r - x % d;
    assert k >= 1 ==> k * d >= 1 * d;
    assert k <= -1 ==> k * d <= -1 * d;
  }

  /** `x & (2^k - 1)` is `x mod 2^k`: the bucket mask and the Bloom mask. */
  lemma {:induction false} AndMask(x: nat, k: nat)
    ensures And(x, Pow2(k) - 1) == x % Pow2(k)
  {
    if k != 0 && x != 0 {
      AndMask(x / 2, k - 1);
      DivHalf(x, Pow2(k - 1));
      assert (Pow2(k) - 1) / 2 == Pow2(k - 1) - 1;
    }
  }

  lemma Distribute(h: nat, c: nat, n: nat)
    ensures (2 * h + c) * n == h * (2 * n) + c * n
  {
  }

  lemma MulMonotone(a: nat, b: nat, c: nat)
    requires a <= b
    ensures a * c <= b * c
  {
  }

  lemma CancelLe(a: int, b: int, c: int)
    requires c >= 1 && a * c <= b * c
    ensures a <= b
  {
    var d := a - b;
    assert d * c <= 0;
    assert d >= 1 ==> d * c >= 1;
  }

  lemma CancelLt(a: int, b: int, c: int)
    requires c >= 1 && a * c < b * c
    ensures a < b
  {
    var d := a - b;
    assert d * c < 0;
    assert d >= 0 ==> d * c >= 0;
  }

  /** Doubling the modulus either keeps the remainder or adds the old modulus to it. */
  lemma ModDouble(x: nat, n: nat)
    requires n >= 1
    ensures x % (2 * n) % n == x % n
    ensures x % (2 * n) == x % n || x % (2 * n) == x % n + n
  {
    var q, r := x / n, x % n;
    assert x == q * n + r;
    var h, c := q / 2, q % 2;
    assert q == 2 * h + c && 0 <= c <= 1;
    assert x == h * (2 * n) + (c * n + r) by { Distribute(h, c, n); }
    assert c * n == if c == 0 then 0 else n;
    DivModUnique(x, 2 * n, h, c * n + r);
    DivModUnique(c * n + r, n, c, r);
  }

  lemma {:induction false} XorZero(a: nat)
    ensures Xor(a, 0) == a
  {
    if a != 0 {
      XorZero(a / 2);
    }
  }

  lemma {:induction false} XorSym(a: nat, b: nat)
    ensures Xor(a, b) == Xor(b, a)
    decreases a + b
  {
    if a != 0 || b != 0 {
      XorSym(a / 2, b / 2);
    }
  }

  /** Xor undoes itself, so it is injective in either argument. */
  lemma {:induction false} XorCancel(a: nat, b: nat)
    ensures Xor(Xor(a, b), b) == a
    decreases a + b
  {
    if a != 0 || b != 0 {
      XorCancel(a / 2, b / 2);
      var x := Xor(a, b);
      assert x / 2 == Xor(a / 2, b / 2);
      if x == 0 && b == 0 {
        XorZero(a);
      }
    }
  }

  lemma {:induction false} XorBound(a: nat, b: nat, k: nat)
    requires a < Pow2(k) && b < Pow2(k)
    ensures Xor(a, b) < Pow2(k)
  {
    if k != 0 {
      XorBound(a / 2, b / 2, k - 1);
    }
  }

  lemma {:induction false} ShrZero(k: nat)
    ensures Shr(0, k) == 0
  {
    if k != 0 {
      ShrZero(k - 1);
    }
  }

  lemma {:induction false} ShrBelow(x: nat, k: nat)
    ensures Shr(x, k) <= x
    decreases k
  {
    if k != 0 {
      ShrBelow(x / 2, k - 1);
    }
  }

  lemma {:induction false} ShrShr(x: nat, j: nat, k: nat)
    ensures Shr(Shr(x, j), k) == Shr(x, j + k)
    decreases j
  {
    if j != 0 {
      ShrShr(x / 2, j - 1, k);
    }
  }

  /** Right shift is division by a power of two. */
  lemma {:induction false} ShrIsDiv(x: nat, k: nat)
    ensures Shr(x, k) == x / Pow2(k)
    decreases k
  {
    if k != 0 {
      ShrIsDiv(x / 2, k - 1);
      DivHalf(x, Pow2(k - 1));
    }
  }

  /** A value of at most `k` bits is shifted out completely, and only such a value is. */
  lemma {:induction false} ShrOut(x: nat, k: nat)
    ensures Shr(x, k) == 0 <==> x < Pow2(k)
    decreases k
  {
    if k != 0 {
      ShrOut(x / 2, k - 1);
    }
  }

  /** Right shift distributes over xor. */
  lemma {:induction false} XorShr(a: nat, b: nat, k: nat)
    ensures Shr(Xor(a, b), k) == Xor(Shr(a, k), Shr(b, k))
    decreases k
  {
    if k != 0 {
      XorShr(a / 2, b / 2, k - 1);
      assert Xor(a, b) / 2 == Xor(a / 2, b / 2);
    }
  }

  /** For a shift of at least half the width, `x ^= x >> s` is an involution. */
  lemma XorShiftInvolution(x: nat, s: nat, width: nat)
    requires x < Pow2(width) && width <= 2 * s
    ensures Xor(x, Shr(x, s)) < Pow2(width)
    ensures var y := Xor(x, Shr(x, s)); Xor(y, Shr(y, s)) == x
  {
    var t := Shr(x, s);
    ShrBelow(x, s);
    XorBound(x, t, width);
    XorShr(x, t, s);
    ShrShr(x, s, s);
    Pow2Monotone(width, s + s);
    ShrOut(x, s + s);
    XorZero(t);
    XorCancel(x, t);
  }

  lemma {:induction false} Pow2Monotone(j: nat, k: nat)
    requires j <= k
    ensures Pow2(j) <= Pow2(k)
  {
    if j < k {
      Pow2Monotone(j, k - 1);
    }
  }

  lemma {:induction false} XorAssoc(a: nat, b: nat, c: nat)
    ensures Xor(Xor(a, b), c) == Xor(a, Xor(b, c))
    decreases a + b + c
  {
    if a != 0 || b != 0 || c != 0 {
      XorAssoc(a / 2, b / 2, c / 2);
      XorHalves(a, b);
      XorHalves(b, c);
      XorHalves(Xor(a, b), c);
      XorHalves(a, Xor(b, c));
    }
  }

  lemma XorHalves(a: nat, b: nat)
    ensures Xor(a, b) / 2 == Xor(a / 2, b / 2)
    ensures Xor(a, b) % 2 == if a % 2 != b % 2 then 1 else 0
  {
  }

  /** Xor of numbers without common bits is their sum. */
  lemma {:induction false} XorDisjoint(high: nat, low: nat, k: nat)
    requires low < Pow2(k)
    ensures Xor(high * Pow2(k), low) == high * Pow2(k) + low
    decreases k
  {
    if k == 0 {
      XorZero(high);
    } else {
      XorDisjoint(high, low / 2, k - 1);
      DoubleFactor(high, k);
      XorOfDouble(high * Pow2(k - 1), low);
    }
  }

  lemma DoubleFactor(high: nat, k: nat)
    requires k >= 1
    ensures high * Pow2(k) == 2 * (high * Pow2(k - 1))
  {
  }

  lemma XorOfDouble(a: nat, b: nat)
    ensures Xor(2 * a, b) == 2 * Xor(a, b / 2) + b % 2
  {
  }
}
