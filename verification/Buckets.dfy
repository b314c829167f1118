/** Bucket selection and the integer bookkeeping that decides when a table grows.

    Everything here is about values: the mask that picks a bucket, the shift-and-mask ceiling
    computed at an expansion, and the invariant that keeps the ideal chain length at most
    `CAPACITY_THRESH` over all runs. */
module Buckets {
  import opened Bits
  import opened Items

  const INITIAL_NUM_BUCKETS := 32
  const INITIAL_NUM_BUCKETS_LOG2 := 5
  const CAPACITY_THRESH := 10

  datatype Bucket = Bucket(hhHead: Item?, count: nat, expandMult: nat)

  /** HASH_TO_BKT for a table of `n` buckets. */
  function ToBkt(hashv: nat, n: nat): (b: nat)
    requires n >= 1
    ensures b < n
  {
    AndBound(hashv, n - 1);
    And(hashv, n - 1)
  }

  lemma {:induction false} AndBound(a: nat, b: nat)
    ensures And(a, b) <= b
  {
    if a != 0 && b != 0 {
      AndBound(a / 2, b / 2);
    }
  }

  /** In a table of `2^k` buckets the mask is the remainder. */
  lemma ToBktIsMod(hashv: nat, k: nat)
    ensures ToBkt(hashv, Pow2(k)) == hashv % Pow2(k)
  {
    AndMask(hashv, k);
  }

  /** Doubling the table sends bucket `b` to `b` or `b + n`; reducing modulo `n` undoes it. */
  lemma ToBktDouble(hashv: nat, k: nat)
    ensures var n := Pow2(k);
            var j := ToBkt(hashv, 2 * n);
            && j % n == ToBkt(hashv, n)
            && (j == ToBkt(hashv, n) || j == ToBkt(hashv, n) + n)
  {
    ToBktIsMod(hashv, k);
    ToBktIsMod(hashv, k + 1);
    ModDouble(hashv, Pow2(k));
  }

  // ---- sums over buckets

  ghost function Sum(f: Bucket -> nat, s: seq<Bucket>): nat {
    if s == [] then 0 else Sum(f, s[..|s| - 1]) + f(s[|s| - 1])
  }

  lemma {:induction false} SumUpdate(f: Bucket -> nat, s: seq<Bucket>, i: nat, b: Bucket)
    requires i < |s|
    ensures Sum(f, s[i := b]) + f(s[i]) == Sum(f, s) + f(b)
  {
    var k := |s| - 1;
    if i == k {
      assert s[i := b][..k] == s[..k];
    } else {
      SumUpdate(f, s[..k], i, b);
      assert s[i := b][..k] == s[..k][i := b];
    }
  }

  lemma SumPrefix(f: Bucket -> nat, s: seq<Bucket>, i: nat)
    requires i < |s|
    ensures Sum(f, s[..i + 1]) == Sum(f, s[..i]) + f(s[i])
  {
    assert s[..i + 1][..i] == s[..i];
  }

  lemma {:induction false} SumAtLeast(f: Bucket -> nat, s: seq<Bucket>, i: nat)
    requires i < |s|
    ensures Sum(f, s) >= f(s[i])
  {
    if i != |s| - 1 {
      SumAtLeast(f, s[..|s| - 1], i);
    }
  }

  lemma {:induction false} SumZero(f: Bucket -> nat, s: seq<Bucket>)
    requires forall b | b in s :: f(b) == 0
    ensures Sum(f, s) == 0
  {
    if s != [] {
      SumZero(f, s[..|s| - 1]);
    }
  }

  /** The number of items in a bucket. */
  ghost function Count(): Bucket -> nat {
    (b: Bucket) => b.count
  }

  /** The items of a bucket beyond the ideal chain length. */
  ghost function Excess(ideal: nat): Bucket -> nat {
    (b: Bucket) => if b.count > ideal then b.count - ideal else 0
  }

  /** How full a bucket can be without having triggered an expansion. */
  ghost function Allowance(): Bucket -> nat {
    (b: Bucket) =>
      var cap := CAPACITY_THRESH * b.expandMult + CAPACITY_THRESH - 1;
      if b.count > cap then b.count else cap
  }

  // ---- the ideal chain length

  /** The shift-and-mask form computed at an expansion of a table of `2^lb` buckets. */
  function IdealChainMaxlen(numItems: nat, lb: nat): nat {
    Shr(numItems, lb + 1) + if And(numItems, Pow2(lb) * 2 - 1) != 0 then 1 else 0
  }

  /** It is the ceiling of items over new buckets: the least length that lets them all fit. */
  lemma IdealIsCeiling(numItems: nat, lb: nat)
    ensures var ideal, n := IdealChainMaxlen(numItems, lb), Pow2(lb + 1);
            (ideal - 1) * n < numItems <= ideal * n
  {
    var n := Pow2(lb + 1);
    ShrIsDiv(numItems, lb + 1);
    AndMask(numItems, lb + 1);
    CeilingBounds(numItems, n);
  }

  lemma CeilingBounds(x: nat, n: nat)
    requires n >= 1
    ensures var c := x / n + if x % n != 0 then 1 else 0;
            (c - 1) * n < x <= c * n || x == c == 0
  {
    var q, r := x / n, x % n;
    assert x == q * n + r;
    assert (q + 1) * n == q * n + n && (q - 1) * n == q * n - n;
  }

  // ---- the growth invariant

  /** Final `expand_mult` of a bucket holding `count` items. */
  function MultOf(count: nat, ideal: nat): nat {
    if ideal != 0 && count > ideal then count / ideal else 0
  }

  ghost predicate Redistributed(s: seq<Bucket>, ideal: nat) {
    forall b | b in s :: b.expandMult == MultOf(b.count, ideal)
  }

  /** No bucket is past its own threshold, and all of them together leave less than 20 items per
      bucket.  This holds between operations as long as expansion is not inhibited. */
  ghost predicate Bounded(s: seq<Bucket>) {
    && (forall b | b in s :: b.count <= CAPACITY_THRESH * (b.expandMult + 1))
    && Sum(Allowance(), s) <= 19 * |s|
  }

  lemma {:induction false} CountWithinAllowance(s: seq<Bucket>)
    ensures Sum(Count(), s) <= Sum(Allowance(), s)
  {
    if s != [] {
      CountWithinAllowance(s[..|s| - 1]);
    }
  }

  ghost function Quotient(ideal: nat): Bucket -> nat
    requires ideal >= 1
  {
    (b: Bucket) => b.count / ideal
  }

  /** Summing floor divisions: `ideal` times the sum is at most the sum of the counts. */
  lemma {:induction false} QuotientSum(s: seq<Bucket>, ideal: nat)
    requires ideal >= 1
    ensures ideal * Sum(Quotient(ideal), s) <= Sum(Count(), s)
  {
    if s != [] {
      var t, c := s[..|s| - 1], s[|s| - 1].count;
      QuotientSum(t, ideal);
      assert ideal * (Sum(Quotient(ideal), t) + c / ideal) == ideal * Sum(Quotient(ideal), t) + ideal * (c / ideal);
      assert ideal * (c / ideal) <= c;
    }
  }

  lemma AllowanceOfOne(b: Bucket, ideal: nat)
    requires 1 <= ideal <= CAPACITY_THRESH && b.expandMult == MultOf(b.count, ideal)
    ensures Allowance()(b) <= 9 + 10 * (b.count / ideal)
    ensures b.count <= CAPACITY_THRESH * (b.expandMult + 1)
  {
    var q := b.count / ideal;
    assert b.count == ideal * q + b.count % ideal;
    MulMonotone(ideal, CAPACITY_THRESH, q);
    if b.count == ideal {
      DivModUnique(b.count, ideal, 1, 0);
    }
    if b.count < ideal {
      DivModUnique(b.count, ideal, 0, b.count);
    }
  }

  lemma {:induction false} AllowanceByQuotients(s: seq<Bucket>, ideal: nat)
    requires 1 <= ideal <= CAPACITY_THRESH && Redistributed(s, ideal)
    ensures Sum(Allowance(), s) <= 9 * |s| + 10 * Sum(Quotient(ideal), s)
  {
    if s != [] {
      AllowanceByQuotients(s[..|s| - 1], ideal);
      AllowanceOfOne(s[|s| - 1], ideal);
    }
  }

  /** An expansion that found the ideal chain length re-establishes the growth invariant. */
  lemma ExpansionRestoresBounded(s: seq<Bucket>, ideal: nat)
    requires 1 <= ideal <= CAPACITY_THRESH && Redistributed(s, ideal)
    requires Sum(Count(), s) <= ideal * |s|
    ensures Bounded(s)
  {
    QuotientSum(s, ideal);
    AllowanceByQuotients(s, ideal);
    var q := Sum(Quotient(ideal), s);
    assert ideal * q == q * ideal && ideal * |s| == |s| * ideal;
    CancelLe(q, |s|, ideal);
    forall b | b in s
      ensures b.count <= CAPACITY_THRESH * (b.expandMult + 1)
    {
      AllowanceOfOne(b, ideal);
    }
  }

  /** With one item more than the growth invariant allows for, doubling the table still gives an
      ideal chain length of at most the capacity threshold. */
  lemma IdealWithinThreshold(s: seq<Bucket>, lb: nat, numItems: nat)
    requires Bounded(s) && |s| == Pow2(lb)
    requires numItems <= Sum(Count(), s) + 1
    ensures IdealChainMaxlen(numItems, lb) <= CAPACITY_THRESH
  {
    CountWithinAllowance(s);
    var ideal := IdealChainMaxlen(numItems, lb);
    IdealIsCeiling(numItems, lb);
    assert (ideal - 1) * Pow2(lb + 1) < CAPACITY_THRESH * Pow2(lb + 1);
    CancelLt(ideal - 1, CAPACITY_THRESH, Pow2(lb + 1));
  }

  /** Counting one more item into a bucket below its threshold, or one less into any bucket,
      keeps the growth invariant. */
  lemma BoundedUpdate(s: seq<Bucket>, i: nat, b: Bucket)
    requires Bounded(s) && i < |s|
    requires b.expandMult == s[i].expandMult
    requires b.count <= s[i].count || b.count < CAPACITY_THRESH * (b.expandMult + 1)
    ensures Bounded(s[i := b])
  {
    SumUpdate(Allowance(), s, i, b);
    assert Allowance()(b) <= Allowance()(s[i]);
    forall c | c in s[i := b]
      ensures c.count <= CAPACITY_THRESH * (c.expandMult + 1)
    {
      assert c == b || c in s;
    }
  }

  lemma {:induction false} FreshBounded(s: seq<Bucket>)
    requires forall b | b in s :: b.count == 0 && b.expandMult == 0
    ensures Bounded(s)
  {
    if s != [] {
      FreshBounded(s[..|s| - 1]);
    }
  }
}
