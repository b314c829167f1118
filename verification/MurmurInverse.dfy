/** Undoing `murmurhash64`, step by step and with every constant written out: the seed comes back from
    the hash and the key, a key of one block or one tail comes back from the hash and the seed, and a
    few hashes are worked out in full. */
module MurmurInverse {
  import opened Bits
  import opened Murmur

  /** 2^47 */
  const SHIFT := 0x8000_0000_0000

  lemma ShiftIs()
    ensures Pow2(47) == SHIFT
  {
    assert Pow2(7) == 0x80 && Pow2(8) == 0x100;
    Pow2Add(8, 8);
    Pow2Add(16, 16);
    Pow2Add(32, 8);
    Pow2Add(40, 7);
  }

  /** `x ^ (x / 2^47)` undoes itself. */
  function Unshift(x: Word): Word {
    WordWidth();
    QuotientFits(x);
    XorBound(x, x / SHIFT, 64);
    Xor(x, x / SHIFT)
  }

  lemma QuotientFits(x: Word)
    ensures 0 <= x / SHIFT <= x
  {
  }

  function Times(x: Word): Word {
    x * 0xc6a4a7935bd1e995 % 0x1_0000_0000_0000_0000
  }

  /** Dividing out the multiplier. */
  function Unmul(x: Word): Word {
    x * 0x5f7a0ea7e59b19bd % 0x1_0000_0000_0000_0000
  }

  function Power256(j: nat): (p: nat)
    ensures p >= 1
  {
    if j == 0 then 1 else 256 * Power256(j - 1)
  }

  /** The sum of `s[j] * 256^j`. */
  function LittleEndian(s: seq<Byte>): (n: nat)
    ensures n < Power256(|s|)
  {
    if s == [] then 0
    else
      var j := |s| - 1;
      TopDigit(LittleEndian(s[..j]), s[j], Power256(j));
      LittleEndian(s[..j]) + s[j] * Power256(j)
  }

  lemma TopDigit(low: nat, b: Byte, p: nat)
    requires low < p
    ensures low + b * p < 256 * p
  {
    MulMonotone(b, 255, p);
  }

  // ---- each step is undone

  lemma UnshiftIs(x: Word)
    ensures XorShift(x) == Unshift(x)
  {
    ShiftIs();
    ShrIsDiv(x, 47);
  }

  lemma UnshiftUndoes(x: Word)
    ensures Unshift(XorShift(x)) == x
  {
    WordWidth();
    XorShiftInvolution(x, 47, 64);
    UnshiftIs(XorShift(x));
  }

  lemma UnmulUndoes(x: Word)
    ensures Unmul(Mul(x)) == x
  {
    var q, r := x * M / W, x * M % W;
    assert M * M_INVERSE == 1 + 5338401661063375727 * W;
    var k := x * 5338401661063375727 - q * M_INVERSE;
    assert r * M_INVERSE == k * W + x by {
      assert (x * M) * M_INVERSE == x * (M * M_INVERSE);
      assert (q * W + r) * M_INVERSE == q * M_INVERSE * W + r * M_INVERSE;
    }
    RemainderOf(r * M_INVERSE, k, x);
  }

  lemma RemainderOf(n: nat, k: int, x: Word)
    requires n == k * W + x
    ensures n % W == x
  {
  }

  lemma {:induction false} PowersAgree(j: nat)
    ensures Power256(j) == Pow2(8 * j)
  {
    if j != 0 {
      PowersAgree(j - 1);
      Pow2Add(8, 8 * (j - 1));
      assert Pow2(8) == 256;
    }
  }

  /** The sum, taken from the other end. */
  lemma {:induction false} SumFromFront(s: seq<Byte>)
    requires s != []
    ensures LittleEndian(s) == s[0] + 256 * LittleEndian(s[1..])
  {
    hide LittleEndian;
    var k := |s| - 1;
    SumLast(s);
    if k == 0 {
      assert s[..0] == [] && s[1..] == [];
      NoSum();
    } else {
      SumFromFront(s[..k]);
      SumLast(s[1..]);
      assert s[..k][1..] == s[1..k] && s[1..][..k - 1] == s[1..k] && s[1..][k - 1] == s[k];
      Carry(s[k], k);
    }
  }

  lemma SumLast(s: seq<Byte>)
    requires s != []
    ensures var k := |s| - 1; LittleEndian(s) == LittleEndian(s[..k]) + s[k] * Power256(k)
  {
  }

  lemma NoSum()
    ensures LittleEndian([]) == 0 && Power256(0) == 1
  {
  }

  lemma Carry(b: Byte, k: nat)
    requires k >= 1
    ensures b * Power256(k) == 256 * (b * Power256(k - 1))
  {
  }

  /** Loading from the front and summing from the back agree. */
  lemma {:induction false} LoadIsSum(s: seq<Byte>)
    ensures Load(s) == LittleEndian(s)
  {
    hide LittleEndian;
    if s == [] {
      NoSum();
    } else {
      LoadIsSum(s[1..]);
      SumFromFront(s);
    }
  }

  lemma BlockIsSum(key: seq<Byte>, i: nat)
    requires 8 * i + 8 <= |key|
    ensures Block(key, i) == LittleEndian(key[8 * i..8 * i + 8])
  {
    LoadIsSum(key[8 * i..8 * i + 8]);
  }

  /** Xoring byte after byte is xoring the whole tail. */
  lemma {:induction false} TailIsSum(h: Word, t: seq<Byte>)
    requires |t| <= 8
    ensures TailXor(h, t) == Xor(h, LittleEndian(t))
    decreases |t|
  {
    if t == [] {
      XorZero(h);
    } else {
      var i := |t| - 1;
      var b, low := ShiftedByte(t[i], i), LittleEndian(t[..i]);
      TailIsSum(XorWord(h, b), t[..i]);
      PowersAgree(i);
      XorAssoc(h, b, low);
      XorDisjoint(t[i], low, 8 * i);
    }
  }

  // ---- the seed comes back

  /** What a block is turned into before it is absorbed. */
  function Scramble(k: Word): Word {
    Times(Unshift(Times(k)))
  }

  function Xor64(a: Word, b: Word): Word {
    WordWidth();
    XorBound(a, b, 64);
    Xor(a, b)
  }

  function BlockSum(key: seq<Byte>, i: nat): Word
    requires 8 * i + 8 <= |key|
  {
    BlockIsSum(key, i);
    LittleEndian(key[8 * i..8 * i + 8])
  }

  function Unblock(h: Word, k: Word): Word {
    Xor64(Unmul(h), Scramble(k))
  }

  /** Taking the first `n` blocks out again, the last one first. */
  function Unabsorb(h: Word, key: seq<Byte>, n: nat): Word
    requires 8 * n <= |key|
    decreases n
  {
    if n == 0 then h else Unabsorb(Unblock(h, BlockSum(key, n - 1)), key, n - 1)
  }

  function Untail(h: Word, t: seq<Byte>): Word
    requires |t| < 8
  {
    WordWidth();
    PowersAgree(|t|);
    Pow2Monotone(8 * |t|, 64);
    if t == [] then h else Xor64(Unmul(h), LittleEndian(t))
  }

  function Unfinish(r: Word): Word {
    Unshift(Unmul(Unshift(r)))
  }

  function Unhash(r: Word, key: seq<Byte>): Word {
    var n := |key| / 8;
    Xor64(Unabsorb(Untail(Unfinish(r), key[8 * n..]), key, n), |key| * 0xc6a4a7935bd1e995 % 0x1_0000_0000_0000_0000)
  }

  lemma UnfinishUndoes(h: Word)
    ensures Unfinish(Finish(h)) == h
  {
    UnshiftUndoes(Mul(XorShift(h)));
    UnmulUndoes(XorShift(h));
    UnshiftUndoes(h);
  }

  lemma ScrambleIsMix(k: Word)
    ensures Scramble(k) == Mix(k)
  {
    UnshiftIs(Mul(k));
  }

  lemma UnabsorbOne(h: Word, k: Word)
    ensures Unblock(Absorb(h, k), k) == h
  {
    ScrambleIsMix(k);
    UnmulUndoes(XorWord(h, Mix(k)));
    XorCancel(h, Mix(k));
  }

  lemma {:induction false} UnabsorbUndoes(h: Word, key: seq<Byte>, n: nat)
    requires 8 * n <= |key|
    ensures Unabsorb(Absorbed(h, key, n), key, n) == h
  {
    hide Absorb, Load, Pow2, Unblock;
    if n != 0 {
      UnabsorbUndoes(h, key, n - 1);
      UnabsorbOne(Absorbed(h, key, n - 1), Block(key, n - 1));
      BlockIsSum(key, n - 1);
    }
  }

  lemma UntailUndoes(h: Word, t: seq<Byte>)
    requires |t| < 8
    ensures Untail(Tail(h, t), t) == h
  {
    if t != [] {
      UnmulUndoes(TailXor(h, t));
      TailIsSum(h, t);
      XorCancel(h, LittleEndian(t));
    }
  }

  /** For every key of any length, going back from the hash with the key gives the seed. */
  lemma SeedComesBack(key: seq<Byte>, seed: Word)
    ensures Unhash(Hash(key, seed), key) == seed
  {
    hide Xor, Unabsorb, Absorbed, Tail, Untail, Unfinish, Finish;
    var n := |key| / 8;
    var start := Start(|key|, seed);
    var s := Absorbed(start, key, n);
    UnfinishUndoes(Tail(s, key[8 * n..]));
    UntailUndoes(s, key[8 * n..]);
    UnabsorbUndoes(start, key, n);
    XorCancel(seed, |key| * M % W);
  }

  // ---- a short key comes back

  /** A key of one block, from its hash and the seed. */
  lemma BlockComesBack(key: seq<Byte>, seed: Word)
    requires |key| == 8
    ensures var h := Unfinish(Hash(key, seed));
            var k := Xor64(Unmul(h), Xor64(seed, 8 * 0xc6a4a7935bd1e995 % 0x1_0000_0000_0000_0000));
            Unmul(Unshift(Unmul(k))) == LittleEndian(key)
  {
    hide Xor, Load, LittleEndian, Unmul, Unshift, Mix, Unfinish, Finish;
    var start := Start(8, seed);
    assert key[8..] == [] && key[0..8] == key;
    assert Absorbed(start, key, 1) == Absorb(Absorbed(start, key, 0), Block(key, 0));
    BlockIsSum(key, 0);
    UnfinishUndoes(Absorb(start, Block(key, 0)));
    UnabsorbWith(start, Block(key, 0));
    Unmix(Block(key, 0));
  }

  lemma UnabsorbWith(h: Word, k: Word)
    ensures Xor64(Unmul(Absorb(h, k)), h) == Mix(k)
  {
    UnmulUndoes(XorWord(h, Mix(k)));
    XorSym(h, Mix(k));
    XorCancel(Mix(k), h);
  }

  lemma Unmix(k: Word)
    ensures Unmul(Unshift(Unmul(Mix(k)))) == k
  {
    UnmulUndoes(XorShift(Mul(k)));
    UnshiftUndoes(Mul(k));
    UnmulUndoes(k);
  }

  /** A key shorter than a block, from its hash and the seed. */
  lemma TailComesBack(key: seq<Byte>, seed: Word)
    requires 1 <= |key| <= 7
    ensures var h := Unfinish(Hash(key, seed));
            Xor64(Unmul(h), Xor64(seed, |key| * 0xc6a4a7935bd1e995 % 0x1_0000_0000_0000_0000)) == LittleEndian(key)
  {
    hide Xor, LittleEndian, Unmul, Unfinish, Finish, TailXor;
    var start := Start(|key|, seed);
    assert key[0..] == key;
    UnfinishUndoes(Tail(start, key));
    UnmulUndoes(TailXor(start, key));
    TailIsSum(start, key);
    XorSym(start, LittleEndian(key));
    XorCancel(LittleEndian(key), start);
  }
}
