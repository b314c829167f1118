/** The 64-bit MurmurHash of `src/utils.c`.

    `Murmur64` runs the program's loop and its fall-through tail switch; `Hash` is the function
    it computes.  The theorem `NoCollisionInOneBlock` is about `Hash`: two different keys of one
    length that agree outside a single 8-byte block (the last, shorter block included) never
    collide, whatever the seed. */
module Murmur {
  import opened Bits

  const W := 0x1_0000_0000_0000_0000
  const M := 0xc6a4a7935bd1e995
  const M_INVERSE := 0x5f7a0ea7e59b19bd
  const R := 47

  type Word = x: int | 0 <= x < W

  lemma WordWidth()
    ensures Pow2(64) == W
  {
    assert Pow2(8) == 0x100;
    Pow2Add(8, 8);
    Pow2Add(16, 16);
    Pow2Add(32, 32);
  }

  function Mul(x: Word): Word {
    x * M % W
  }

  function XorWord(x: Word, y: Word): Word {
    WordWidth();
    XorBound(x, y, 64);
    Xor(x, y)
  }

  function ShrWord(x: Word, k: nat): Word {
    ShrBelow(x, k);
    Shr(x, k)
  }

  function XorShift(x: Word): Word {
    XorWord(x, ShrWord(x, R))
  }

  function Mix(k: Word): Word {
    Mul(XorShift(Mul(k)))
  }

  function Absorb(h: Word, k: Word): Word {
    Mul(XorWord(h, Mix(k)))
  }

  function Finish(h: Word): Word {
    XorShift(Mul(XorShift(h)))
  }

  /** Little-endian load of a byte string. */
  function Load(s: seq<Byte>): (w: nat)
    ensures w < Pow2(8 * |s|)
  {
    if s == [] then 0
    else
      Pow2Add(8, 8 * (|s| - 1));
      assert Pow2(8) == 256;
      s[0] + 256 * Load(s[1..])
  }

  function Block(key: seq<Byte>, i: nat): Word
    requires 8 * i + 8 <= |key|
  {
    WordWidth();
    Load(key[8 * i..8 * i + 8])
  }

  /** The state after the first `n` blocks. */
  function Absorbed(h: Word, key: seq<Byte>, n: nat): Word
    requires 8 * n <= |key|
  {
    if n == 0 then h else Absorb(Absorbed(h, key, n - 1), Block(key, n - 1))
  }

  lemma ByteFits(b: Byte, i: nat, n: nat)
    requires i < n
    ensures b * Pow2(8 * i) < Pow2(8 * n)
  {
    Pow2Add(8, 8 * i);
    Pow2Monotone(8 + 8 * i, 8 * n);
    assert Pow2(8) == 256;
    MulMonotone(b, 255, Pow2(8 * i));
  }

  function ShiftedByte(b: Byte, i: nat): Word
    requires i < 8
  {
    WordWidth();
    ByteFits(b, i, 8);
    b * Pow2(8 * i)
  }

  /** The tail bytes are xored in from the last one down to the first. */
  function TailXor(h: Word, t: seq<Byte>): Word
    requires |t| <= 8
    decreases |t|
  {
    if t == [] then h
    else TailXor(XorWord(h, ShiftedByte(t[|t| - 1], |t| - 1)), t[..|t| - 1])
  }

  function Tail(h: Word, t: seq<Byte>): Word
    requires |t| < 8
  {
    if t == [] then h else Mul(TailXor(h, t))
  }

  function Start(len: nat, seed: Word): Word {
    XorWord(seed, len * M % W)
  }

  function Hash(key: seq<Byte>, seed: Word): Word {
    var n := |key| / 8;
    Finish(Tail(Absorbed(Start(|key|, seed), key, n), key[8 * n..]))
  }

  method Murmur64(key: seq<Byte>, seed: Word) returns (r: Word)
    ensures r == Hash(key, seed)
  {
    hide Load, Pow2, Xor, Shr;
    var len := |key|;
    var h: Word := XorWord(seed, len * M % W);
    var data, end := 0, len / 8;
    while data != end
      invariant 0 <= data <= end
      invariant h == Absorbed(Start(len, seed), key, data)
      decreases end - data
    {
      var k := Block(key, data);
      data := data + 1;

      k := Mul(k);
      k := XorWord(k, ShrWord(k, R));
      k := Mul(k);

      h := XorWord(h, k);
      h := Mul(h);
    }
    h := AbsorbTail(h, key[8 * data..]);

    h := XorWord(h, ShrWord(h, R));
    h := Mul(h);
    h := XorWord(h, ShrWord(h, R));
    return h;
  }

  /** The part of the tail not yet consumed when only cases `n` and below are left. */
  ghost function Below(t: seq<Byte>, n: nat): seq<Byte> {
    if n <= |t| then t[..n] else t
  }

  /** `case i + 1` of the switch over `len & 7`; it is entered, or fallen into, when the tail is
      longer than `i`. */
  method TailCase(h: Word, t: seq<Byte>, i: nat) returns (r: Word)
    requires i < 7 && |t| < 8
    ensures TailXor(r, Below(t, i)) == TailXor(h, Below(t, i + 1))
  {
    r := h;
    if |t| > i {
      r := XorWord(h, ShiftedByte(t[i], i));
      LastByte(h, t, i);
    } else {
      assert Below(t, i) == t == Below(t, i + 1);
    }
  }

  lemma LastByte(h: Word, t: seq<Byte>, i: nat)
    requires i < |t| < 8
    ensures TailXor(h, t[..i + 1]) == TailXor(XorWord(h, ShiftedByte(t[i], i)), t[..i])
  {
    var u := t[..i + 1];
    assert u[|u| - 1] == t[i] && |u| - 1 == i && u[..i] == t[..i];
  }

  method AbsorbTail(start: Word, data2: seq<Byte>) returns (h: Word)
    requires |data2| < 8
    ensures h == Tail(start, data2)
  {
    h := TailCase(start, data2, 6);
    assert Below(data2, 7) == data2;
    h := TailCase(h, data2, 5);
    h := TailCase(h, data2, 4);
    h := TailCase(h, data2, 3);
    h := TailCase(h, data2, 2);
    h := TailCase(h, data2, 1);
    h := TailCase(h, data2, 0);
    assert Below(data2, 0) == [];
    if data2 != [] {
      h := Mul(h);
    }
  }

  // ---- each step is injective

  /** `M` is odd, so multiplication by it is invertible modulo 2^64. */
  lemma MulInjective(a: Word, b: Word)
    requires Mul(a) == Mul(b)
    ensures a == b
  {
    var k := a * M / W - b * M / W;
    assert (a - b) * M == k * W;
    OnlyZero(a - b, k);
  }

  lemma OnlyZero(d: int, k: int)
    requires -W < d < W && d * M == k * W
    ensures d == 0
  {
    assert M * M_INVERSE == 1 + 5338401661063375727 * W;
    assert d == (k * M_INVERSE - d * 5338401661063375727) * W;
  }

  lemma XorInjective(a: Word, b: Word, c: Word)
    requires XorWord(a, c) == XorWord(b, c) || XorWord(c, a) == XorWord(c, b)
    ensures a == b
  {
    XorCancel(a, c);
    XorCancel(b, c);
    XorSym(a, c);
    XorSym(b, c);
  }

  lemma XorShiftInjective(a: Word, b: Word)
    requires XorShift(a) == XorShift(b)
    ensures a == b
  {
    WordWidth();
    XorShiftInvolution(a, R, 64);
    XorShiftInvolution(b, R, 64);
  }

  lemma MixInjective(a: Word, b: Word)
    requires Mix(a) == Mix(b)
    ensures a == b
  {
    MulInjective(XorShift(Mul(a)), XorShift(Mul(b)));
    XorShiftInjective(Mul(a), Mul(b));
    MulInjective(a, b);
  }

  /** Absorbing a block is injective in the state and in the block. */
  lemma AbsorbInjective(h: Word, k: Word, h': Word, k': Word)
    requires Absorb(h, k) == Absorb(h', k')
    ensures h == h' <==> k == k'
  {
    MulInjective(XorWord(h, Mix(k)), XorWord(h', Mix(k')));
    if k == k' {
      XorInjective(h, h', Mix(k));
    }
    if h == h' {
      XorInjective(Mix(k), Mix(k'), h);
      MixInjective(k, k');
    }
  }

  lemma AbsorbDiffers(h: Word, k: Word, h': Word, k': Word)
    requires h == h' <==> k != k'
    ensures Absorb(h, k) != Absorb(h', k')
  {
    if Absorb(h, k) == Absorb(h', k') {
      AbsorbInjective(h, k, h', k');
    }
  }

  lemma FinishInjective(a: Word, b: Word)
    requires Finish(a) == Finish(b)
    ensures a == b
  {
    XorShiftInjective(Mul(XorShift(a)), Mul(XorShift(b)));
    MulInjective(XorShift(a), XorShift(b));
    XorShiftInjective(a, b);
  }

  lemma {:induction false} LoadInjective(s: seq<Byte>, t: seq<Byte>)
    requires |s| == |t| && Load(s) == Load(t)
    ensures s == t
  {
    if s != [] {
      LoadInjective(s[1..], t[1..]);
      assert s == [s[0]] + s[1..] && t == [t[0]] + t[1..];
    }
  }

  /** Xoring in the lower `n` bytes leaves everything above them alone. */
  lemma {:induction false} TailKeepsHighBits(h: Word, t: seq<Byte>, n: nat)
    requires |t| <= n <= 8
    ensures Shr(TailXor(h, t), 8 * n) == Shr(h, 8 * n)
    decreases |t|
  {
    if t != [] {
      var i := |t| - 1;
      var b := ShiftedByte(t[i], i);
      TailKeepsHighBits(XorWord(h, b), t[..i], n);
      XorShr(h, b, 8 * n);
      assert Shr(b, 8 * n) == 0 by {
        ByteFits(t[i], i, n);
        ShrOut(b, 8 * n);
      }
      XorZero(Shr(h, 8 * n));
    }
  }

  /** The tail is injective in the state and in the tail bytes. */
  lemma {:induction false} TailXorInjective(h: Word, t: seq<Byte>, h': Word, t': seq<Byte>)
    requires |t| == |t'| <= 8
    requires TailXor(h, t) == TailXor(h', t')
    ensures h == h' <==> t == t'
    decreases |t|
  {
    if t != [] {
      var i := |t| - 1;
      var b, b' := ShiftedByte(t[i], i), ShiftedByte(t'[i], i);
      var h1, h1' := XorWord(h, b), XorWord(h', b');
      TailXorInjective(h1, t[..i], h1', t'[..i]);
      assert t == t[..i] + [t[i]] && t' == t'[..i] + [t'[i]];
      if t == t' {
        XorInjective(h, h', b);
      }
      if h == h' {
        TailKeepsHighBits(h1, t[..i], i);
        TailKeepsHighBits(h1', t'[..i], i);
        TopByte(h, t[i], i);
        TopByte(h, t'[i], i);
      }
    }
  }

  /** The byte xored in at position `i` can be read back above bit `8 * i`. */
  lemma TopByte(h: Word, b: Byte, i: nat)
    requires i < 8
    ensures Xor(Shr(XorWord(h, ShiftedByte(b, i)), 8 * i), Shr(h, 8 * i)) == b
  {
    var p := Pow2(8 * i);
    XorShr(h, ShiftedByte(b, i), 8 * i);
    ShrIsDiv(b * p, 8 * i);
    DivModUnique(b * p, p, b, 0);
    XorSym(Shr(h, 8 * i), b);
    XorCancel(b, Shr(h, 8 * i));
  }

  /** The two keys agree on every byte outside block `b`. */
  ghost predicate AgreeOutside(key: seq<Byte>, key': seq<Byte>, b: nat) {
    |key| == |key'| && forall i | 0 <= i < |key| && !(8 * b <= i < 8 * b + 8) :: key[i] == key'[i]
  }

  lemma OtherBlockEqual(key: seq<Byte>, key': seq<Byte>, b: nat, i: nat)
    requires AgreeOutside(key, key', b) && i != b && 8 * i + 8 <= |key|
    ensures Block(key, i) == Block(key', i)
  {
    assert key[8 * i..8 * i + 8] == key'[8 * i..8 * i + 8];
  }

  lemma BlockInjective(key: seq<Byte>, key': seq<Byte>, b: nat)
    requires AgreeOutside(key, key', b) && 8 * b + 8 <= |key|
    requires Block(key, b) == Block(key', b)
    ensures key == key'
  {
    LoadInjective(key[8 * b..8 * b + 8], key'[8 * b..8 * b + 8]);
    forall i | 0 <= i < |key|
      ensures key[i] == key'[i]
    {
      if 8 * b <= i < 8 * b + 8 {
        assert key[i] == key[8 * b..8 * b + 8][i - 8 * b];
        assert key'[i] == key'[8 * b..8 * b + 8][i - 8 * b];
      }
    }
  }

  lemma {:induction false} SamePrefixSameState(h: Word, key: seq<Byte>, key': seq<Byte>, b: nat, n: nat)
    requires AgreeOutside(key, key', b) && n <= b && 8 * n <= |key|
    ensures Absorbed(h, key, n) == Absorbed(h, key', n)
  {
    if n != 0 {
      SamePrefixSameState(h, key, key', b, n - 1);
      OtherBlockEqual(key, key', b, n - 1);
    }
  }

  /** One more block separates the states exactly when state and block do not both differ. */
  lemma AbsorbedDiffers(h: Word, key: seq<Byte>, key': seq<Byte>, i: nat)
    requires |key| == |key'| && 8 * i + 8 <= |key|
    requires Absorbed(h, key, i) == Absorbed(h, key', i) <==> Block(key, i) != Block(key', i)
    ensures Absorbed(h, key, i + 1) != Absorbed(h, key', i + 1)
  {
    AbsorbDiffers(Absorbed(h, key, i), Block(key, i), Absorbed(h, key', i), Block(key', i));
  }

  lemma FirstDifference(h: Word, key: seq<Byte>, key': seq<Byte>, b: nat)
    requires AgreeOutside(key, key', b) && key != key' && 8 * b + 8 <= |key|
    ensures Absorbed(h, key, b) == Absorbed(h, key', b)
    ensures Block(key, b) != Block(key', b)
  {
    SamePrefixSameState(h, key, key', b, b);
    if Block(key, b) == Block(key', b) {
      BlockInjective(key, key', b);
    }
  }

  /** Once the states differ, absorbing equal blocks keeps them different. */
  lemma {:induction false} DifferenceSurvives(h: Word, key: seq<Byte>, key': seq<Byte>, b: nat, n: nat)
    requires AgreeOutside(key, key', b) && key != key'
    requires b < n && 8 * n <= |key|
    ensures Absorbed(h, key, n) != Absorbed(h, key', n)
  {
    hide Absorb, Load, Pow2;
    var i := n - 1;
    if i == b {
      FirstDifference(h, key, key', b);
    } else {
      DifferenceSurvives(h, key, key', b, i);
      OtherBlockEqual(key, key', b, i);
    }
    AbsorbedDiffers(h, key, key', i);
  }

  lemma TailInjective(h: Word, t: seq<Byte>, h': Word, t': seq<Byte>)
    requires |t| == |t'| < 8
    requires Tail(h, t) == Tail(h', t')
    ensures h == h' <==> t == t'
  {
    if t != [] {
      MulInjective(TailXor(h, t), TailXor(h', t'));
      TailXorInjective(h, t, h', t');
    }
  }

  /** The state before the tail and the tail itself never differ together, nor agree together. */
  lemma StateOrTailDiffers(key: seq<Byte>, key': seq<Byte>, h: Word, b: nat)
    requires AgreeOutside(key, key', b) && key != key'
    ensures var n := |key| / 8;
            Absorbed(h, key, n) == Absorbed(h, key', n) <==> key[8 * n..] != key'[8 * n..]
  {
    var n := |key| / 8;
    if b < n {
      DifferenceSurvives(h, key, key', b, n);
    } else {
      SamePrefixSameState(h, key, key', b, n);
    }
    TailDiffers(key, key', b, n);
  }

  lemma TailDiffers(key: seq<Byte>, key': seq<Byte>, b: nat, n: nat)
    requires AgreeOutside(key, key', b) && key != key' && 8 * n <= |key|
    ensures key[8 * n..] == key'[8 * n..] <==> b < n
  {
    if b < n {
      assert key[8 * n..] == key'[8 * n..];
    } else {
      assert key[..8 * n] == key'[..8 * n];
      assert key == key[..8 * n] + key[8 * n..] && key' == key'[..8 * n] + key'[8 * n..];
    }
  }

  /** Different keys of one length that agree outside one 8-byte block, the shorter tail counting
      as the last block, have different hashes. */
  lemma NoCollisionInOneBlock(key: seq<Byte>, key': seq<Byte>, seed: Word, b: nat)
    requires AgreeOutside(key, key', b) && key != key'
    ensures Hash(key, seed) != Hash(key', seed)
  {
    var h, n := Start(|key|, seed), |key| / 8;
    var s, s' := Absorbed(h, key, n), Absorbed(h, key', n);
    var t, t' := key[8 * n..], key'[8 * n..];
    StateOrTailDiffers(key, key', h, b);
    if Hash(key, seed) == Hash(key', seed) {
      FinishInjective(Tail(s, t), Tail(s', t'));
      TailInjective(s, t, s', t');
    }
  }
}
