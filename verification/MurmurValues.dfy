/** Three hashes worked out in full, which fixes every constant, the byte order and the seeding. */
module MurmurValues {
  import opened Bits
  import opened Murmur
  import opened MurmurInverse

  // ---- xor of written-out numbers, digit by digit

  /** Xor works on the lowest `k` bits and on the others separately. */
  lemma {:induction false} XorSplit(a: nat, b: nat, c: nat, d: nat, k: nat)
    requires a < Pow2(k) && c < Pow2(k)
    ensures Xor(a + b * Pow2(k), c + d * Pow2(k)) == Xor(a, c) + Xor(b, d) * Pow2(k)
    decreases k
  {
    hide Xor;
    if k == 0 {
      XorZero(0);
    } else {
      XorSplit(a / 2, b, c / 2, d, k - 1);
      Halve(a, b, k);
      Halve(c, d, k);
      XorHalves(a + b * Pow2(k), c + d * Pow2(k));
      XorHalves(a, c);
      DoubleFactor(Xor(b, d), k);
    }
  }

  lemma Halve(a: nat, b: nat, k: nat)
    requires k >= 1
    ensures (a + b * Pow2(k)) / 2 == a / 2 + b * Pow2(k - 1) && (a + b * Pow2(k)) % 2 == a % 2
  {
    DoubleFactor(b, k);
  }

  /** One more hexadecimal digit at the low end. */
  lemma XorDigit(a: nat, b: nat, c: nat, x: nat, y: nat, z: nat)
    requires x < 16 && y < 16 && Xor(a, b) == c && Xor(x, y) == z
    ensures Xor(a * 16 + x, b * 16 + y) == c * 16 + z
  {
    assert Pow2(4) == 16;
    XorSplit(x, a, y, b, 4);
  }

  lemma DigitTable()
    ensures Xor(0x0, 0x1) == 0x1 && Xor(0x0, 0x8) == 0x8 && Xor(0x0, 0xc) == 0xc && Xor(0x1, 0x1) == 0x0
    ensures Xor(0x2, 0x1) == 0x3 && Xor(0x3, 0x2) == 0x1 && Xor(0x3, 0x9) == 0xa && Xor(0x3, 0xd) == 0xe
    ensures Xor(0x3, 0xe) == 0xd && Xor(0x4, 0x7) == 0x3 && Xor(0x4, 0x8) == 0xc && Xor(0x5, 0x1) == 0x4
    ensures Xor(0x5, 0x3) == 0x6 && Xor(0x5, 0x9) == 0xc && Xor(0x5, 0xb) == 0xe && Xor(0x5, 0xd) == 0x8
    ensures Xor(0x5, 0xe) == 0xb && Xor(0x6, 0x3) == 0x5 && Xor(0x8, 0x3) == 0xb && Xor(0x8, 0x6) == 0xe
    ensures Xor(0x8, 0x8) == 0x0 && Xor(0x8, 0xf) == 0x7 && Xor(0x9, 0x4) == 0xd && Xor(0x9, 0x6) == 0xf
    ensures Xor(0x9, 0xa) == 0x3 && Xor(0x9, 0xb) == 0x2 && Xor(0x9, 0xd) == 0x4 && Xor(0xa, 0x1) == 0xb
    ensures Xor(0xa, 0x5) == 0xf && Xor(0xa, 0xd) == 0x7 && Xor(0xb, 0x1) == 0xa && Xor(0xc, 0x1) == 0xd
    ensures Xor(0xc, 0x3) == 0xf && Xor(0xc, 0xd) == 0x1 && Xor(0xc, 0xe) == 0x2 && Xor(0xd, 0x3) == 0xe
    ensures Xor(0xe, 0x4) == 0xa && Xor(0xe, 0x8) == 0x6 && Xor(0xf, 0x0) == 0xf && Xor(0xf, 0x9) == 0x6
    ensures Xor(0xf, 0xe) == 0x1 && Xor(0xf, 0xf) == 0x0
  {
  }

  // ---- the values

  lemma EmptySecond()
    ensures XorShift(0xc6a4a7935bd1e995) == 0xc6a4a7935bd064dc
  {
    hide Xor, XorShift;
    UnshiftIs(0xc6a4a7935bd1e995);
    DigitTable();
    XorZero(0xc6a4a7935bd);
    XorDigit(0xc6a4a7935bd, 0x0, 0xc6a4a7935bd, 0x1, 0x1, 0x0);
    XorDigit(0xc6a4a7935bd1, 0x1, 0xc6a4a7935bd0, 0xe, 0x8, 0x6);
    XorDigit(0xc6a4a7935bd1e, 0x18, 0xc6a4a7935bd06, 0x9, 0xd, 0x4);
    XorDigit(0xc6a4a7935bd1e9, 0x18d, 0xc6a4a7935bd064, 0x9, 0x4, 0xd);
    XorDigit(0xc6a4a7935bd1e99, 0x18d4, 0xc6a4a7935bd064d, 0x5, 0x9, 0xc);
  }

  lemma EmptyKey()
    ensures Hash([], 1) == 0xc6a4a7935bd064dc
  {
    hide Xor, Load, Pow2, XorShift;
    XorZero(1);
    UnshiftIs(1);
    EmptySecond();
    assert Start(0, 1) == 1;
    assert Absorbed(1, [], 0) == 1 && Tail(1, []) == 1;
  }

  lemma ByteFirst()
    ensures XorShift(0xecc3befc3b503f04) == 0xecc3befc3b51e683
  {
    hide Xor, XorShift;
    UnshiftIs(0xecc3befc3b503f04);
    DigitTable();
    XorZero(0xecc3befc3b5);
    XorDigit(0xecc3befc3b5, 0x0, 0xecc3befc3b5, 0x0, 0x1, 0x1);
    XorDigit(0xecc3befc3b50, 0x1, 0xecc3befc3b51, 0x3, 0xd, 0xe);
    XorDigit(0xecc3befc3b503, 0x1d, 0xecc3befc3b51e, 0xf, 0x9, 0x6);
    XorDigit(0xecc3befc3b503f, 0x1d9, 0xecc3befc3b51e6, 0x0, 0x8, 0x8);
    XorDigit(0xecc3befc3b503f0, 0x1d98, 0xecc3befc3b51e68, 0x4, 0x7, 0x3);
  }

  lemma ByteSecond()
    ensures XorShift(0x71717d2d36b653f) == 0x71717d2d36b6b11
  {
    hide Xor, XorShift;
    UnshiftIs(0x71717d2d36b653f);
    DigitTable();
    XorZero(0x71717d2d36b6);
    XorDigit(0x71717d2d36b6, 0x0, 0x71717d2d36b6, 0x5, 0xe, 0xb);
    XorDigit(0x71717d2d36b65, 0xe, 0x71717d2d36b6b, 0x3, 0x2, 0x1);
    XorDigit(0x71717d2d36b653, 0xe2, 0x71717d2d36b6b1, 0xf, 0xe, 0x1);
  }

  lemma ByteXor()
    ensures Xor(M, 0x61) == 0xc6a4a7935bd1e9f4
  {
    hide Xor;
    DigitTable();
    XorZero(0xc6a4a7935bd1e9);
    XorDigit(0xc6a4a7935bd1e9, 0x0, 0xc6a4a7935bd1e9, 0x9, 0x6, 0xf);
    XorDigit(0xc6a4a7935bd1e99, 0x6, 0xc6a4a7935bd1e9f, 0x5, 0x1, 0x4);
  }

  lemma ByteProducts()
    ensures Mul(0xc6a4a7935bd1e9f4) == 0xecc3befc3b503f04
    ensures Mul(0xecc3befc3b51e683) == 0x71717d2d36b653f
  {
  }

  /** The key "a". */
  lemma OneByte()
    ensures Hash([0x61], 0) == 0x071717d2d36b6b11
  {
    hide Xor, Load, Pow2, XorShift, TailXor, LittleEndian, Mul;
    ByteProducts();
    XorSym(0, M);
    XorZero(M);
    assert [0x61][0..] == [0x61] && Absorbed(Start(1, 0), [0x61], 0) == M;
    TailIsSum(M, [0x61]);
    OneDigit(0x61);
    ByteXor();
    ByteFirst();
    ByteSecond();
  }

  lemma OneDigit(b: Byte)
    ensures LittleEndian([b]) == b
  {
    assert [b][..0] == [];
  }

  lemma BlockShift()
    ensures XorShift(0x8ffe93405f7bcf85) == 0x8ffe93405f7ad078
  {
    hide Xor, XorShift;
    UnshiftIs(0x8ffe93405f7bcf85);
    DigitTable();
    XorZero(0x8ffe93405f7);
    XorDigit(0x8ffe93405f7, 0x0, 0x8ffe93405f7, 0xb, 0x1, 0xa);
    XorDigit(0x8ffe93405f7b, 0x1, 0x8ffe93405f7a, 0xc, 0x1, 0xd);
    XorDigit(0x8ffe93405f7bc, 0x11, 0x8ffe93405f7ad, 0xf, 0xf, 0x0);
    XorDigit(0x8ffe93405f7bcf, 0x11f, 0x8ffe93405f7ad0, 0x8, 0xf, 0x7);
    XorDigit(0x8ffe93405f7bcf8, 0x11ff, 0x8ffe93405f7ad07, 0x5, 0xd, 0x8);
  }

  lemma BlockFirst()
    ensures XorShift(0xb1ce107be51a8630) == 0xb1ce107be51be5ac
  {
    hide Xor, XorShift;
    UnshiftIs(0xb1ce107be51a8630);
    DigitTable();
    XorZero(0xb1ce107be51);
    XorDigit(0xb1ce107be51, 0x0, 0xb1ce107be51, 0xa, 0x1, 0xb);
    XorDigit(0xb1ce107be51a, 0x1, 0xb1ce107be51b, 0x8, 0x6, 0xe);
    XorDigit(0xb1ce107be51a8, 0x16, 0xb1ce107be51be, 0x6, 0x3, 0x5);
    XorDigit(0xb1ce107be51a86, 0x163, 0xb1ce107be51be5, 0x3, 0x9, 0xa);
    XorDigit(0xb1ce107be51a863, 0x1639, 0xb1ce107be51be5a, 0x0, 0xc, 0xc);
  }

  lemma BlockSecond()
    ensures XorShift(0x758f67d162b2391c) == 0x758f67d162b2d202
  {
    hide Xor, XorShift;
    UnshiftIs(0x758f67d162b2391c);
    DigitTable();
    XorZero(0x758f67d162b2);
    XorDigit(0x758f67d162b2, 0x0, 0x758f67d162b2, 0x3, 0xe, 0xd);
    XorDigit(0x758f67d162b23, 0xe, 0x758f67d162b2d, 0x9, 0xb, 0x2);
    XorDigit(0x758f67d162b239, 0xeb, 0x758f67d162b2d2, 0x1, 0x1, 0x0);
    XorDigit(0x758f67d162b2391, 0xeb1, 0x758f67d162b2d20, 0xc, 0xe, 0x2);
  }

  lemma BlockXor()
    ensures Xor(0x35253c9ade8f4ca8, 0xeb13e3a534308dd8) == 0xde36df3feabfc170
  {
    hide Xor;
    DigitTable();
    XorZero(0x0);
    XorDigit(0x0, 0x0, 0x0, 0x3, 0xe, 0xd);
    XorDigit(0x3, 0xe, 0xd, 0x5, 0xb, 0xe);
    XorDigit(0x35, 0xeb, 0xde, 0x2, 0x1, 0x3);
    XorDigit(0x352, 0xeb1, 0xde3, 0x5, 0x3, 0x6);
    XorDigit(0x3525, 0xeb13, 0xde36, 0x3, 0xe, 0xd);
    XorDigit(0x35253, 0xeb13e, 0xde36d, 0xc, 0x3, 0xf);
    XorDigit(0x35253c, 0xeb13e3, 0xde36df, 0x9, 0xa, 0x3);
    XorDigit(0x35253c9, 0xeb13e3a, 0xde36df3, 0xa, 0x5, 0xf);
    XorDigit(0x35253c9a, 0xeb13e3a5, 0xde36df3f, 0xd, 0x3, 0xe);
    XorDigit(0x35253c9ad, 0xeb13e3a53, 0xde36df3fe, 0xe, 0x4, 0xa);
    XorDigit(0x35253c9ade, 0xeb13e3a534, 0xde36df3fea, 0x8, 0x3, 0xb);
    XorDigit(0x35253c9ade8, 0xeb13e3a5343, 0xde36df3feab, 0xf, 0x0, 0xf);
    XorDigit(0x35253c9ade8f, 0xeb13e3a53430, 0xde36df3feabf, 0x4, 0x8, 0xc);
    XorDigit(0x35253c9ade8f4, 0xeb13e3a534308, 0xde36df3feabfc, 0xc, 0xd, 0x1);
    XorDigit(0x35253c9ade8f4c, 0xeb13e3a534308d, 0xde36df3feabfc1, 0xa, 0xd, 0x7);
    XorDigit(0x35253c9ade8f4ca, 0xeb13e3a534308dd, 0xde36df3feabfc17, 0x8, 0x8, 0x0);
  }

  /** "12345678" */
  const DIGITS: seq<Byte> := [0x31, 0x32, 0x33, 0x34, 0x35, 0x36, 0x37, 0x38]

  lemma LoadNext(s: seq<Byte>, i: nat)
    requires i < |s|
    ensures Load(s[i..]) == s[i] + 256 * Load(s[i + 1..])
  {
    assert s[i..][1..] == s[i + 1..];
  }

  lemma LoadDigits()
    ensures Load(DIGITS) == 0x3837363534333231
  {
    hide Load;
    LoadNothing();
    assert DIGITS[8..] == [] && DIGITS[0..] == DIGITS;
    LoadNext(DIGITS, 7);
    LoadNext(DIGITS, 6);
    LoadNext(DIGITS, 5);
    LoadNext(DIGITS, 4);
    LoadNext(DIGITS, 3);
    LoadNext(DIGITS, 2);
    LoadNext(DIGITS, 1);
    LoadNext(DIGITS, 0);
  }

  lemma LoadNothing()
    ensures Load([]) == 0
  {
  }

  lemma BlockProducts()
    ensures Mul(0x3837363534333231) == 0x8ffe93405f7bcf85
    ensures Mul(0x8ffe93405f7ad078) == 0xeb13e3a534308dd8
    ensures Mul(0xde36df3feabfc170) == 0xb1ce107be51a8630
  {
  }

  lemma DigitsAbsorbed()
    ensures Absorb(0x35253c9ade8f4ca8, 0x3837363534333231) == 0xb1ce107be51a8630
  {
    hide Xor, XorShift, Mul;
    BlockProducts();
    BlockShift();
    BlockXor();
  }

  lemma OneBlock()
    ensures Hash(DIGITS, 0) == 0x758f67d162b2d202
  {
    hide Xor, Load, Pow2, Absorb, XorShift;
    XorSym(0, 8 * M % W);
    XorZero(8 * M % W);
    var start := Start(8, 0);
    assert start == 0x35253c9ade8f4ca8;
    assert DIGITS[0..8] == DIGITS && DIGITS[8..] == [];
    LoadDigits();
    assert Block(DIGITS, 0) == 0x3837363534333231;
    DigitsAbsorbed();
    assert Absorbed(start, DIGITS, 1) == Absorb(Absorbed(start, DIGITS, 0), Block(DIGITS, 0));
    BlockFirst();
    BlockSecond();
  }
}
