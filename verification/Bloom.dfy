/** The optional Bloom filter of a table: a bit vector addressed by the low bits of the hash. */
module Bloom {
  import opened Bits

  function ByteLen(nbits: nat): nat {
    Pow2(nbits) / 8 + if Pow2(nbits) % 8 != 0 then 1 else 0
  }

  /** A filter with no bit set. */
  function NoBits(nbits: nat): seq<bv8> {
    seq(ByteLen(nbits), _ => 0)
  }

  /** The masked hash value of HASH_BLOOM_ADD and HASH_BLOOM_TEST. */
  function Index(hashv: nat, nbits: nat): (i: nat)
    ensures i < 8 * ByteLen(nbits)
  {
    AndMask(hashv, nbits);
    And(hashv, Pow2(nbits) - 1)
  }

  /** It is the remainder of the hash by the number of bits. */
  lemma IndexIsMod(hashv: nat, nbits: nat)
    ensures Index(hashv, nbits) == hashv % Pow2(nbits) < Pow2(nbits) <= 8 * ByteLen(nbits)
  {
    AndMask(hashv, nbits);
  }

  /** Bit `hashv` modulo the number of bits is set, and all others stay as they were. */
  ghost predicate Marked(before: seq<bv8>, hashv: nat, nbits: nat, after: seq<bv8>) {
    && |after| == |before| == ByteLen(nbits)
    && forall i | 0 <= i < 8 * |after| :: BitTest(after, i) <==> i == hashv % Pow2(nbits) || BitTest(before, i)
  }

  function Mask(k: nat): bv8
    requires k < 8
  {
    (1 as bv8) << k
  }

  /** HASH_BLOOM_BITTEST */
  predicate BitTest(bv: seq<bv8>, idx: nat)
    requires idx < 8 * |bv|
  {
    bv[idx / 8] & Mask(idx % 8) != 0
  }

  lemma MaskCases(k: nat)
    requires k < 8
    ensures Mask(k) == if k == 0 then 1 else if k == 1 then 2 else if k == 2 then 4 else if k == 3 then 8
                  else if k == 4 then 16 else if k == 5 then 32 else if k == 6 then 64 else 128
  {
  }

  lemma OrMask(x: bv8, s: nat, t: nat)
    requires s < 8 && t < 8
    ensures (x | Mask(s)) & Mask(t) != 0 <==> s == t || x & Mask(t) != 0
  {
    MaskCases(s);
    MaskCases(t);
  }

  /** HASH_BLOOM_BITSET sets one bit and clears none. */
  method BitSet(bv: array<bv8>, idx: nat)
    requires idx < 8 * bv.Length
    modifies bv
    ensures forall j | 0 <= j < 8 * bv.Length :: BitTest(bv[..], j) <==> j == idx || BitTest(old(bv[..]), j)
  {
    bv[idx / 8] := bv[idx / 8] | Mask(idx % 8);
    forall j | 0 <= j < 8 * bv.Length
      ensures BitTest(bv[..], j) <==> j == idx || BitTest(old(bv[..]), j)
    {
      OrMask(old(bv[idx / 8]), idx % 8, j % 8);
    }
  }
}
