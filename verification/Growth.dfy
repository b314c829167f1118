/** How a table grows: what every add and delete does to the bookkeeping, in plain arithmetic, and what
    that comes to over all doublings since the table was made. */
module Growth {
  import opened Bits
  import opened Buckets
  import opened Expansion

  /** The bookkeeping fields of a table. */
  datatype Size = Size(numBuckets: nat, log2NumBuckets: nat, idealChainMaxlen: nat, nonidealItems: nat,
                       ineffExpands: nat, noexpand: bool)

  /** A table just made: 32 empty buckets. */
  const FRESH := Size(32, 5, 0, 0, 0, false)

  ghost function EmptyBuckets(): seq<Bucket> {
    seq(32, _ => Bucket(null, 0, 0))
  }

  /** The bookkeeping of the buckets after a doubling. */
  ghost predicate Measured(bs: seq<Bucket>, ideal: nat, nonideal: nat) {
    && (forall b | b in bs && b.count <= ideal :: b.expandMult == 0)
    && (forall b | b in bs && b.count > ideal ::
          b.expandMult * ideal <= b.count < b.expandMult * ideal + ideal)
    && nonideal == Sum(Excess(ideal), bs)
  }

  /** A doubling: the ideal chain length is the ceiling of items over new buckets, and the second one in a
      row that leaves more than half of the items beyond it inhibits further ones. */
  ghost predicate Doubled(before: Size, numItems: nat, after: Size, bs: seq<Bucket>) {
    && after.numBuckets == |bs| == 2 * before.numBuckets && after.log2NumBuckets == before.log2NumBuckets + 1
    && (after.idealChainMaxlen - 1) * after.numBuckets < numItems <= after.idealChainMaxlen * after.numBuckets
    && Measured(bs, after.idealChainMaxlen, after.nonidealItems)
    && after.ineffExpands == (if after.nonidealItems > numItems / 2 then before.ineffExpands + 1 else 0)
    && after.noexpand == (after.ineffExpands > 1)
  }

  /** Bucket `b` gets one item more, and all others stay. */
  ghost predicate OneMore(bs: seq<Bucket>, b: nat, bs': seq<Bucket>) {
    && |bs'| == |bs| && b < |bs|
    && bs'[b].count == bs[b].count + 1 && bs'[b].expandMult == bs[b].expandMult
    && forall i | 0 <= i < |bs| && i != b :: bs'[i] == bs[i]
  }

  /** Adding an item to bucket `b`: the table doubles exactly if the bucket then has ten items for each
      unit of its multiplier, and one more ten, and doubling is not inhibited. */
  ghost predicate Grows(before: Size, bs: seq<Bucket>, b: nat, numItems: nat, after: Size, bs': seq<Bucket>) {
    && b < |bs|
    && if bs[b].count + 1 >= 10 * (bs[b].expandMult + 1) && !before.noexpand
       then Doubled(before, numItems, after, bs')
       else after == before && OneMore(bs, b, bs')
  }

  /** Adding an item with this hash value to a table. */
  ghost predicate AddGrows(before: Size, bs: seq<Bucket>, hashv: nat, numItems: nat, after: Size, bs': seq<Bucket>) {
    |bs| >= 1 && Grows(before, bs, ToBkt(hashv, |bs|), numItems, after, bs')
  }

  /** Replacing an item, other than the only one, by one with this hash value: its bucket ends up with as
      many items as before, and the table doubles if that is its threshold. */
  ghost predicate ReplaceGrows(before: Size, bs: seq<Bucket>, hashv: nat, numItems: nat,
                               after: Size, bs': seq<Bucket>) {
    && |bs| >= 1
    && var b := ToBkt(hashv, |bs|);
       if bs[b].count >= 10 * (bs[b].expandMult + 1) && !before.noexpand
       then Doubled(before, numItems, after, bs')
       else
         && after == before && |bs'| == |bs|
         && bs'[b].count == bs[b].count && bs'[b].expandMult == bs[b].expandMult
         && forall i | 0 <= i < |bs| && i != b :: bs'[i] == bs[i]
  }

  /** A replace is a delete and an add. */
  lemma DeleteThenAdd(before: Size, bs: seq<Bucket>, bs1: seq<Bucket>, hashv: nat, numItems: nat, after: Size,
                      bs': seq<Bucket>)
    requires |bs| >= 1 && OneMore(bs1, ToBkt(hashv, |bs|), bs) && AddGrows(before, bs1, hashv, numItems, after, bs')
    ensures ReplaceGrows(before, bs, hashv, numItems, after, bs')
  {
    hide ToBkt, Doubled;
  }

  lemma TalliedIsMeasured(bs: seq<Bucket>, ideal: nat, nonideal: nat)
    requires ideal >= 1 && Tallied(bs, ideal, nonideal)
    ensures Measured(bs, ideal, nonideal)
    ensures forall b: Bucket :: Excess(ideal)(b) == if b.count > ideal then b.count - ideal else 0
  {
    forall b | b in bs && b.count > ideal
      ensures b.expandMult * ideal <= b.count < b.expandMult * ideal + ideal
    {
      FloorOf(b.count, ideal);
    }
  }

  lemma FloorOf(count: nat, ideal: nat)
    requires ideal >= 1
    ensures count / ideal * ideal <= count < count / ideal * ideal + ideal
  {
    assert count == count / ideal * ideal + count % ideal;
  }

  // ---- over all doublings

  /** How many of the last doublings in a row were ineffective. */
  function InARow(doublings: seq<bool>): nat {
    if doublings == [] || !doublings[|doublings| - 1] then 0 else InARow(doublings[..|doublings| - 1]) + 1
  }

  /** Two doublings in a row were ineffective. */
  ghost predicate TwiceInARow(doublings: seq<bool>) {
    exists i | 0 <= i < |doublings| - 1 :: doublings[i] && doublings[i + 1]
  }

  /** What the bookkeeping says of the doublings since the table was made; `doublings[i]` says that doubling
      `i` left more than half of the items beyond the ideal chain length. */
  ghost predicate Tells(size: Size, doublings: seq<bool>) {
    && size.numBuckets == 32 * Pow2(|doublings|) && size.log2NumBuckets == 5 + |doublings|
    && (size.noexpand <==> TwiceInARow(doublings))
    && size.ineffExpands == InARow(doublings)
    && (size.ineffExpands > 1 ==> size.noexpand)
  }

  lemma FreshTells()
    ensures Tells(FRESH, [])
  {
  }

  /** A doubling adds its verdict; as long as no two in a row were ineffective, the next one may come. */
  lemma DoubledTells(before: Size, numItems: nat, after: Size, bs: seq<Bucket>, doublings: seq<bool>)
    requires Tells(before, doublings) && !before.noexpand && Doubled(before, numItems, after, bs)
    ensures Tells(after, doublings + [after.nonidealItems > numItems / 2])
  {
    var bad := after.nonidealItems > numItems / 2;
    var d := doublings + [bad];
    var k := |doublings|;
    assert d[..k] == doublings;
    forall i | 0 <= i < k - 1
      ensures !(d[i] && d[i + 1])
    {
      assert d[i] == doublings[i] && d[i + 1] == doublings[i + 1];
    }
    if after.ineffExpands > 1 {
      assert d[k - 1] && d[k - 1 + 1];
    }
  }
}
