/** The bucket array together with the chains that hang off it. */
module Chains {
  import opened Bits
  import opened Items
  import opened Links
  import opened Buckets

  /** Bucket `b` heads the chain `c` and counts it exactly. */
  ghost predicate Heads(b: Bucket, c: seq<Item>)
    reads c`hhPrev, c`hhNext
  {
    b.hhHead == At(c, 0) && b.count == |c| && Distinct(c) && ChainLinked(c)
  }

  /** Every member is on the chain its hash value selects, and the chains hold nothing else. */
  ghost predicate Placed(chains: seq<seq<Item>>, members: set<Item>)
    requires |chains| >= 1
    reads members`hashv
  {
    && (forall b, x | 0 <= b < |chains| && x in chains[b] :: x in members && ToBkt(x.hashv, |chains|) == b)
    && (forall x | x in members :: x in chains[ToBkt(x.hashv, |chains|)])
  }

  ghost predicate Inside(chains: seq<seq<Item>>, members: set<Item>) {
    forall b, x | 0 <= b < |chains| && x in chains[b] :: x in members
  }

  ghost predicate Chained(bs: seq<Bucket>, chains: seq<seq<Item>>, members: set<Item>)
    reads members`hashv, members`hhPrev, members`hhNext
  {
    && |bs| == |chains| >= 1
    && Inside(chains, members)
    && (forall b | 0 <= b < |bs| :: Heads(bs[b], chains[b]))
    && Placed(chains, members)
  }

  /** Link `x` in at the front of bucket `b`, whose count has become `count` and whose multiplier
      `expandMult`. */
  method PushInto(buckets: array<Bucket>, b: nat, x: Item, count: nat, expandMult: nat,
                  ghost chains: seq<seq<Item>>, ghost members: set<Item>)
    requires Chained(buckets[..], chains, members) && x !in members
    requires b < buckets.Length && b == ToBkt(x.hashv, buckets.Length)
    requires count == buckets[b].count + 1
    modifies buckets, {x}`hhPrev, {x}`hhNext, Objects(buckets[b].hhHead)`hhPrev
    ensures buckets[..] == old(buckets[..])[b := Bucket(x, count, expandMult)]
    ensures Chained(buckets[..], chains[b := [x] + chains[b]], members + {x})
  {
    ghost var c := chains[b];
    var head := buckets[b].hhHead;
    assert Heads(buckets[..][b], c);
    ChainsDisjoint(chains, members, b, x);
    assert head == null || head in c;
    PushChain(head, x, c);
    forall i | 0 <= i < |chains| && i != b
      ensures Heads(old(buckets[..])[i], chains[i])
    {
      assert old(Heads(buckets[..][i], chains[i]));
      assert forall y | y in chains[i] :: y.hhPrev == old(y.hhPrev) && y.hhNext == old(y.hhNext);
    }
    buckets[b] := Bucket(x, count, expandMult);
    PlacedWith(chains, members, b, x);
    ReplacedChain(old(buckets[..]), chains, members + {x}, b, buckets[b], [x] + c);
  }

  /** Changing one bucket together with its chain. */
  lemma ReplacedChain(bs: seq<Bucket>, chains: seq<seq<Item>>, members: set<Item>,
                      b: nat, bucket: Bucket, c: seq<Item>)
    requires |bs| == |chains| && b < |bs|
    requires forall k | 0 <= k < |bs| && k != b :: Heads(bs[k], chains[k])
    requires Heads(bucket, c) && Placed(chains[b := c], members)
    ensures Chained(bs[b := bucket], chains[b := c], members)
  {
    var bs', chains' := bs[b := bucket], chains[b := c];
    forall k | 0 <= k < |bs|
      ensures Heads(bs'[k], chains'[k])
    {
      assert k == b || Heads(bs[k], chains[k]);
    }
  }

  /** No other chain holds `x` or an item of chain `b`. */
  lemma ChainsDisjoint(chains: seq<seq<Item>>, members: set<Item>, b: nat, x: Item)
    requires |chains| >= 1 && Placed(chains, members)
    requires b < |chains| && (x !in members || x in chains[b])
    ensures forall i, y | 0 <= i < |chains| && i != b && y in chains[i] :: y != x && y !in chains[b]
  {
    forall i, y | 0 <= i < |chains| && i != b && y in chains[i]
      ensures y != x && y !in chains[b]
    {
      assert y in members && ToBkt(y.hashv, |chains|) == i;
    }
  }

  lemma PlacedWith(chains: seq<seq<Item>>, members: set<Item>, b: nat, x: Item)
    requires |chains| >= 1 && Placed(chains, members)
    requires b == ToBkt(x.hashv, |chains|)
    ensures Placed(chains[b := [x] + chains[b]], members + {x})
  {
    var chains' := chains[b := [x] + chains[b]];
    forall y | y in members + {x}
      ensures y in chains'[ToBkt(y.hashv, |chains|)]
    {
      assert x in chains'[b] && forall z | z in chains[b] :: z in chains'[b];
    }
  }

  /** HASH_DEL_IN_BKT: drop `x` from bucket `b`; `i` is its place on the chain. */
  method DelInBkt(buckets: array<Bucket>, b: nat, x: Item, ghost i: nat,
                  ghost chains: seq<seq<Item>>, ghost members: set<Item>)
    requires Chained(buckets[..], chains, members)
    requires b < buckets.Length && i < |chains[b]| && chains[b][i] == x
    modifies buckets, Objects(At(chains[b], i - 1))`hhNext, Objects(At(chains[b], i + 1))`hhPrev
    ensures |chains[b]| == old(buckets[b].count) >= 1
    ensures var bucket := old(buckets[b]);
            buckets[..] ==
            old(buckets[..])[b := Bucket(At(Without(chains[b], i), 0), bucket.count - 1, bucket.expandMult)]
    ensures Chained(buckets[..], chains[b := Without(chains[b], i)], members - {x})
  {
    hide Placed, Distinct;
    ghost var c, bs := chains[b], buckets[..];
    assert Heads(bs[b], c);
    PlacedWithout(chains, members, b, i);
    buckets[b] := buckets[b].(count := buckets[b].count - 1);
    if buckets[b].hhHead == x {
      buckets[b] := buckets[b].(hhHead := x.hhNext);
    }
    assert buckets[b].hhHead == At(Without(c, i), 0);
    assert buckets[..] == bs[b := buckets[b]];
    UnlinkOnly(x, bs, chains, members, b, i);
    ReplacedChain(bs, chains, members - {x}, b, buckets[b], Without(c, i));
  }

  /** Unlinking `x` from chain `b` leaves every other chain as it was. */
  method UnlinkOnly(x: Item, ghost bs: seq<Bucket>, ghost chains: seq<seq<Item>>, ghost members: set<Item>,
                    ghost b: nat, ghost i: nat)
    requires Chained(bs, chains, members)
    requires b < |chains| && i < |chains[b]| && chains[b][i] == x
    modifies Objects(At(chains[b], i - 1))`hhNext, Objects(At(chains[b], i + 1))`hhPrev
    ensures ChainLinked(Without(chains[b], i)) && Distinct(Without(chains[b], i))
    ensures forall k | 0 <= k < |chains| && k != b :: Heads(bs[k], chains[k])
  {
    ghost var c := chains[b];
    assert Heads(bs[b], c);
    ChainsDisjoint(chains, members, b, x);
    UnlinkChain(x, c, i);
    forall k | 0 <= k < |chains| && k != b
      ensures Heads(bs[k], chains[k])
    {
      assert old(Heads(bs[k], chains[k]));
      assert forall y | y in chains[k] :: y !in c;
      assert forall y | y in chains[k] :: y.hhPrev == old(y.hhPrev) && y.hhNext == old(y.hhNext);
    }
  }

  lemma PlacedWithout(chains: seq<seq<Item>>, members: set<Item>, b: nat, i: nat)
    requires |chains| >= 1 && Placed(chains, members)
    requires b < |chains| && i < |chains[b]| && Distinct(chains[b])
    ensures Placed(chains[b := Without(chains[b], i)], members - {chains[b][i]})
  {
    var c, x := chains[b], chains[b][i];
    var chains' := chains[b := Without(c, i)];
    forall k, y | 0 <= k < |chains'| && y in chains'[k]
      ensures y in members - {x} && ToBkt(y.hashv, |chains|) == k
    {
      WithoutElements(c, i, y);
      assert y in chains[k];
      assert x in chains[b];
    }
    forall y | y in members - {x}
      ensures y in chains'[ToBkt(y.hashv, |chains|)]
    {
      WithoutElements(c, i, y);
    }
  }

  /** HASH_FIND_IN_BKT: the first item on the chain with this hash value and key, or null. */
  method FindInBkt(bucket: Bucket, key: seq<Byte>, hashval: nat, ghost c: seq<Item>) returns (out: Item?)
    requires Heads(bucket, c)
    ensures out == null ==> forall x | x in c :: !Matches(x, key, hashval)
    ensures out != null ==> exists i | 0 <= i < |c| :: out == c[i] && FirstAt(c, i, key, hashval)
  {
    hide Distinct;
    out := bucket.hhHead;
    ghost var k := 0;
    while out != null
      invariant 0 <= k <= |c| && out == At(c, k)
      invariant forall j | 0 <= j < k :: !Matches(c[j], key, hashval)
      decreases |c| - k
    {
      if out.hashv == hashval && |out.key| == |key| && out.key == key {
        assert FirstAt(c, k, key, hashval);
        break;
      }
      out := out.hhNext;
      k := k + 1;
    }
  }

  /** Item `i` has this key and hash value, and none before it has. */
  ghost predicate FirstAt(c: seq<Item>, i: nat, key: seq<Byte>, hashval: nat)
    requires i < |c|
    reads c`hashv
  {
    && c[i].hashv == hashval && c[i].key == key
    && forall j | 0 <= j < i :: c[j].hashv != hashval || c[j].key != key
  }

  predicate Matches(x: Item, key: seq<Byte>, hashval: nat)
    reads x`hashv
  {
    x.hashv == hashval && x.key == key
  }
}
