/** HASH_EXPAND_BUCKETS: moving every item from `n` old chains to `2n` new ones. */
module Expansion {
  import opened Bits
  import opened Items
  import opened Links
  import opened Buckets
  import opened Chains

  /** The items of `s` that hash to bucket `j` of `n`, last one first. */
  ghost function PickedReversed(s: seq<Item>, j: nat, n: nat): seq<Item>
    requires n >= 1
    reads s`hashv
  {
    if s == [] then []
    else
      var x := s[|s| - 1];
      (if ToBkt(x.hashv, n) == j then [x] else []) + PickedReversed(s[..|s| - 1], j, n)
  }

  /** The two new chains an old chain is split into together hold exactly its items, and each new
      chain holds the items that hash to it. */
  lemma SplitLosesNothing(s: seq<Item>, b: nat, k: nat)
    requires forall x | x in s :: ToBkt(x.hashv, Pow2(k)) == b
    ensures var n := Pow2(k);
            multiset(PickedReversed(s, b, 2 * n)) + multiset(PickedReversed(s, b + n, 2 * n)) == multiset(s)
    ensures forall j, x | x in PickedReversed(s, j, 2 * Pow2(k)) :: ToBkt(x.hashv, 2 * Pow2(k)) == j
  {
    hide ToBkt, PickedReversed;
    var n := Pow2(k);
    forall x | x in s
      ensures ToBkt(x.hashv, 2 * n) == b || ToBkt(x.hashv, 2 * n) == b + n
    {
      ToBktDouble(x.hashv, k);
    }
    SplitInTwo(s, b, b + n, 2 * n);
    forall j, x | x in PickedReversed(s, j, 2 * n)
      ensures ToBkt(x.hashv, 2 * n) == j
    {
      PickedHashes(s, j, 2 * n, x);
    }
  }

  lemma {:induction false} SplitInTwo(s: seq<Item>, b: nat, c: nat, n: nat)
    requires n >= 1 && b != c
    requires forall x | x in s :: ToBkt(x.hashv, n) == b || ToBkt(x.hashv, n) == c
    ensures multiset(PickedReversed(s, b, n)) + multiset(PickedReversed(s, c, n)) == multiset(s)
  {
    hide ToBkt, PickedReversed;
    if s == [] {
      NothingPicked(b, n);
      NothingPicked(c, n);
    } else {
      var i := |s| - 1;
      SplitInTwo(s[..i], b, c, n);
      PickedLast(s, b, n);
      PickedLast(s, c, n);
      assert s == s[..i] + [s[i]];
      assert s[i] in s;
      assert multiset(s) == multiset(s[..i]) + multiset{s[i]};
    }
  }

  lemma NothingPicked(j: nat, n: nat)
    requires n >= 1
    ensures PickedReversed([], j, n) == []
  {
  }

  lemma PickedLast(s: seq<Item>, j: nat, n: nat)
    requires n >= 1 && s != []
    ensures var i := |s| - 1;
            multiset(PickedReversed(s, j, n)) ==
            multiset(PickedReversed(s[..i], j, n)) + if ToBkt(s[i].hashv, n) == j then multiset{s[i]} else multiset{}
  {
    hide ToBkt;
  }

  lemma {:induction false} PickedHashes(s: seq<Item>, j: nat, n: nat, x: Item)
    requires n >= 1 && x in PickedReversed(s, j, n)
    ensures ToBkt(x.hashv, n) == j
  {
    hide ToBkt;
    if x != s[|s| - 1] || ToBkt(x.hashv, n) != j {
      PickedHashes(s[..|s| - 1], j, n, x);
    }
  }

  /** Within a new chain the old order is reversed: of two items of the old chain, the later one
      comes first. */
  lemma {:induction false} SplitReverses(s: seq<Item>, j: nat, n: nat, p: nat, q: nat)
    requires n >= 1 && p < q < |PickedReversed(s, j, n)|
    ensures exists a, b | 0 <= b < a < |s| :: s[a] == PickedReversed(s, j, n)[p] && s[b] == PickedReversed(s, j, n)[q]
  {
    var i := |s| - 1;
    var rest := PickedReversed(s[..i], j, n);
    if ToBkt(s[i].hashv, n) != j {
      SplitReverses(s[..i], j, n, p, q);
    } else if p > 0 {
      SplitReverses(s[..i], j, n, p - 1, q - 1);
    } else {
      PickedFrom(s[..i], j, n, q - 1);
      var b :| 0 <= b < i && s[..i][b] == rest[q - 1];
      assert s[i] == PickedReversed(s, j, n)[0] && s[b] == PickedReversed(s, j, n)[q];
    }
  }

  lemma {:induction false} PickedFrom(s: seq<Item>, j: nat, n: nat, p: nat)
    requires n >= 1 && p < |PickedReversed(s, j, n)|
    ensures exists b | 0 <= b < |s| :: s[b] == PickedReversed(s, j, n)[p]
  {
    var i := |s| - 1;
    if ToBkt(s[i].hashv, n) == j {
      if p == 0 {
        assert s[i] == PickedReversed(s, j, n)[0];
      } else {
        PickedFrom(s[..i], j, n, p - 1);
      }
    } else {
      PickedFrom(s[..i], j, n, p);
    }
  }

  /** The part of chain `b` already moved, when chains below `i` and the first `k` items of chain
      `i` have been. */
  ghost function Done(from: seq<seq<Item>>, i: nat, k: nat, b: nat): seq<Item>
    requires b < |from| && (i < |from| ==> k <= |from[i]|)
  {
    if b < i then from[b] else if b == i then from[i][..k] else []
  }

  ghost predicate Covers(members: set<Item>, from: seq<seq<Item>>) {
    forall b, x | 0 <= b < |from| && x in from[b] :: x in members
  }

  /** Each new chain is the reverse of what has been picked from its one old chain. */
  ghost predicate Split(from: seq<seq<Item>>, i: nat, k: nat, to: seq<seq<Item>>, members: set<Item>)
    requires |from| >= 1 && (i < |from| ==> k <= |from[i]|)
    requires Covers(members, from)
    reads members`hashv
  {
    && |to| == 2 * |from|
    && forall j | 0 <= j < |to| :: to[j] == SplitChain(from, i, k, j, members)
  }

  ghost function SplitChain(from: seq<seq<Item>>, i: nat, k: nat, j: nat, members: set<Item>): seq<Item>
    requires |from| >= 1 && (i < |from| ==> k <= |from[i]|)
    requires Covers(members, from)
    reads members`hashv
  {
    var done := Done(from, i, k, j % |from|);
    assert forall x | x in done :: x in from[j % |from|];
    PickedReversed(done, j, 2 * |from|)
  }

  /** What is left to move still hangs together: the rest of chain `i` by `hhNext`, and every
      later chain untouched. */
  ghost predicate StillChained(from: seq<seq<Item>>, i: nat, k: nat, members: set<Item>)
    requires i < |from| ==> k <= |from[i]|
    requires Covers(members, from)
    reads members`hhPrev, members`hhNext
  {
    && (i < |from| ==> RestLinked(from[i], k, members))
    && (forall b | i < b < |from| :: StillLinked(from[b], members))
  }

  ghost predicate RestLinked(c: seq<Item>, k: nat, members: set<Item>)
    requires forall x | x in c :: x in members
    reads members`hhNext
  {
    forall m | k <= m < |c| :: c[m].hhNext == At(c, m + 1)
  }

  ghost predicate StillLinked(c: seq<Item>, members: set<Item>)
    requires forall x | x in c :: x in members
    reads members`hhPrev, members`hhNext
  {
    ChainLinked(c)
  }

  /** The old chains, as far as moving them is concerned. */
  ghost predicate Source(from: seq<seq<Item>>, members: set<Item>)
    reads members`hashv
  {
    && |from| >= 1
    && Placed(from, members)
    && Covers(members, from)
    && forall b | 0 <= b < |from| :: Distinct(from[b])
  }

  /** `moved` is what has been moved so far. */
  ghost predicate MovedSoFar(from: seq<seq<Item>>, i: nat, k: nat, moved: set<Item>, members: set<Item>)
    requires |from| >= 1 && (i < |from| ==> k <= |from[i]|)
    reads members`hashv
  {
    && moved <= members
    && forall x | x in members :: x in moved <==> x in Done(from, i, k, ToBkt(x.hashv, |from|))
  }

  /** Items behind the one being moved are still in their old chains only. */
  lemma RestNotMoved(from: seq<seq<Item>>, i: nat, k: nat, moved: set<Item>, members: set<Item>)
    requires Source(from, members) && i < |from| && k < |from[i]|
    requires MovedSoFar(from, i, k, moved, members)
    ensures from[i][k] !in moved
    ensures forall m | k < m < |from[i]| :: from[i][m] !in moved && from[i][m] != from[i][k]
    ensures forall b, y | i < b < |from| && y in from[b] :: y !in moved && y != from[i][k]
  {
    assert from[i][k] in from[i];
    forall m | k <= m < |from[i]|
      ensures from[i][m] !in moved
    {
      assert from[i][m] in from[i];
    }
    forall b, y | i < b < |from| && y in from[b]
      ensures y !in moved && y != from[i][k]
    {
      assert y in members && ToBkt(y.hashv, |from|) == b;
    }
  }

  lemma MovedStep(from: seq<seq<Item>>, i: nat, k: nat, moved: set<Item>, members: set<Item>)
    requires Source(from, members) && i < |from| && k < |from[i]|
    requires MovedSoFar(from, i, k, moved, members)
    ensures MovedSoFar(from, i, k + 1, moved + {from[i][k]}, members)
  {
    var x := from[i][k];
    assert x in from[i];
    assert from[i][..k + 1] == from[i][..k] + [x];
  }

  /** Moving item `k` of chain `i` extends the split by that item. */
  lemma SplitStep(from: seq<seq<Item>>, i: nat, k: nat, to: seq<seq<Item>>, members: set<Item>, lb: nat)
    requires Source(from, members) && |from| == Pow2(lb)
    requires i < |from| && k < |from[i]| && Split(from, i, k, to, members)
    ensures var x := from[i][k];
            var b := ToBkt(x.hashv, |to|);
            Split(from, i, k + 1, to[b := [x] + to[b]], members)
  {
    var x, n := from[i][k], |from|;
    var b := ToBkt(x.hashv, |to|);
    assert b % n == i by {
      ToBktDouble(x.hashv, lb);
      assert x in from[i];
    }
    var to' := to[b := [x] + to[b]];
    forall j | 0 <= j < |to'|
      ensures to'[j] == SplitChain(from, i, k + 1, j, members)
    {
      if j % n == i {
        assert from[i][..k + 1][..k] == from[i][..k];
      }
    }
  }

  /** Finishing chain `i` is the same as not having started chain `i + 1`. */
  lemma NextChain(from: seq<seq<Item>>, i: nat, to: seq<seq<Item>>, moved: set<Item>, members: set<Item>)
    requires Source(from, members) && i < |from|
    requires Split(from, i, |from[i]|, to, members) && MovedSoFar(from, i, |from[i]|, moved, members)
    ensures Split(from, i + 1, 0, to, members) && MovedSoFar(from, i + 1, 0, moved, members)
  {
    assert forall b | 0 <= b < |from| :: Done(from, i, |from[i]|, b) == Done(from, i + 1, 0, b);
    forall j | 0 <= j < |to|
      ensures to[j] == SplitChain(from, i + 1, 0, j, members)
    {
      assert to[j] == SplitChain(from, i, |from[i]|, j, members);
    }
  }

  /** The bookkeeping of the new buckets is exact. */
  ghost predicate Tallied(bs: seq<Bucket>, ideal: nat, nonideal: nat) {
    Redistributed(bs, ideal) && nonideal == Sum(Excess(ideal), bs)
  }

  lemma TallyUpdate(bs: seq<Bucket>, ideal: nat, nonideal: nat, b: nat, bucket: Bucket)
    requires ideal >= 1 && Tallied(bs, ideal, nonideal) && b < |bs|
    requires bucket.count == bs[b].count + 1 && bucket.expandMult == MultOf(bucket.count, ideal)
    ensures Tallied(bs[b := bucket], ideal, if bucket.count > ideal then nonideal + 1 else nonideal)
    ensures Sum(Count(), bs[b := bucket]) == Sum(Count(), bs) + 1
  {
    SumUpdate(Excess(ideal), bs, b, bucket);
    SumUpdate(Count(), bs, b, bucket);
    forall c | c in bs[b := bucket]
      ensures c.expandMult == MultOf(c.count, ideal)
    {
      assert c == bucket || c in bs;
    }
  }

  lemma HeadIsMember(bs: seq<Bucket>, chains: seq<seq<Item>>, members: set<Item>, b: nat)
    requires Chained(bs, chains, members) && b < |bs|
    ensures Objects(bs[b].hhHead) <= members
  {
    assert Heads(bs[b], chains[b]);
  }

  /** One turn of the inner loop: `x` goes to the front of its new bucket. */
  method MoveItem(buckets: array<Bucket>, x: Item, ideal: nat, nonideal: nat,
                  ghost to: seq<seq<Item>>, ghost moved: set<Item>) returns (nonideal': nat, ghost to': seq<seq<Item>>)
    requires ideal >= 1 && x !in moved
    requires Chained(buckets[..], to, moved) && Tallied(buckets[..], ideal, nonideal)
    modifies buckets, {x}`hhPrev, {x}`hhNext, moved`hhPrev
    ensures var b := ToBkt(x.hashv, |to|); to' == to[b := [x] + to[b]]
    ensures Chained(buckets[..], to', moved + {x}) && Tallied(buckets[..], ideal, nonideal')
    ensures Sum(Count(), buckets[..]) == Sum(Count(), old(buckets[..])) + 1
  {
    hide Placed, Distinct, Sum, Excess, Count;
    nonideal' := nonideal;
    var b := ToBkt(x.hashv, buckets.Length);
    var count, expandMult := buckets[b].count + 1, buckets[b].expandMult;
    if count > ideal {
      nonideal' := nonideal' + 1;
      expandMult := count / ideal;
    }
    assert Heads(buckets[..][b], to[b]) && buckets[..][b].expandMult == MultOf(count - 1, ideal);
    HeadIsMember(buckets[..], to, moved, b);
    TallyUpdate(buckets[..], ideal, nonideal, b, Bucket(x, count, expandMult));
    to' := to[b := [x] + to[b]];
    PushInto(buckets, b, x, count, expandMult, to, moved);
  }

  /** One turn of the inner loop, seen from the old chains: what is left keeps its links. */
  method MoveNext(buckets: array<Bucket>, x: Item, ideal: nat, nonideal: nat,
                  ghost from: seq<seq<Item>>, ghost i: nat, ghost k: nat, ghost members: set<Item>,
                  ghost to: seq<seq<Item>>, ghost moved: set<Item>) returns (nonideal': nat, ghost to': seq<seq<Item>>)
    requires ideal >= 1 && Source(from, members) && i < |from| && k < |from[i]| && x == from[i][k]
    requires StillChained(from, i, k, members)
    requires Chained(buckets[..], to, moved) && Tallied(buckets[..], ideal, nonideal)
    requires MovedSoFar(from, i, k, moved, members)
    modifies buckets, members`hhPrev, members`hhNext
    ensures var b := ToBkt(x.hashv, |to|); to' == to[b := [x] + to[b]]
    ensures Chained(buckets[..], to', moved + {x}) && Tallied(buckets[..], ideal, nonideal')
    ensures Sum(Count(), buckets[..]) == Sum(Count(), old(buckets[..])) + 1
    ensures StillChained(from, i, k + 1, members)
  {
    hide Placed, Chained, Tallied, ToBkt;
    RestNotMoved(from, i, k, moved, members);
    assert x in from[i] && x in members;
    nonideal', to' := MoveItem(buckets, x, ideal, nonideal, to, moved);
    forall b | i < b < |from|
      ensures StillLinked(from[b], members)
    {
      assert old(StillLinked(from[b], members));
      assert forall y | y in from[b] :: y.hhPrev == old(y.hhPrev) && y.hhNext == old(y.hhNext);
    }
  }

  /** The inner loop: all of chain `i`. */
  method MoveChain(buckets: array<Bucket>, hhHead: Item?, ideal: nat, nonideal0: nat,
                   ghost from: seq<seq<Item>>, ghost i: nat, ghost lb: nat, ghost members: set<Item>,
                   ghost to0: seq<seq<Item>>, ghost moved0: set<Item>)
    returns (nonideal: nat, ghost to: seq<seq<Item>>, ghost moved: set<Item>)
    requires ideal >= 1 && Source(from, members) && |from| == Pow2(lb) && i < |from|
    requires hhHead == At(from[i], 0) && StillChained(from, i, 0, members)
    requires Chained(buckets[..], to0, moved0) && Tallied(buckets[..], ideal, nonideal0)
    requires Split(from, i, 0, to0, members) && MovedSoFar(from, i, 0, moved0, members)
    modifies buckets, members`hhPrev, members`hhNext
    ensures Chained(buckets[..], to, moved) && Tallied(buckets[..], ideal, nonideal)
    ensures Split(from, i + 1, 0, to, members) && MovedSoFar(from, i + 1, 0, moved, members)
    ensures Sum(Count(), buckets[..]) == Sum(Count(), old(buckets[..])) + |from[i]|
    ensures forall b | i < b < |from| :: StillLinked(from[b], members)
  {
    hide Placed, Chained, Tallied, ToBkt, Split, MovedSoFar;
    nonideal, to, moved := nonideal0, to0, moved0;
    ghost var c, k := from[i], 0;
    var thh := hhHead;
    while thh != null
      invariant k <= |c| && thh == At(c, k)
      invariant StillChained(from, i, k, members)
      invariant Chained(buckets[..], to, moved) && Tallied(buckets[..], ideal, nonideal)
      invariant Split(from, i, k, to, members) && MovedSoFar(from, i, k, moved, members)
      invariant Sum(Count(), buckets[..]) == Sum(Count(), old(buckets[..])) + k
      decreases |c| - k
    {
      assert RestLinked(c, k, members);
      var hhNxt := thh.hhNext;
      SplitStep(from, i, k, to, members, lb);
      MovedStep(from, i, k, moved, members);
      nonideal, to := MoveNext(buckets, thh, ideal, nonideal, from, i, k, members, to, moved);
      moved := moved + {thh};
      thh, k := hhNxt, k + 1;
    }
    NextChain(from, i, to, moved, members);
  }

  /** The state before anything has been moved. */
  lemma NothingMoved(bs: seq<Bucket>, ideal: nat, from: seq<seq<Item>>, to: seq<seq<Item>>, members: set<Item>)
    requires Source(from, members) && |bs| == |to| == 2 * |from|
    requires forall b | 0 <= b < |bs| :: bs[b] == Bucket(null, 0, 0)
    requires forall j | 0 <= j < |to| :: to[j] == []
    ensures Chained(bs, to, {}) && Tallied(bs, ideal, 0) && Sum(Count(), bs) == 0
    ensures Split(from, 0, 0, to, members) && MovedSoFar(from, 0, 0, {}, members)
  {
    SumZero(Count(), bs);
    SumZero(Excess(ideal), bs);
    assert forall b | 0 <= b < |from| :: Done(from, 0, 0, b) == [];
  }

  lemma SourceOfChained(bs: seq<Bucket>, chains: seq<seq<Item>>, members: set<Item>)
    requires Chained(bs, chains, members)
    ensures Source(chains, members)
    ensures forall b | 0 <= b < |chains| :: StillLinked(chains[b], members)
    ensures forall b | 0 <= b < |chains| :: bs[b].hhHead == At(chains[b], 0) && bs[b].count == |chains[b]|
  {
    assert forall b | 0 <= b < |bs| :: Heads(bs[b], chains[b]);
  }

  /** Once every chain is done, everything has been moved. */
  lemma AllMoved(from: seq<seq<Item>>, moved: set<Item>, to: seq<seq<Item>>, members: set<Item>)
    requires Source(from, members) && MovedSoFar(from, |from|, 0, moved, members)
    requires Split(from, |from|, 0, to, members)
    ensures moved == members
    ensures |to| == 2 * |from| && forall j | 0 <= j < |to| :: to[j] == PickedReversed(from[j % |from|], j, |to|)
  {
    forall x | x in members
      ensures x in moved
    {
      assert x in from[ToBkt(x.hashv, |from|)];
    }
    assert forall j | 0 <= j < |to| :: to[j] == SplitChain(from, |from|, 0, j, members);
  }

  lemma StartChain(from: seq<seq<Item>>, i: nat, members: set<Item>)
    requires Covers(members, from) && i < |from|
    requires forall b | i <= b < |from| :: StillLinked(from[b], members)
    ensures StillChained(from, i, 0, members)
  {
    assert StillLinked(from[i], members);
  }

  /** The loop over the old buckets. */
  method MoveAllChains(buckets: array<Bucket>, newBuckets: array<Bucket>, ideal: nat,
                       ghost from: seq<seq<Item>>, ghost lb: nat, ghost members: set<Item>, ghost to0: seq<seq<Item>>)
    returns (nonideal: nat, ghost to: seq<seq<Item>>, ghost moved: set<Item>)
    requires ideal >= 1 && Source(from, members) && |from| == buckets.Length == Pow2(lb) && buckets != newBuckets
    requires forall b | 0 <= b < |from| :: StillLinked(from[b], members)
    requires forall b | 0 <= b < |from| :: buckets[b].hhHead == At(from[b], 0) && buckets[b].count == |from[b]|
    requires Chained(newBuckets[..], to0, {}) && Tallied(newBuckets[..], ideal, 0) && Sum(Count(), newBuckets[..]) == 0
    requires Split(from, 0, 0, to0, members) && MovedSoFar(from, 0, 0, {}, members)
    modifies newBuckets, members`hhPrev, members`hhNext
    ensures Chained(newBuckets[..], to, moved) && Tallied(newBuckets[..], ideal, nonideal)
    ensures Split(from, |from|, 0, to, members) && MovedSoFar(from, |from|, 0, moved, members)
    ensures Sum(Count(), newBuckets[..]) == Sum(Count(), buckets[..])
  {
    hide Chained, Tallied, Split, MovedSoFar, Placed, StillLinked, StillChained, Sum;
    ghost var bs := buckets[..];
    nonideal, to, moved := 0, to0, {};
    assert Sum(Count(), bs[..0]) == 0 by { SumZero(Count(), bs[..0]); }
    for i := 0 to buckets.Length
      invariant buckets[..] == bs
      invariant forall b | i <= b < |from| :: StillLinked(from[b], members)
      invariant Chained(newBuckets[..], to, moved) && Tallied(newBuckets[..], ideal, nonideal)
      invariant Split(from, i, 0, to, members) && MovedSoFar(from, i, 0, moved, members)
      invariant Sum(Count(), newBuckets[..]) == Sum(Count(), bs[..i])
    {
      StartChain(from, i, members);
      SumPrefix(Count(), bs, i);
      nonideal, to, moved := MoveChain(newBuckets, buckets[i].hhHead, ideal, nonideal, from, i, lb, members, to, moved);
    }
    assert bs[..|bs|] == bs;
  }

  /** The expansion's effect on the chains.  New chain `j` is the reverse of the items of old chain
      `j mod n` that hash to `j`; nothing is lost and nothing is duplicated. */
  method Redistribute(buckets: array<Bucket>, ideal: nat,
                      ghost from: seq<seq<Item>>, ghost lb: nat, ghost members: set<Item>)
    returns (newBuckets: array<Bucket>, nonideal: nat, ghost to: seq<seq<Item>>)
    requires ideal >= 1 && Chained(buckets[..], from, members) && |from| == Pow2(lb)
    modifies members`hhPrev, members`hhNext
    ensures fresh(newBuckets) && newBuckets.Length == |to| == 2 * |from|
    ensures Chained(newBuckets[..], to, members) && Tallied(newBuckets[..], ideal, nonideal)
    ensures forall j | 0 <= j < |to| :: to[j] == PickedReversed(from[j % |from|], j, |to|)
    ensures Sum(Count(), newBuckets[..]) == Sum(Count(), buckets[..])
  {
    hide Tallied, Split, MovedSoFar, Placed, Source, Heads, StillLinked, Sum;
    newBuckets := ZeroedBuckets(2 * buckets.Length);
    ghost var moved;
    to := seq(2 * buckets.Length, _ => []);
    SourceOfChained(buckets[..], from, members);
    NothingMoved(newBuckets[..], ideal, from, to, members);
    nonideal, to, moved := MoveAllChains(buckets, newBuckets, ideal, from, lb, members, to);
    AllMoved(from, moved, to, members);
  }

  /** malloc and bzero of a bucket array. */
  method ZeroedBuckets(n: nat) returns (buckets: array<Bucket>)
    ensures fresh(buckets) && buckets.Length == n
    ensures forall b | 0 <= b < n :: buckets[b] == Bucket(null, 0, 0)
  {
    buckets := new Bucket[n](_ => Bucket(null, 0, 0));
  }
}
