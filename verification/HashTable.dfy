/** The hash table: a head pointer and the table record it leads to. */
module HashTable {
  import opened Bits
  import opened Items
  import opened Links
  import opened Buckets
  import opened Chains
  import opened Expansion
  import opened Growth
  import opened KeyMap
  import Bloom
  import StableSort

  class Table {
    /** HASH_FCN: any deterministic function of the key. */
    const hash: seq<Byte> -> nat

    /** Whether HASH_BLOOM is compiled in, and its value. */
    const hasBloom: bool
    const bloomNbits: nat

    /** The user's head variable; null means that no table is allocated. */
    var head: Item?

    var tail: Item?
    var buckets: array<Bucket>
    var numBuckets: nat
    var log2NumBuckets: nat
    var numItems: nat
    var idealChainMaxlen: nat
    var nonidealItems: nat
    var ineffExpands: nat
    var noexpand: bool
    var bloomBv: array<bv8>

    /** The items in application order, and the items of each bucket in chain order. */
    ghost var items: seq<Item>
    ghost var chains: seq<seq<Item>>

    ghost predicate ListOk()
      reads `head, `tail, `items, items`prev, items`next
    {
      && head == At(items, 0)
      && (items != [] ==> tail == items[|items| - 1])
      && Distinct(items)
      && AppLinked(items)
    }

    ghost function Members(): set<Item>
      reads `items
    {
      set x | x in items
    }

    ghost predicate ChainsOk(members: set<Item>)
      reads `buckets, `numBuckets, `log2NumBuckets, `chains
      reads buckets, members`hashv, members`hhPrev, members`hhNext
    {
      && buckets.Length == |chains| == numBuckets == Pow2(log2NumBuckets)
      && Chained(buckets[..], chains, members)
    }

    /** The bookkeeping, the buckets and the filter; a table that is not allocated counts as just made. */
    ghost function SizeNow(): Size
      reads this
    {
      if items == [] then FRESH
      else RawSize()
    }

    ghost function RawSize(): Size
      reads this
    {
      Size(numBuckets, log2NumBuckets, idealChainMaxlen, nonidealItems, ineffExpands, noexpand)
    }

    ghost function BucketsNow(): seq<Bucket>
      reads this, buckets
    {
      if items == [] then EmptyBuckets() else buckets[..]
    }

    ghost function BloomNow(): seq<bv8>
      reads this, bloomBv
    {
      if items == [] then Bloom.NoBits(bloomNbits) else bloomBv[..]
    }

    /** As long as expansion is not inhibited, the growth invariant holds. */
    ghost predicate GrowthOk()
      reads `buckets, `idealChainMaxlen, `noexpand, buckets
    {
      && idealChainMaxlen <= CAPACITY_THRESH
      && (!noexpand ==> Bounded(buckets[..]))
    }

    /** The Bloom filter has the bit of every member set. */
    ghost predicate BloomOk(members: set<Item>)
      reads `bloomBv, bloomBv, members`hashv
    {
      hasBloom ==>
        && bloomBv.Length == Bloom.ByteLen(bloomNbits)
        && forall x | x in members :: Bloom.BitTest(bloomBv[..], Bloom.Index(x.hashv, bloomNbits))
    }

    ghost predicate StoreOk(members: set<Item>)
      reads `buckets, `numBuckets, `log2NumBuckets, `chains, `numItems, `idealChainMaxlen, `noexpand, `bloomBv
      reads buckets, bloomBv, members`hashv, members`hhPrev, members`hhNext
    {
      && buckets as object != bloomBv
      && ChainsOk(members)
      && numItems == Sum(Count(), buckets[..])
      && GrowthOk()
      && BloomOk(members)
    }

    /** What HASH_FSCK checks, and more: both lists are doubly linked, every item is on the chain its
        hash selects, every bucket count is exact, the counts add up to the number of items, `tail`
        is the last item, and the growth and Bloom invariants hold. */
    ghost predicate Valid()
      reads this, buckets, bloomBv, items
    {
      && ListOk()
      && (items != [] ==> numItems == |items| && StoreOk(Members()))
    }

    constructor (hash: seq<Byte> -> nat, hasBloom: bool, bloomNbits: nat)
      ensures Valid() && items == []
      ensures this.hash == hash && this.hasBloom == hasBloom && this.bloomNbits == bloomNbits
    {
      this.hash, this.hasBloom, this.bloomNbits := hash, hasBloom, bloomNbits;
      head, tail, buckets, bloomBv := null, null, new Bucket[0], new bv8[0];
      items, chains := [], [];
    }

    /** HASH_MAKE_TABLE */
    method MakeTable(add: Item)
      modifies this
      ensures fresh(buckets) && fresh(bloomBv) && tail == add
      ensures head == old(head) && items == old(items)
      ensures StoreOk({}) && numItems == 0 && RawSize() == FRESH && buckets[..] == EmptyBuckets()
      ensures bloomBv[..] == Bloom.NoBits(bloomNbits)
    {
      hide Chained, Distinct, Bounded, Sum, Pow2, Bloom.BitTest, Bloom.Index, Bloom.ByteLen;
      tail := add;
      numItems, idealChainMaxlen, nonidealItems, ineffExpands, noexpand := 0, 0, 0, 0, false;
      MakeBuckets();
      bloomBv := new bv8[Bloom.ByteLen(bloomNbits)](_ => 0);
    }

    /** The initial buckets are empty. */
    method MakeBuckets()
      modifies `buckets, `numBuckets, `log2NumBuckets, `chains
      ensures fresh(buckets) && ChainsOk({}) && numBuckets == 32 && log2NumBuckets == 5
      ensures buckets[..] == EmptyBuckets()
      ensures Sum(Count(), buckets[..]) == 0 && Bounded(buckets[..])
    {
      hide Chained, Distinct, Bounded, Sum;
      numBuckets, log2NumBuckets := INITIAL_NUM_BUCKETS, INITIAL_NUM_BUCKETS_LOG2;
      buckets := ZeroedBuckets(INITIAL_NUM_BUCKETS);
      chains := seq(INITIAL_NUM_BUCKETS, _ => []);
      EmptyChained(buckets[..], chains);
    }

    /** The ideal chain length after a doubling: shift and mask. */
    method ComputeIdeal()
      requires numBuckets == Pow2(log2NumBuckets) && numItems >= 1
      modifies `idealChainMaxlen
      ensures idealChainMaxlen == IdealChainMaxlen(numItems, log2NumBuckets) >= 1
      ensures (idealChainMaxlen - 1) * (2 * numBuckets) < numItems <= idealChainMaxlen * (2 * numBuckets)
    {
      hide Shr, And;
      idealChainMaxlen :=
        Shr(numItems, log2NumBuckets + 1) + if And(numItems, numBuckets * 2 - 1) != 0 then 1 else 0;
      IdealIsCeiling(numItems, log2NumBuckets);
    }

    /** HASH_EXPAND_BUCKETS */
    method ExpandBuckets(ghost members: set<Item>)
      requires ChainsOk(members) && !noexpand
      requires numItems == Sum(Count(), buckets[..]) >= 1
      requires IdealChainMaxlen(numItems, log2NumBuckets) <= CAPACITY_THRESH
      modifies `buckets, `numBuckets, `log2NumBuckets, `idealChainMaxlen, `nonidealItems, `ineffExpands, `noexpand
      modifies `chains, members`hhPrev, members`hhNext
      ensures ChainsOk(members) && GrowthOk() && fresh(buckets)
      ensures numItems == Sum(Count(), buckets[..])
      ensures numBuckets == 2 * old(numBuckets)
      ensures forall j | 0 <= j < |chains| :: chains[j] == PickedReversed(old(chains)[j % |old(chains)|], j, |chains|)
      ensures idealChainMaxlen == IdealChainMaxlen(numItems, old(log2NumBuckets)) >= 1
      ensures Tallied(buckets[..], idealChainMaxlen, nonidealItems)
      ensures Doubled(old(RawSize()), numItems, RawSize(), buckets[..])
      ensures ineffExpands == if nonidealItems > numItems / 2 then old(ineffExpands) + 1 else 0
      ensures noexpand <==> ineffExpands > 1
    {
      hide Chained, Bounded, Sum, Distinct, PickedReversed, IdealChainMaxlen, Tallied, Measured;
      ComputeIdeal();
      var newBuckets, nonideal;
      ghost var to;
      newBuckets, nonideal, to := Redistribute(buckets, idealChainMaxlen, chains, log2NumBuckets, members);
      nonidealItems := nonideal;
      TalliedIsBounded(newBuckets[..], idealChainMaxlen, nonideal);
      TalliedIsMeasured(newBuckets[..], idealChainMaxlen, nonideal);
      numBuckets := numBuckets * 2;
      log2NumBuckets := log2NumBuckets + 1;
      buckets, chains := newBuckets, to;
      JudgeExpansion();
    }

    /** The end of HASH_EXPAND_BUCKETS: two ineffective expansions in a row inhibit further ones. */
    method JudgeExpansion()
      modifies `ineffExpands, `noexpand
      ensures ineffExpands == if nonidealItems > numItems / 2 then old(ineffExpands) + 1 else 0
      ensures noexpand <==> old(noexpand) || ineffExpands > 1
    {
      ineffExpands := if nonidealItems > numItems / 2 then ineffExpands + 1 else 0;
      if ineffExpands > 1 {
        noexpand := true;
      }
    }

    /** HASH_ADD_TO_BKT: link the item in, then expand if its bucket has reached its threshold. */
    method AddToBkt(add: Item, b: nat, ghost members: set<Item>)
      requires ChainsOk(members) && GrowthOk() && add !in members
      requires b == ToBkt(add.hashv, numBuckets)
      requires numItems == Sum(Count(), buckets[..]) + 1
      modifies `buckets, `numBuckets, `log2NumBuckets, `idealChainMaxlen, `nonidealItems, `ineffExpands, `noexpand
      modifies `chains, buckets, members`hhPrev, members`hhNext, {add}`hhPrev, {add}`hhNext
      ensures ChainsOk(members + {add}) && GrowthOk()
      ensures numItems == Sum(Count(), buckets[..])
      ensures fresh(buckets) || buckets == old(buckets)
      ensures Grows(old(RawSize()), old(buckets[..]), b, numItems, RawSize(), buckets[..])
      ensures var pushed := old(chains)[b := [add] + old(chains)[b]];
              var bucket := old(buckets[b]);
              if bucket.count + 1 >= (bucket.expandMult + 1) * CAPACITY_THRESH && !old(noexpand)
              then |chains| == 2 * |pushed| && forall j | 0 <= j < |chains| ::
                  chains[j] == PickedReversed(pushed[j % |pushed|], j, |chains|)
              else chains == pushed && noexpand == old(noexpand)
    {
      hide Chained, Bounded, Sum, PickedReversed, IdealChainMaxlen, Pow2;
      ghost var bs := buckets[..];
      GrowByOne(bs, b, Bucket(add, buckets[b].count + 1, buckets[b].expandMult), numItems, log2NumBuckets, noexpand);
      LinkIntoBkt(add, b, members);
      if buckets[b].count >= (buckets[b].expandMult + 1) * CAPACITY_THRESH && !noexpand {
        ExpandBuckets(members + {add});
      }
    }

    method LinkIntoBkt(add: Item, b: nat, ghost members: set<Item>)
      requires ChainsOk(members) && add !in members
      requires b == ToBkt(add.hashv, numBuckets)
      modifies `chains, buckets, members`hhPrev, {add}`hhPrev, {add}`hhNext
      ensures ChainsOk(members + {add}) && chains == old(chains)[b := [add] + old(chains)[b]]
      ensures buckets[..] == old(buckets[..])[b := Bucket(add, old(buckets[b].count) + 1, old(buckets[b].expandMult))]
    {
      PushIntoMembers(buckets, b, add, chains, members);
      chains := chains[b := [add] + chains[b]];
    }

    /** HASH_BLOOM_ADD */
    method BloomAdd(add: Item, ghost members: set<Item>)
      requires BloomOk(members)
      modifies bloomBv
      ensures BloomOk(members + {add})
      ensures if hasBloom then Bloom.Marked(old(bloomBv[..]), add.hashv, bloomNbits, bloomBv[..])
              else bloomBv[..] == old(bloomBv[..])
    {
      if hasBloom {
        Bloom.IndexIsMod(add.hashv, bloomNbits);
        Bloom.BitSet(bloomBv, Bloom.Index(add.hashv, bloomNbits));
      }
    }

    /** HASH_ADD_TO_TABLE */
    method AddToTable(add: Item, ghost members: set<Item>)
      requires StoreOk(members) && add !in members
      modifies `buckets, `numBuckets, `log2NumBuckets, `idealChainMaxlen, `nonidealItems, `ineffExpands, `noexpand
      modifies `numItems, `chains, buckets, bloomBv, members`hhPrev, members`hhNext, {add}`hhPrev, {add}`hhNext
      ensures StoreOk(members + {add}) && numItems == old(numItems) + 1
      ensures fresh(buckets) || buckets == old(buckets)
      ensures AddGrows(old(RawSize()), old(buckets[..]), add.hashv, numItems, RawSize(), buckets[..])
      ensures hasBloom ==> Bloom.Marked(old(bloomBv[..]), add.hashv, bloomNbits, bloomBv[..])
    {
      hide Chained, Bounded, Sum, PickedReversed, Bloom.BitTest, Bloom.Index, Bloom.Marked, Grows;
      numItems := numItems + 1;
      AddToBkt(add, ToBkt(add.hashv, numBuckets), members);
      BloomAdd(add, members);
    }

    /** HASH_APPEND_LIST */
    method AppendList(add: Item)
      requires ListOk() && items != [] && add !in items
      modifies `tail, `items, {add}`prev, {add}`next, {tail}`next
      ensures ListOk() && items == old(items) + [add]
    {
      hide AppLinked, Distinct;
      AppendApp(tail, add, items);
      tail := add;
      items := items + [add];
    }

    /** The first item of a table. */
    method FirstItem(add: Item)
      requires ListOk() && items == []
      modifies this, {add}`prev, {add}`next
      ensures ListOk() && items == [add] && StoreOk({}) && numItems == 0
      ensures fresh(buckets) && fresh(bloomBv)
      ensures RawSize() == FRESH && buckets[..] == EmptyBuckets() && bloomBv[..] == Bloom.NoBits(bloomNbits)
    {
      hide StoreOk, AppLinked;
      add.next := null;
      add.prev := null;
      MakeTable(add);
      head := add;
      items := [add];
      SingletonLinked(add);
    }

    /** HASH_ADD_KEYPTR_BYHASHVALUE */
    method AddKeyptrByHashvalue(add: Item, hashval: nat)
      requires Valid() && add !in items
      modifies this, buckets, bloomBv, add, items`prev, items`next, items`hhPrev, items`hhNext
      ensures Valid() && items == old(items) + [add] && add.hashv == hashval
      ensures fresh(buckets) || buckets == old(buckets)
      ensures fresh(bloomBv) || bloomBv == old(bloomBv)
      ensures AddGrows(old(SizeNow()), old(BucketsNow()), hashval, |items|, SizeNow(), BucketsNow())
      ensures hasBloom ==> Bloom.Marked(old(BloomNow()), hashval, bloomNbits, BloomNow())
    {
      hide StoreOk, AppLinked, AddGrows, Bloom.Marked;
      add.hashv := hashval;
      ghost var members := Members();
      if head == null {
        assert members == {};
        FirstItem(add);
      } else {
        AppendList(add);
      }
      AddToTable(add, members);
      assert Members() == members + {add};
    }

    /** HASH_ADD_KEYPTR: the hash value comes from the key. */
    method AddKeyptr(add: Item)
      requires Valid() && add !in items
      modifies this, buckets, bloomBv, add, items`prev, items`next, items`hhPrev, items`hhNext
      ensures Valid() && items == old(items) + [add] && add.hashv == hash(add.key)
      ensures fresh(buckets) || buckets == old(buckets)
      ensures fresh(bloomBv) || bloomBv == old(bloomBv)
      ensures AddGrows(old(SizeNow()), old(BucketsNow()), hash(add.key), |items|, SizeNow(), BucketsNow())
      ensures hasBloom ==> Bloom.Marked(old(BloomNow()), hash(add.key), bloomNbits, BloomNow())
    {
      AddKeyptrByHashvalue(add, hash(add.key));
    }

    /** HASH_AKBI_INNER_LOOP: the first item that compares greater than `add`, or null. */
    method FindPlace(add: Item, cmp: StableSort.Cmp) returns (iter: Item?, ghost i: nat)
      requires ListOk()
      ensures i <= |items| && iter == At(items, i)
      ensures forall m | 0 <= m < i :: StableSort.Le(cmp, items[m], add)
      ensures iter != null ==> !StableSort.Le(cmp, iter, add)
    {
      iter, i := head, 0;
      while iter != null && cmp(iter.data, add.data) <= 0
        invariant i <= |items| && iter == At(items, i)
        invariant forall m | 0 <= m < i :: StableSort.Le(cmp, items[m], add)
        decreases |items| - i
      {
        iter := iter.next;
        i := i + 1;
      }
    }

    /** The list half of the in-order add. */
    method InsertInList(add: Item, cmp: StableSort.Cmp)
      requires ListOk() && items != [] && add !in items
      modifies `head, `tail, `items, {add}`prev, {add}`next, items`prev, items`next
      ensures ListOk() && items == StableSort.Insert(cmp, old(items), add)
    {
      var iter;
      ghost var i;
      iter, i := FindPlace(add, cmp);
      StableSort.InsertAtPlace(cmp, items, add, i);
      hide StableSort.Insert, StableSort.Le;
      if iter != null {
        SpliceList(add, iter, i);
      } else {
        AppendList(add);
      }
    }

    method SpliceList(add: Item, iter: Item, ghost i: nat)
      requires ListOk() && i < |items| && iter == items[i] && add !in items
      modifies `head, `items, {add}`prev, {add}`next, items`prev, items`next
      ensures ListOk() && items == With(old(items), i, add)
    {
      hide AppLinked, Distinct, With;
      WithEnds(items, i, add);
      SpliceApp(iter, add, items, i);
      if add.prev == null {
        head := add;
      }
      items := With(items, i, add);
    }

    /** HASH_ADD_KEYPTR_BYHASHVALUE_INORDER */
    method AddKeyptrByHashvalueInorder(add: Item, hashval: nat, cmp: StableSort.Cmp)
      requires Valid() && add !in items
      modifies this, buckets, bloomBv, add, items`prev, items`next, items`hhPrev, items`hhNext
      ensures Valid() && items == StableSort.Insert(cmp, old(items), add) && add.hashv == hashval
      ensures fresh(buckets) || buckets == old(buckets)
      ensures fresh(bloomBv) || bloomBv == old(bloomBv)
      ensures AddGrows(old(SizeNow()), old(BucketsNow()), hashval, |items|, SizeNow(), BucketsNow())
      ensures hasBloom ==> Bloom.Marked(old(BloomNow()), hashval, bloomNbits, BloomNow())
    {
      hide StoreOk, AppLinked, AddGrows, Bloom.Marked, StableSort.Insert, StableSort.Le, Distinct;
      add.hashv := hashval;
      ghost var members := Members();
      if head == null {
        assert members == {};
        FirstItem(add);
        StableSort.InsertInNothing(cmp, old(items), add);
      } else {
        InsertInList(add, cmp);
      }
      AddToTable(add, members);
      StableSort.InsertElements(cmp, old(items), add);
      StableSort.InsertLength(cmp, old(items), add);
      assert Members() == members + {add};
    }

    /** HASH_FIND_BYHASHVALUE */
    method FindByHashvalue(key: seq<Byte>, hashval: nat) returns (out: Item?)
      requires Valid()
      ensures out != null ==> out in items && Matches(out, key, hashval)
      ensures out == null ==> forall x | x in items :: !Matches(x, key, hashval)
      ensures items != [] && out != null ==>
                var c := chains[ToBkt(hashval, numBuckets)];
                exists i | 0 <= i < |c| :: out == c[i] && FirstAt(c, i, key, hashval)
    {
      out := null;
      if head != null {
        var bkt := ToBkt(hashval, numBuckets);
        if !hasBloom || Bloom.BitTest(bloomBv[..], Bloom.Index(hashval, bloomNbits)) {
          assert Heads(buckets[..][bkt], chains[bkt]);
          out := FindInBkt(buckets[bkt], key, hashval, chains[bkt]);
        }
      }
    }

    /** The list half of HASH_DELETE_HH. */
    method UnlinkFromList(del: Item, ghost i: nat)
      requires ListOk() && |items| >= 2 && i < |items| && items[i] == del
      modifies `head, `tail, `items, items`prev, items`next
      ensures ListOk() && items == Without(old(items), i)
    {
      hide AppLinked, Distinct, Without;
      UnlinkedEnds(items, i);
      if del == tail {
        tail := del.prev;
      }
      if del.prev == null {
        head := del.next;
      }
      UnlinkApp(del, items, i);
      items := Without(items, i);
    }

    method RemoveFromBkt(del: Item, bkt: nat, ghost i: nat, ghost members: set<Item>)
      requires ChainsOk(members) && GrowthOk()
      requires bkt < |chains| && i < |chains[bkt]| && chains[bkt][i] == del && del in members
      modifies `chains, buckets, members`hhPrev, members`hhNext
      ensures ChainsOk(members - {del}) && GrowthOk()
      ensures Sum(Count(), buckets[..]) == Sum(Count(), old(buckets[..])) - 1
      ensures OneMore(buckets[..], bkt, old(buckets[..]))
    {
      hide Chained, Bounded, Sum, Distinct, Pow2;
      ghost var bs := buckets[..];
      ghost var head' := At(Without(chains[bkt], i), 0);
      CountPositive(bs, chains, members, bkt, i);
      ShrinkByOne(bs, bkt, Bucket(head', bs[bkt].count - 1, bs[bkt].expandMult), noexpand);
      UnlinkFromBkt(del, bkt, i, members);
    }

    method UnlinkFromBkt(del: Item, bkt: nat, ghost i: nat, ghost members: set<Item>)
      requires ChainsOk(members)
      requires bkt < |chains| && i < |chains[bkt]| && chains[bkt][i] == del
      modifies `chains, buckets, members`hhPrev, members`hhNext
      ensures ChainsOk(members - {del}) && old(buckets[bkt].count) >= 1
      ensures var bucket := old(buckets[bkt]);
              var head' := At(Without(old(chains[bkt]), i), 0);
              buckets[..] == old(buckets[..])[bkt := Bucket(head', bucket.count - 1, bucket.expandMult)]
    {
      hide Chained, Distinct;
      NeighboursAreMembers(buckets[..], chains, members, bkt, i);
      DelInBkt(buckets, bkt, del, i, chains, members);
      chains := chains[bkt := Without(chains[bkt], i)];
    }

    /** The bucket half of HASH_DELETE_HH. */
    method RemoveFromTable(del: Item, ghost members: set<Item>)
      requires StoreOk(members) && del in members
      modifies `numItems, `chains, buckets, members`hhPrev, members`hhNext
      ensures StoreOk(members - {del}) && numItems == old(numItems) - 1
      ensures OneMore(buckets[..], ToBkt(del.hashv, numBuckets), old(buckets[..]))
    {
      hide Chained, Bounded, Sum, Bloom.BitTest, Distinct, Pow2;
      var bkt := ToBkt(del.hashv, numBuckets);
      OnItsChain(buckets[..], chains, members, del);
      ghost var i :| 0 <= i < |chains[bkt]| && chains[bkt][i] == del;
      RemoveFromBkt(del, bkt, i, members);
      numItems := numItems - 1;
    }

    /** HASH_DELETE_HH of one item among others. */
    method DeleteOne(del: Item, ghost i: nat)
      requires Valid() && |items| >= 2 && i < |items| && items[i] == del
      modifies `head, `tail, `items, `numItems, `chains, buckets
      modifies items`prev, items`next, items`hhPrev, items`hhNext
      ensures Valid() && items == Without(old(items), i)
      ensures bloomBv[..] == old(bloomBv[..])
      ensures OneMore(buckets[..], ToBkt(del.hashv, numBuckets), old(buckets[..]))
    {
      hide AppLinked, Without, OneMore, ToBkt, Distinct, ChainsOk, GrowthOk, BloomOk;
      ghost var before, members := items, Members();
      ItemsWithout(items, i);
      UnlinkFromList(del, i);
      RemoveFromTable(del, members);
      assert Members() == members - {del};
    }

    /** HASH_DELETE_HH */
    method Delete(del: Item)
      requires Valid() && del in items
      modifies this, buckets, items`prev, items`next, items`hhPrev, items`hhNext
      ensures Valid()
      ensures exists i | 0 <= i < |old(items)| :: old(items)[i] == del && items == Without(old(items), i)
      ensures del !in items
      ensures buckets == old(buckets) && bloomBv == old(bloomBv)
      ensures items != [] ==> SizeNow() == old(SizeNow()) && BloomNow() == old(BloomNow())
      ensures items != [] ==> OneMore(BucketsNow(), ToBkt(del.hashv, |old(BucketsNow())|), old(BucketsNow()))
    {
      hide StoreOk, AppLinked, Without, OneMore, ToBkt, Distinct;
      ghost var i :| 0 <= i < |items| && items[i] == del;
      ghost var before := items;
      OnlyItem(items, i);
      ItemsWithout(items, i);
      if del.prev == null && del.next == null {
        head := null;
        items, chains := [], [];
        NothingLinked();
      } else {
        BucketsCounted();
        DeleteOne(del, i);
      }
      assert items == Without(before, i);
    }

    lemma BucketsCounted()
      requires Valid() && items != []
      ensures numBuckets == |buckets[..]| >= 1
    {
    }

    /** Every item was added with the hash of its key. */
    ghost predicate Hashed()
      reads this, items`hashv
    {
      forall x | x in items :: x.hashv == hash(x.key)
    }

    /** HASH_FIND */
    method Find(key: seq<Byte>) returns (out: Item?)
      requires Valid() && Hashed()
      ensures out != null ==> out in items && out.key == key
      ensures out == null <==> key !in ByKey(items)
      ensures out != null && UniqueKeys(items) ==> out == ByKey(items)[key]
    {
      hide ListOk, StoreOk, UniqueKeys;
      ByKeySound(items);
      out := FindByHashvalue(key, hash(key));
      assert key in ByKey(items) ==> Matches(ByKey(items)[key], key, hash(key));
      if out != null && UniqueKeys(items) {
        ByKeyFinds(items, out);
      }
    }

    /** HASH_REPLACE_BYHASHVALUE.  An item may replace itself, if it is the one that is found. */
    method ReplaceByHashvalue(add: Item, hashval: nat) returns (replaced: Item?)
      requires Valid()
      requires add in items ==> forall x | x in items :: Matches(x, add.key, hashval) <==> x == add
      modifies this, buckets, bloomBv, add, items`prev, items`next, items`hhPrev, items`hhNext
      ensures Valid() && add.hashv == hashval
      ensures fresh(buckets) || buckets == old(buckets)
      ensures fresh(bloomBv) || bloomBv == old(bloomBv)
      ensures replaced == null ==> items == old(items) + [add]
      ensures replaced == null ==> forall x | x in old(items) :: x.key != add.key || old(x.hashv) != hashval
      ensures replaced != null ==> replaced in old(items) && replaced.key == add.key && old(replaced.hashv) == hashval
      ensures replaced != null ==> exists i | 0 <= i < |old(items)| ::
                old(items)[i] == replaced && items == Without(old(items), i) + [add]
      ensures if replaced == null then
                AddGrows(old(SizeNow()), old(BucketsNow()), hashval, |items|, SizeNow(), BucketsNow())
              else if |items| == 1 then
                AddGrows(FRESH, EmptyBuckets(), hashval, |items|, SizeNow(), BucketsNow())
              else
                ReplaceGrows(old(SizeNow()), old(BucketsNow()), hashval, |items|, SizeNow(), BucketsNow())
      ensures hasBloom ==>
                var bits := if replaced != null && |items| == 1 then Bloom.NoBits(bloomNbits) else old(BloomNow());
                Bloom.Marked(bits, hashval, bloomNbits, BloomNow())
    {
      hide Valid, AddGrows, ReplaceGrows, OneMore, Bloom.Marked, ToBkt;
      replaced := FindByHashvalue(add.key, hashval);
      ghost var s, bs, before := items, BucketsNow(), SizeNow();
      if replaced != null {
        Delete(replaced);
        ghost var i :| 0 <= i < |s| && s[i] == replaced && items == Without(s, i);
        assert forall x | x in items :: x in s;
      }
      ghost var bs1 := BucketsNow();
      AddKeyptrByHashvalue(add, hashval);
      if replaced != null && |items| > 1 {
        BucketsThere(bs1, ToBkt(hashval, |bs|), bs);
        DeleteThenAdd(before, bs, bs1, hashval, |items|, SizeNow(), BucketsNow());
      }
    }

    /** HASH_REPLACE */
    method Replace(add: Item) returns (replaced: Item?)
      requires Valid() && Hashed() && UniqueKeys(items)
      modifies this, buckets, bloomBv, add, items`prev, items`next, items`hhPrev, items`hhNext
      ensures Valid() && Hashed() && UniqueKeys(items)
      ensures ByKey(items) == old(ByKey(items))[add.key := add]
      ensures fresh(buckets) || buckets == old(buckets)
      ensures fresh(bloomBv) || bloomBv == old(bloomBv)
      ensures if add.key in old(ByKey(items))
              then replaced == old(ByKey(items))[add.key] && exists i | 0 <= i < |old(items)| ::
                old(items)[i] == replaced && items == Without(old(items), i) + [add]
              else replaced == null && items == old(items) + [add]
      ensures if replaced == null then
                AddGrows(old(SizeNow()), old(BucketsNow()), hash(add.key), |items|, SizeNow(), BucketsNow())
              else if |items| == 1 then
                AddGrows(FRESH, EmptyBuckets(), hash(add.key), |items|, SizeNow(), BucketsNow())
              else
                ReplaceGrows(old(SizeNow()), old(BucketsNow()), hash(add.key), |items|, SizeNow(), BucketsNow())
    {
      hide Valid, UniqueKeys, ByKey, AddGrows, ReplaceGrows;
      ghost var s := items;
      ByKeySound(s);
      OnlyHolder(s, add);
      replaced := ReplaceByHashvalue(add, hash(add.key));
      if replaced != null {
        ghost var i :| 0 <= i < |s| && s[i] == replaced && items == Without(s, i) + [add];
        ByKeyReplace(s, i, add);
      } else {
        ByKeyAppend(s, add);
      }
    }

    /** HASH_ADD of a key the table does not hold. */
    method AddNewKey(add: Item)
      requires Valid() && Hashed() && UniqueKeys(items) && add !in items && add.key !in ByKey(items)
      modifies this, buckets, bloomBv, add, items`prev, items`next, items`hhPrev, items`hhNext
      ensures Valid() && Hashed() && UniqueKeys(items) && items == old(items) + [add]
      ensures ByKey(items) == old(ByKey(items))[add.key := add]
      ensures fresh(buckets) || buckets == old(buckets)
      ensures fresh(bloomBv) || bloomBv == old(bloomBv)
      ensures AddGrows(old(SizeNow()), old(BucketsNow()), hash(add.key), |items|, SizeNow(), BucketsNow())
      ensures hasBloom ==> Bloom.Marked(old(BloomNow()), hash(add.key), bloomNbits, BloomNow())
    {
      hide Valid, UniqueKeys, ByKey;
      ghost var s := items;
      ByKeyAppend(s, add);
      AddKeyptr(add);
    }

    /** HASH_ADD_INORDER of a key the table does not hold. */
    method AddNewKeyInorder(add: Item, cmp: StableSort.Cmp)
      requires Valid() && Hashed() && UniqueKeys(items) && add !in items && add.key !in ByKey(items)
      modifies this, buckets, bloomBv, add, items`prev, items`next, items`hhPrev, items`hhNext
      ensures Valid() && Hashed() && UniqueKeys(items) && items == StableSort.Insert(cmp, old(items), add)
      ensures ByKey(items) == old(ByKey(items))[add.key := add]
      ensures AddGrows(old(SizeNow()), old(BucketsNow()), hash(add.key), |items|, SizeNow(), BucketsNow())
      ensures hasBloom ==> Bloom.Marked(old(BloomNow()), hash(add.key), bloomNbits, BloomNow())
    {
      hide Valid, UniqueKeys, ByKey, StableSort.Insert, StableSort.Le;
      ghost var s := items;
      ghost var i := StableSort.InsertIsWith(cmp, s, add);
      ByKeyWith(s, i, add);
      StableSort.InsertElements(cmp, s, add);
      AddKeyptrByHashvalueInorder(add, hash(add.key), cmp);
    }
  }

  lemma TalliedIsBounded(bs: seq<Bucket>, ideal: nat, nonideal: nat)
    requires 1 <= ideal <= CAPACITY_THRESH && Tallied(bs, ideal, nonideal) && Sum(Count(), bs) <= ideal * |bs|
    ensures Bounded(bs)
  {
    ExpansionRestoresBounded(bs, ideal);
  }

  lemma ShrinkByOne(bs: seq<Bucket>, b: nat, bucket: Bucket, noexpand: bool)
    requires b < |bs| && (!noexpand ==> Bounded(bs))
    requires bucket.count == bs[b].count - 1 && bucket.expandMult == bs[b].expandMult
    ensures Sum(Count(), bs[b := bucket]) == Sum(Count(), bs) - 1
    ensures !noexpand ==> Bounded(bs[b := bucket])
  {
    SumUpdate(Count(), bs, b, bucket);
    if !noexpand {
      BoundedUpdate(bs, b, bucket);
    }
  }

  lemma OnlyItem(s: seq<Item>, i: nat)
    requires AppLinked(s) && i < |s|
    ensures |s| == 1 <==> s[i].prev == null && s[i].next == null
  {
    assert s[i].prev == At(s, i - 1) && s[i].next == At(s, i + 1);
  }

  lemma CountPositive(bs: seq<Bucket>, chains: seq<seq<Item>>, members: set<Item>, b: nat, i: nat)
    requires Chained(bs, chains, members) && b < |chains| && i < |chains[b]|
    ensures |bs| == |chains| && bs[b].count >= 1
  {
    assert Heads(bs[b], chains[b]);
  }

  lemma OnItsChain(bs: seq<Bucket>, chains: seq<seq<Item>>, members: set<Item>, x: Item)
    requires Chained(bs, chains, members) && x in members
    ensures |chains| >= 1 && x in chains[ToBkt(x.hashv, |chains|)]
  {
  }

  lemma NeighboursAreMembers(bs: seq<Bucket>, chains: seq<seq<Item>>, members: set<Item>, b: nat, i: nat)
    requires Chained(bs, chains, members) && b < |chains| && i < |chains[b]|
    ensures Objects(At(chains[b], i - 1)) <= members && Objects(At(chains[b], i + 1)) <= members
  {
    assert forall x | x in chains[b] :: x in members;
  }

  lemma WithEnds(s: seq<Item>, i: nat, x: Item)
    requires i < |s|
    ensures var r := With(s, i, x);
            r != [] && r[|r| - 1] == s[|s| - 1] && r[0] == if i == 0 then x else s[0]
  {
  }

  /** The ends of the list without item `i`. */
  lemma UnlinkedEnds(s: seq<Item>, i: nat)
    requires AppLinked(s) && Distinct(s) && |s| >= 2 && i < |s|
    ensures var r := Without(s, i);
            && |r| == |s| - 1
            && r[0] == (if s[i].prev == null then s[i].next else s[0])
            && r[|r| - 1] == (if s[i] == s[|s| - 1] then s[i].prev else s[|s| - 1])
    ensures s[i].prev != null ==> i != 0
  {
    assert s[i].prev == At(s, i - 1) && s[i].next == At(s, i + 1);
    hide AppLinked;
  }

  lemma BucketsThere(bs1: seq<Bucket>, b: nat, bs: seq<Bucket>)
    requires OneMore(bs1, b, bs)
    ensures |bs| >= 1
  {
  }

  lemma ItemsWithout(s: seq<Item>, i: nat)
    requires Distinct(s) && i < |s|
    ensures (set x | x in Without(s, i)) == (set x | x in s) - {s[i]}
    ensures Distinct(Without(s, i)) && |Without(s, i)| == |s| - 1 && s[i] !in Without(s, i)
  {
    forall x
      ensures x in Without(s, i) <==> x in s && x != s[i]
    {
      WithoutElements(s, i, x);
    }
  }

  lemma NothingLinked()
    ensures AppLinked([]) && Distinct([])
  {
  }

  lemma SingletonLinked(x: Item)
    requires x.prev == null && x.next == null
    ensures AppLinked([x])
  {
  }

  /** The growth invariant when bucket `b` gets one item more: either it holds again at once, or the
      bucket has reached its threshold and the coming expansion finds a short ideal chain. */
  lemma GrowByOne(bs: seq<Bucket>, b: nat, bucket: Bucket, numItems: nat, lb: nat, noexpand: bool)
    requires b < |bs| == Pow2(lb) && (!noexpand ==> Bounded(bs))
    requires bucket.count == bs[b].count + 1 && bucket.expandMult == bs[b].expandMult
    requires numItems == Sum(Count(), bs) + 1
    ensures Sum(Count(), bs[b := bucket]) == numItems
    ensures !noexpand ==> IdealChainMaxlen(numItems, lb) <= CAPACITY_THRESH
    ensures !noexpand && bucket.count < (bucket.expandMult + 1) * CAPACITY_THRESH ==> Bounded(bs[b := bucket])
  {
    SumUpdate(Count(), bs, b, bucket);
    if !noexpand {
      IdealWithinThreshold(bs, lb, numItems);
      if bucket.count < (bucket.expandMult + 1) * CAPACITY_THRESH {
        BoundedUpdate(bs, b, bucket);
      }
    }
  }

  /** `PushInto` with a frame that does not mention the bucket's head. */
  method PushIntoMembers(buckets: array<Bucket>, b: nat, add: Item,
                         ghost chains: seq<seq<Item>>, ghost members: set<Item>)
    requires Chained(buckets[..], chains, members) && add !in members
    requires b < buckets.Length && b == ToBkt(add.hashv, buckets.Length)
    modifies buckets, members`hhPrev, {add}`hhPrev, {add}`hhNext
    ensures buckets[..] == old(buckets[..])[b := Bucket(add, old(buckets[b].count) + 1, old(buckets[b].expandMult))]
    ensures Chained(buckets[..], chains[b := [add] + chains[b]], members + {add})
  {
    assert Heads(buckets[..][b], chains[b]);
    PushInto(buckets, b, add, buckets[b].count + 1, buckets[b].expandMult, chains, members);
  }

  lemma EmptyChained(bs: seq<Bucket>, chains: seq<seq<Item>>)
    requires |bs| == |chains| >= 1
    requires forall b | 0 <= b < |bs| :: bs[b] == Bucket(null, 0, 0) && chains[b] == []
    ensures Chained(bs, chains, {}) && Sum(Count(), bs) == 0 && Bounded(bs)
  {
    SumZero(Count(), bs);
    FreshBounded(bs);
  }
}
