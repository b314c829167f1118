/** The two doubly linked lists every item is on: the application-order list (`prev`/`next`) and
    the chain of its bucket (`hhPrev`/`hhNext`).  A list is described by the sequence of its
    items; the methods here are the pointer surgery of the `HASH_*` macros. */
module Links {
  import opened Items

  ghost function At(s: seq<Item>, k: int): Item? {
    if 0 <= k < |s| then s[k] else null
  }

  ghost predicate Distinct(s: seq<Item>) {
    forall i, j | 0 <= i < j < |s| :: s[i] != s[j]
  }

  /** Application order: `prev` and `next` lead to the neighbours, null at the ends. */
  ghost predicate AppLinked(s: seq<Item>)
    reads s`prev, s`next
  {
    forall k | 0 <= k < |s| :: s[k].prev == At(s, k - 1) && s[k].next == At(s, k + 1)
  }

  /** Bucket chain: `hhPrev` and `hhNext` lead to the neighbours, null at the ends. */
  ghost predicate ChainLinked(s: seq<Item>)
    reads s`hhPrev, s`hhNext
  {
    forall k | 0 <= k < |s| :: s[k].hhPrev == At(s, k - 1) && s[k].hhNext == At(s, k + 1)
  }

  ghost function Without(s: seq<Item>, i: nat): (r: seq<Item>)
    requires i < |s|
    ensures |r| == |s| - 1
  {
    s[..i] + s[i + 1..]
  }

  lemma WithoutElements(s: seq<Item>, i: nat, y: Item)
    requires i < |s| && Distinct(s)
    ensures y in Without(s, i) <==> y in s && y != s[i]
  {
    if y in s && y != s[i] {
      var k :| 0 <= k < |s| && s[k] == y;
      assert Without(s, i)[if k < i then k else k - 1] == y;
    }
  }

  /** What an item of the shorter list has around it. */
  lemma WithoutAround(s: seq<Item>, i: nat, k: nat)
    requires i < |s| && k < |s| - 1
    ensures var r := Without(s, i);
            if k < i then
              && r[k] == s[k] && At(r, k - 1) == At(s, k - 1)
              && At(r, k + 1) == At(s, if k == i - 1 then k + 2 else k + 1)
            else
              && r[k] == s[k + 1] && At(r, k + 1) == At(s, k + 2)
              && At(r, k - 1) == At(s, if k == i then k - 1 else k)
  {
  }

  lemma DistinctWithout(s: seq<Item>, i: nat)
    requires i < |s| && Distinct(s)
    ensures Distinct(Without(s, i))
  {
  }

  /** What `x` at position `i` has around it is in the list, and is not `x`. */
  lemma Neighbours(s: seq<Item>, i: nat)
    requires i < |s| && Distinct(s)
    ensures forall k | 0 <= k < |s| && k != i - 1 :: s[k] != At(s, i - 1)
    ensures forall k | 0 <= k < |s| && k != i + 1 :: s[k] != At(s, i + 1)
  {
  }

  ghost function With(s: seq<Item>, i: nat, x: Item): seq<Item>
    requires i <= |s|
  {
    s[..i] + [x] + s[i..]
  }

  lemma DistinctWith(s: seq<Item>, i: nat, x: Item)
    requires i <= |s| && Distinct(s) && x !in s
    ensures Distinct(With(s, i, x))
  {
  }

  lemma OnlyAt(s: seq<Item>, i: nat)
    requires i < |s| && Distinct(s)
    ensures forall k | 0 <= k < |s| && k != i :: s[k] != s[i]
  {
  }

  ghost function Objects(x: Item?): set<Item> {
    if x == null then {} else {x}
  }

  /** Push `x` on the front of the chain `c`. */
  method PushChain(head: Item?, x: Item, ghost c: seq<Item>)
    requires head == At(c, 0) && ChainLinked(c) && Distinct(c) && x !in c
    modifies {x}`hhPrev, {x}`hhNext, Objects(head)`hhPrev
    ensures ChainLinked([x] + c) && Distinct([x] + c)
  {
    x.hhNext := head;
    x.hhPrev := null;
    if head != null {
      head.hhPrev := x;
    }
    ghost var r := [x] + c;
    forall k | 0 <= k < |r|
      ensures r[k].hhPrev == At(r, k - 1) && r[k].hhNext == At(r, k + 1)
    {
      if k > 0 { assert r[k] == c[k - 1]; }
    }
  }

  /** Unlink `x`, at position `i`, from the chain `c`; `hhPrev` and `hhNext` of `x` are kept. */
  method UnlinkChain(x: Item, ghost c: seq<Item>, ghost i: nat)
    requires ChainLinked(c) && Distinct(c) && i < |c| && c[i] == x
    modifies Objects(At(c, i - 1))`hhNext, Objects(At(c, i + 1))`hhPrev
    ensures ChainLinked(Without(c, i)) && Distinct(Without(c, i))
  {
    hide Distinct, Without;
    DistinctWithout(c, i);
    Neighbours(c, i);
    if x.hhPrev != null {
      x.hhPrev.hhNext := x.hhNext;
    }
    if x.hhNext != null {
      x.hhNext.hhPrev := x.hhPrev;
    }
    ghost var r := Without(c, i);
    forall k | 0 <= k < |r|
      ensures r[k].hhPrev == At(r, k - 1) && r[k].hhNext == At(r, k + 1)
    {
      WithoutAround(c, i, k);
    }
  }

  /** HASH_APPEND_LIST: `x` goes behind the last item of `s`. */
  method AppendApp(last: Item, x: Item, ghost s: seq<Item>)
    requires AppLinked(s) && Distinct(s) && s != [] && last == s[|s| - 1] && x !in s
    modifies {x}`prev, {x}`next, {last}`next
    ensures AppLinked(s + [x]) && Distinct(s + [x])
  {
    x.next := null;
    x.prev := last;
    last.next := x;
    ghost var r := s + [x];
    forall k | 0 <= k < |r|
      ensures r[k].prev == At(r, k - 1) && r[k].next == At(r, k + 1)
    {
      if k < |s| { assert r[k] == s[k]; }
    }
  }

  /** The in-order add's splice: `x` goes in front of `iter`, at position `i`. */
  method SpliceApp(iter: Item, x: Item, ghost s: seq<Item>, ghost i: nat)
    requires AppLinked(s) && Distinct(s) && i < |s| && iter == s[i] && x !in s
    modifies {x}`prev, {x}`next, Objects(At(s, i - 1))`next, {iter}`prev
    ensures AppLinked(With(s, i, x)) && Distinct(With(s, i, x))
    ensures x.prev == At(s, i - 1)
  {
    hide Distinct;
    DistinctWith(s, i, x);
    Neighbours(s, i);
    OnlyAt(s, i);
    x.next := iter;
    x.prev := iter.prev;
    if x.prev != null {
      x.prev.next := x;
    }
    iter.prev := x;
    ghost var r := With(s, i, x);
    forall k | 0 <= k < |r|
      ensures r[k].prev == At(r, k - 1) && r[k].next == At(r, k + 1)
    {
      if k < i { assert r[k] == s[k]; } else if k > i { assert r[k] == s[k - 1]; }
    }
  }

  /** The delete's patch-up: `x`, at position `i`, is taken out; its own `prev` and `next` stay. */
  method UnlinkApp(x: Item, ghost s: seq<Item>, ghost i: nat)
    requires AppLinked(s) && Distinct(s) && i < |s| && x == s[i]
    modifies Objects(At(s, i - 1))`next, Objects(At(s, i + 1))`prev
    ensures AppLinked(Without(s, i)) && Distinct(Without(s, i))
  {
    hide Distinct, Without;
    DistinctWithout(s, i);
    Neighbours(s, i);
    if x.prev != null {
      x.prev.next := x.next;
    }
    if x.next != null {
      x.next.prev := x.prev;
    }
    ghost var r := Without(s, i);
    forall k | 0 <= k < |r|
      ensures r[k].prev == At(r, k - 1) && r[k].next == At(r, k + 1)
    {
      WithoutAround(s, i, k);
    }
  }
}
