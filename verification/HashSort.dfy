/** HASH_SRT: the bottom-up mergesort that relinks the application-order list in place. */
module HashSort {
  import opened Items
  import opened Links
  import opened StableSort
  import opened HashTable

  /** Consecutive items of `s` are linked by `next`. */
  ghost predicate Run(s: seq<Item>)
    reads s`next
  {
    forall k | 0 <= k < |s| - 1 :: s[k].next == s[k + 1]
  }

  /** A run that ends the list. */
  ghost predicate Rest(s: seq<Item>)
    reads s`next
  {
    forall k | 0 <= k < |s| :: s[k].next == At(s, k + 1)
  }

  /** The output so far; the `next` of its last item is still stale. */
  ghost predicate Output(list: Item?, tail: Item?, out: seq<Item>)
    reads out`prev, out`next
  {
    && list == At(out, 0) && tail == At(out, |out| - 1)
    && Run(out)
    && forall k | 0 <= k < |out| :: out[k].prev == At(out, k - 1)
  }

  /** No item twice, within or across output, left run and remaining list. */
  ghost predicate Apart(out: seq<Item>, p: seq<Item>, s: seq<Item>) {
    && Distinct(out) && Distinct(p) && Distinct(s)
    && (forall x | x in out :: x !in p && x !in s)
    && (forall x | x in p :: x !in s)
  }

  lemma TakeFromLeft(out: seq<Item>, p: seq<Item>, s: seq<Item>)
    requires Apart(out, p, s) && p != []
    ensures p[0] !in out && Apart(out + [p[0]], p[1..], s)
  {
    assert p[0] in p;
  }

  lemma TakeFromRight(out: seq<Item>, p: seq<Item>, s: seq<Item>)
    requires Apart(out, p, s) && s != []
    ensures s[0] !in out && Apart(out + [s[0]], p, s[1..])
  {
    assert s[0] in s;
  }

  /** Splitting the remaining list into a left run and what follows it. */
  lemma SplitOff(out: seq<Item>, s: seq<Item>, i: nat)
    requires Apart(out, [], s) && i <= |s|
    ensures Apart(out, s[..i], s[i..])
  {
  }

  /** Append `e` to the output list. */
  method Emit(e: Item, list0: Item?, tail: Item?, ghost out: seq<Item>) returns (list: Item?)
    requires Output(list0, tail, out) && Distinct(out) && e !in out
    modifies {e}`prev, Objects(tail)`next
    ensures Output(list, e, out + [e])
  {
    list := list0;
    if tail != null {
      tail.next := e;
    } else {
      list := e;
    }
    e.prev := tail;
    ghost var r := out + [e];
    forall k | 0 <= k < |r|
      ensures r[k].prev == At(r, k - 1) && (k < |r| - 1 ==> r[k].next == r[k + 1])
    {
      assert k < |out| ==> r[k] == out[k];
    }
  }

  /** The counting loop: step over at most `insize` items. */
  method SkipRun(p: Item, insize: nat, ghost s: seq<Item>) returns (q: Item?, psize: nat)
    requires insize >= 1 && Rest(s) && s != [] && p == s[0]
    ensures psize == Min(insize, |s|) && q == At(s, psize)
  {
    q, psize := p, 0;
    for i := 0 to insize
      invariant psize == i <= |s| && q == At(s, i) && q != null
    {
      psize := psize + 1;
      q := q.next;
      if q == null {
        break;
      }
    }
  }

  /** One turn of the merge: take the head of the left run. */
  method TakeLeft(p: Item, list0: Item?, tail0: Item?, ghost out: seq<Item>, ghost left: seq<Item>, ghost s: seq<Item>)
    returns (p': Item?, list: Item?, tail: Item?)
    requires Output(list0, tail0, out) && Apart(out, left, s)
    requires Run(left) && Rest(s) && left != [] && p == left[0]
    modifies out`next, left`prev
    ensures tail == left[0] && Output(list, tail, out + [left[0]]) && Apart(out + [left[0]], left[1..], s)
    ensures Run(left[1..]) && Rest(s) && (|left| > 1 ==> p' == left[1])
  {
    hide Distinct, Output;
    TakeFromLeft(out, left, s);
    ApartDistinct(out, left, s);
    TailOf(list0, tail0, out);
    var e := p;
    p' := p.next;
    list := Emit(e, list0, tail0, out);
    assert forall x | x in left || x in s :: x.next == old(x.next);
    tail := e;
  }

  /** One turn of the merge: take the head of the remaining list. */
  method TakeRight(q: Item, list0: Item?, tail0: Item?, ghost out: seq<Item>, ghost left: seq<Item>, ghost s: seq<Item>)
    returns (q': Item?, list: Item?, tail: Item?)
    requires Output(list0, tail0, out) && Apart(out, left, s)
    requires Run(left) && Rest(s) && s != [] && q == s[0]
    modifies out`next, s`prev
    ensures tail == s[0] && Output(list, tail, out + [s[0]]) && Apart(out + [s[0]], left, s[1..])
    ensures Run(left) && Rest(s[1..]) && q' == At(s[1..], 0)
  {
    hide Distinct, Output;
    TakeFromRight(out, left, s);
    ApartDistinct(out, left, s);
    TailOf(list0, tail0, out);
    var e := q;
    q' := q.next;
    list := Emit(e, list0, tail0, out);
    assert forall x | x in left || x in s :: x.next == old(x.next);
    tail := e;
  }

  lemma TailOf(list: Item?, tail: Item?, out: seq<Item>)
    requires Output(list, tail, out)
    ensures tail == null || tail in out
  {
  }

  lemma ApartDistinct(out: seq<Item>, left: seq<Item>, s: seq<Item>)
    requires Apart(out, left, s)
    ensures Distinct(out)
  {
  }

  ghost predicate Within(all: set<Item>, out: seq<Item>, left: seq<Item>, s: seq<Item>) {
    (forall x | x in out :: x in all) && (forall x | x in left :: x in all) && (forall x | x in s :: x in all)
  }

  /** The links during a merge. */
  ghost predicate Merging(list: Item?, tail: Item?, out: seq<Item>, left: seq<Item>, s: seq<Item>, all: set<Item>)
    requires Within(all, out, left, s)
    reads all`prev, all`next
  {
    Output(list, tail, out) && Apart(out, left, s) && Run(left) && Rest(s)
  }

  /** The right run: what may still be taken from the front of `s`. */
  ghost function Right(s: seq<Item>, qsize: nat): seq<Item> {
    s[..Min(qsize, |s|)]
  }

  ghost function Behind(s: seq<Item>, qsize: nat): seq<Item> {
    s[Min(qsize, |s|)..]
  }

  /** What the merge will have put out once it is finished. */
  ghost function Outcome(cmp: Cmp, out: seq<Item>, left: seq<Item>, s: seq<Item>, qsize: nat): seq<Item> {
    out + Merge(cmp, left, Right(s, qsize))
  }

  /** Taking the left head does not change the outcome, if the merge prefers it. */
  lemma OutcomeLeft(cmp: Cmp, out: seq<Item>, left: seq<Item>, s: seq<Item>, qsize: nat)
    requires left != [] && (qsize == 0 || s == [] || Le(cmp, left[0], s[0]))
    ensures Outcome(cmp, out + [left[0]], left[1..], s, qsize) == Outcome(cmp, out, left, s, qsize)
  {
    var right := Right(s, qsize);
    assert Merge(cmp, left, right) == [left[0]] + Merge(cmp, left[1..], right);
    assert out + ([left[0]] + Merge(cmp, left[1..], right)) == out + [left[0]] + Merge(cmp, left[1..], right);
  }

  lemma OutcomeRight(cmp: Cmp, out: seq<Item>, left: seq<Item>, s: seq<Item>, qsize: nat)
    requires qsize >= 1 && s != [] && (left == [] || !Le(cmp, left[0], s[0]))
    ensures Outcome(cmp, out + [s[0]], left, s[1..], qsize - 1) == Outcome(cmp, out, left, s, qsize)
    ensures Behind(s[1..], qsize - 1) == Behind(s, qsize)
  {
    var right := Right(s, qsize);
    assert right[1..] == Right(s[1..], qsize - 1);
    assert Merge(cmp, left, right) == [s[0]] + Merge(cmp, left, right[1..]);
    assert out + ([s[0]] + Merge(cmp, left, right[1..])) == out + [s[0]] + Merge(cmp, left, right[1..]);
  }

  lemma OutcomeDone(cmp: Cmp, out: seq<Item>, s: seq<Item>, qsize: nat)
    requires qsize == 0 || s == []
    ensures Outcome(cmp, out, [], s, qsize) == out && Behind(s, qsize) == s
  {
  }

  /** The merge loop: the left run and the right run are appended to the output in merged order. */
  method MergeRuns(p0: Item, q0: Item?, psize0: nat, insize: nat, list0: Item?, tail0: Item?, cmp: Cmp,
                   ghost out0: seq<Item>, ghost left0: seq<Item>, ghost s0: seq<Item>, ghost all: set<Item>)
    returns (q: Item?, list: Item?, tail: Item?, ghost out: seq<Item>, ghost s: seq<Item>)
    requires Within(all, out0, left0, s0) && Merging(list0, tail0, out0, left0, s0, all)
    requires left0 != [] && p0 == left0[0] && psize0 == |left0| && q0 == At(s0, 0)
    modifies all`prev, all`next
    ensures Within(all, out, [], s) && Merging(list, tail, out, [], s, all)
    ensures out == out0 + Merge(cmp, left0, Right(s0, insize)) && s == Behind(s0, insize)
    ensures q == At(s, 0)
  {
    hide Merging, Outcome, Behind, Right, Merge;
    var p: Item?, psize, qsize := p0, psize0, insize;
    q, list, tail, out, s := q0, list0, tail0, out0, s0;
    ghost var left := left0;
    while psize != 0 || (qsize != 0 && q != null)
      invariant Within(all, out, left, s) && Merging(list, tail, out, left, s, all)
      invariant psize == |left| && (left != [] ==> p == left[0]) && q == At(s, 0)
      invariant Outcome(cmp, out, left, s, qsize) == Outcome(cmp, out0, left0, s0, insize)
      invariant Behind(s, qsize) == Behind(s0, insize)
      decreases psize + |s|
    {
      if psize == 0 {
        OutcomeRight(cmp, out, left, s, qsize);
        q, list, tail := MergeRight(q, list, tail, out, left, s, all);
        out, s, qsize := out + [s[0]], s[1..], qsize - 1;
      } else if qsize == 0 || q == null {
        OutcomeLeft(cmp, out, left, s, qsize);
        p, list, tail := MergeLeft(p, list, tail, out, left, s, all);
        out, left, psize := out + [left[0]], left[1..], psize - 1;
      } else if cmp(p.data, q.data) <= 0 {
        OutcomeLeft(cmp, out, left, s, qsize);
        p, list, tail := MergeLeft(p, list, tail, out, left, s, all);
        out, left, psize := out + [left[0]], left[1..], psize - 1;
      } else {
        OutcomeRight(cmp, out, left, s, qsize);
        q, list, tail := MergeRight(q, list, tail, out, left, s, all);
        out, s, qsize := out + [s[0]], s[1..], qsize - 1;
      }
    }
    OutcomeDone(cmp, out, s, qsize);
    OutcomeStart(cmp, out0, left0, s0, insize);
  }

  lemma OutcomeStart(cmp: Cmp, out: seq<Item>, left: seq<Item>, s: seq<Item>, qsize: nat)
    ensures Outcome(cmp, out, left, s, qsize) == out + Merge(cmp, left, Right(s, qsize))
  {
  }

  method MergeLeft(p: Item, list0: Item?, tail0: Item?, ghost out: seq<Item>, ghost left: seq<Item>, ghost s: seq<Item>,
                   ghost all: set<Item>) returns (p': Item?, list: Item?, tail: Item?)
    requires Within(all, out, left, s) && Merging(list0, tail0, out, left, s, all)
    requires left != [] && p == left[0]
    modifies all`prev, all`next
    ensures Within(all, out + [left[0]], left[1..], s)
    ensures Merging(list, tail, out + [left[0]], left[1..], s, all)
    ensures |left| > 1 ==> p' == left[1]
  {
    hide Distinct, Output, Run, Rest;
    p', list, tail := TakeLeft(p, list0, tail0, out, left, s);
  }

  method MergeRight(q: Item, list0: Item?, tail0: Item?, ghost out: seq<Item>, ghost left: seq<Item>,
                    ghost s: seq<Item>, ghost all: set<Item>) returns (q': Item?, list: Item?, tail: Item?)
    requires Within(all, out, left, s) && Merging(list0, tail0, out, left, s, all)
    requires s != [] && q == s[0]
    modifies all`prev, all`next
    ensures Within(all, out + [s[0]], left, s[1..])
    ensures Merging(list, tail, out + [s[0]], left, s[1..], all)
    ensures q' == At(s[1..], 0)
  {
    hide Distinct, Output, Run, Rest;
    q', list, tail := TakeRight(q, list0, tail0, out, left, s);
  }

  lemma SplitMerging(list: Item?, tail: Item?, out: seq<Item>, s: seq<Item>, i: nat, all: set<Item>)
    requires Within(all, out, [], s) && Merging(list, tail, out, [], s, all) && i <= |s|
    ensures Within(all, out, s[..i], s[i..]) && Merging(list, tail, out, s[..i], s[i..], all)
  {
    SplitOff(out, s, i);
  }

  /** One turn of the pass: two runs leave the remaining list and their merge joins the output. */
  method MergeFront(p: Item, insize: nat, list0: Item?, tail0: Item?, cmp: Cmp,
                    ghost out0: seq<Item>, ghost s0: seq<Item>, ghost all: set<Item>)
    returns (q: Item?, list: Item?, tail: Item?, ghost out: seq<Item>, ghost s: seq<Item>)
    requires insize >= 1 && Within(all, out0, [], s0) && Merging(list0, tail0, out0, [], s0, all)
    requires s0 != [] && p == s0[0]
    modifies all`prev, all`next
    ensures Within(all, out, [], s) && Merging(list, tail, out, [], s, all)
    ensures q == At(s, 0) && s == s0[Min(2 * insize, |s0|)..]
    ensures out + MergePass(cmp, s, insize) == out0 + MergePass(cmp, s0, insize)
    ensures |out| + |s| == |out0| + |s0|
  {
    hide Merging, Distinct, MergePass, Merge;
    var psize;
    assert Rest(s0) by { MergingRest(list0, tail0, out0, s0, all); }
    q, psize := SkipRun(p, insize, s0);
    SplitMerging(list0, tail0, out0, s0, psize, all);
    q, list, tail, out, s := MergeRuns(p, q, psize, insize, list0, tail0, cmp, out0, s0[..psize], s0[psize..], all);
    FrontOfPass(cmp, out0, s0, insize);
  }

  lemma MergingRest(list: Item?, tail: Item?, out: seq<Item>, s: seq<Item>, all: set<Item>)
    requires Within(all, out, [], s) && Merging(list, tail, out, [], s, all)
    ensures Rest(s)
  {
  }

  lemma FrontOfPass(cmp: Cmp, out0: seq<Item>, s0: seq<Item>, insize: nat)
    requires insize >= 1 && s0 != []
    ensures var i, j := Min(insize, |s0|), Min(2 * insize, |s0|);
            && Right(s0[i..], insize) == s0[i..j] && Behind(s0[i..], insize) == s0[j..]
            && out0 + Merge(cmp, s0[..i], s0[i..j]) + MergePass(cmp, s0[j..], insize)
            == out0 + MergePass(cmp, s0, insize)
  {
    hide Merge;
    var i, j := Min(insize, |s0|), Min(2 * insize, |s0|);
    assert Min(insize, |s0[i..]|) == j - i;
    assert s0[i..][..j - i] == s0[i..j] && s0[i..][j - i..] == s0[j..];
    Associate(out0, Merge(cmp, s0[..i], s0[i..j]), MergePass(cmp, s0[j..], insize));
  }

  lemma Associate<T>(a: seq<T>, b: seq<T>, c: seq<T>)
    ensures a + b + c == a + (b + c)
  {
  }

  /** One pass over the list. */
  method Pass(first: Item, insize: nat, cmp: Cmp, ghost cur: seq<Item>, ghost all: set<Item>)
    returns (list: Item?, tail: Item?, nmerges: nat)
    requires insize >= 1 && cur != [] && first == cur[0] && Rest(cur) && Distinct(cur)
    requires forall x | x in cur :: x in all
    modifies all`prev, all`next
    ensures nmerges <= 1 <==> |cur| <= 2 * insize
    ensures var out := MergePass(cmp, cur, insize);
            list == At(out, 0) && tail == At(out, |out| - 1) && AppLinked(out) && Distinct(out)
  {
    hide Merging, Distinct, MergePass, Output, AppLinked;
    var p: Item? := first;
    list, tail, nmerges := null, null, 0;
    ghost var out, s: seq<Item> := [], cur;
    StartMerging(cur, all);
    while p != null
      invariant Within(all, out, [], s) && Merging(list, tail, out, [], s, all) && p == At(s, 0)
      invariant out + MergePass(cmp, s, insize) == MergePass(cmp, cur, insize)
      invariant |out| + |s| == |cur|
      invariant nmerges == 0 ==> s == cur
      invariant nmerges == 1 ==> |out| == Min(2 * insize, |cur|)
      invariant nmerges >= 2 ==> |cur| > 2 * insize
      decreases |s|
    {
      nmerges := nmerges + 1;
      p, list, tail, out, s := MergeFront(p, insize, list, tail, cmp, out, s, all);
    }
    EmptyPass(cmp, insize);
    MergingOutput(list, tail, out, s, all);
    assert out == MergePass(cmp, cur, insize);
    if tail != null {
      TerminateOutput(list, tail, out);
    }
  }

  lemma StartMerging(cur: seq<Item>, all: set<Item>)
    requires Rest(cur) && Distinct(cur) && forall x | x in cur :: x in all
    ensures Within(all, [], [], cur) && Merging(null, null, [], [], cur, all)
  {
  }

  lemma MergingOutput(list: Item?, tail: Item?, out: seq<Item>, s: seq<Item>, all: set<Item>)
    requires Within(all, out, [], s) && Merging(list, tail, out, [], s, all)
    ensures Output(list, tail, out) && Distinct(out)
    ensures out != [] ==> tail != null && tail in all
  {
  }

  /** The list ends behind the last output. */
  method TerminateOutput(list: Item?, tail: Item, ghost out: seq<Item>)
    requires Output(list, tail, out) && Distinct(out)
    modifies {tail}`next
    ensures AppLinked(out) && list == At(out, 0) && tail == At(out, |out| - 1)
  {
    tail.next := null;
  }

  /** After the passes so far: nothing lost, and runs of length `n` sorted when the comparator is a
      total preorder. */
  ghost predicate RunsSorted(cmp: Cmp, s: seq<Item>, n: nat, cur: seq<Item>)
    requires n >= 1
  {
    && |cur| == |s| && multiset(cur) == multiset(s)
    && (TotalPreorder(cmp) ==> cur == SortedRuns(cmp, s, n))
  }

  lemma StartRuns(cmp: Cmp, s: seq<Item>)
    ensures RunsSorted(cmp, s, 1, s)
  {
    RunsOfOne(cmp, s);
  }

  lemma NextRuns(cmp: Cmp, s: seq<Item>, n: nat, cur: seq<Item>)
    requires n >= 1 && RunsSorted(cmp, s, n, cur)
    ensures RunsSorted(cmp, s, 2 * n, MergePass(cmp, cur, n))
  {
    MergePassElements(cmp, cur, n);
    if TotalPreorder(cmp) {
      PassDoublesRuns(cmp, s, n);
    }
  }

  lemma LastRuns(cmp: Cmp, s: seq<Item>, n: nat, cur: seq<Item>)
    requires n >= 1 && RunsSorted(cmp, s, n, cur) && |s| <= n
    ensures multiset(cur) == multiset(s) && |cur| == |s|
    ensures TotalPreorder(cmp) ==> cur == Isort(cmp, s)
  {
    OneRun(cmp, s, n);
  }

  /** The passes: an application-order list is relinked until a pass needs at most one merge. */
  method SortList(head: Item, cmp: Cmp, ghost s: seq<Item>, ghost all: set<Item>)
    returns (list: Item?, tail: Item?, ghost sorted: seq<Item>)
    requires s != [] && head == s[0] && AppLinked(s) && Distinct(s)
    requires forall x | x in s :: x in all
    modifies all`prev, all`next
    ensures AppLinked(sorted) && Distinct(sorted) && list == At(sorted, 0) && tail == At(sorted, |sorted| - 1)
    ensures multiset(sorted) == multiset(s) && |sorted| == |s|
    ensures TotalPreorder(cmp) ==> sorted == Isort(cmp, s)
  {
    hide RunsSorted, MergePass, Distinct, TotalPreorder, AppLinked, Isort;
    var looping, insize := true, 1;
    list, tail, sorted := head, null, s;
    StartRuns(cmp, s);
    while looping
      invariant insize >= 1 && RunsSorted(cmp, s, insize, sorted)
      invariant AppLinked(sorted) && Distinct(sorted) && list == At(sorted, 0)
      invariant !looping ==> |s| <= insize && tail == At(sorted, |sorted| - 1)
      invariant sorted != [] && multiset(sorted) == multiset(s)
      decreases looping, |s| - insize
    {
      var nmerges;
      ghost var cur := sorted;
      NextRuns(cmp, s, insize, cur);
      RestOfList(cur, s, all, cmp, insize);
      list, tail, nmerges := Pass(list, insize, cmp, cur, all);
      sorted := MergePass(cmp, cur, insize);
      if nmerges <= 1 {
        looping := false;
      }
      insize := insize * 2;
    }
    LastRuns(cmp, s, insize, sorted);
  }

  lemma RestOfList(cur: seq<Item>, s: seq<Item>, all: set<Item>, cmp: Cmp, n: nat)
    requires AppLinked(cur) && multiset(cur) == multiset(s) && n >= 1
    requires forall x | x in s :: x in all
    ensures Rest(cur) && (forall x | x in cur :: x in all) && |cur| == |s|
    ensures multiset(MergePass(cmp, cur, n)) == multiset(s)
  {
    MergePassElements(cmp, cur, n);
    assert |multiset(cur)| == |cur| && |multiset(s)| == |s|;
    forall x | x in cur
      ensures x in all
    {
      assert x in multiset(s);
    }
  }

  /** HASH_SRT.  For every comparator the table stays valid, holds the same items, and its buckets
      and chains are untouched; for a total preorder the new order is the stable sort of the old. */
  method Sort(t: Table, cmp: Cmp)
    requires t.Valid()
    modifies t`head, t`tail, t`items, t.items`prev, t.items`next
    ensures t.Valid()
    ensures multiset(t.items) == multiset(old(t.items))
    ensures t.SizeNow() == old(t.SizeNow()) && t.BucketsNow() == old(t.BucketsNow())
    ensures TotalPreorder(cmp) ==> IsStableSortOf(cmp, t.items, old(t.items))
  {
    hide Distinct, TotalPreorder, AppLinked, Isort, IsStableSortOf, t.StoreOk;
    if t.head != null {
      ghost var s, sorted := t.items, [];
      var list, tail;
      list, tail, sorted := SortList(t.head, cmp, s, t.Members());
      t.tail := tail;
      t.head := list;
      t.items := sorted;
      SameMembers(s, sorted);
    }
    StableResult(cmp, old(t.items), t.items);
  }

  lemma SameMembers(s: seq<Item>, t: seq<Item>)
    requires multiset(s) == multiset(t)
    ensures (set x | x in s) == (set x | x in t)
  {
    assert forall x :: x in s <==> x in multiset(s);
    assert forall x :: x in t <==> x in multiset(t);
  }

  lemma StableResult(cmp: Cmp, s: seq<Item>, t: seq<Item>)
    requires TotalPreorder(cmp) ==> t == Isort(cmp, s)
    ensures TotalPreorder(cmp) ==> IsStableSortOf(cmp, t, s)
  {
    if TotalPreorder(cmp) {
      IsortIsStable(cmp, s);
    }
  }

  /** Any sequence of HASH_ADD_INORDER to an empty table is stable insertion sort. */
  method AddAllInorder(t: Table, added: seq<Item>, cmp: Cmp)
    requires t.Valid() && t.items == [] && Distinct(added)
    modifies t, t.buckets, t.bloomBv, set x | x in added
    ensures t.Valid() && t.items == Isort(cmp, added)
    ensures TotalPreorder(cmp) ==> IsStableSortOf(cmp, t.items, added)
  {
    hide t.Valid, Isort, Insert, IsStableSortOf, TotalPreorder;
    NothingSorted(cmp);
    for k := 0 to |added|
      invariant t.Valid() && t.items == Isort(cmp, added[..k])
      invariant fresh(t.buckets) || t.buckets == old(t.buckets)
      invariant fresh(t.bloomBv) || t.bloomBv == old(t.bloomBv)
    {
      SortOneMore(cmp, added, k);
      t.AddKeyptrByHashvalueInorder(added[k], t.hash(added[k].key), cmp);
    }
    assert added[..|added|] == added;
    StableResult(cmp, added, t.items);
  }

  lemma NothingSorted(cmp: Cmp)
    ensures Isort(cmp, []) == []
  {
  }

  lemma SortOneMore(cmp: Cmp, added: seq<Item>, k: nat)
    requires k < |added|
    ensures Isort(cmp, added[..k + 1]) == Insert(cmp, Isort(cmp, added[..k]), added[k])
    ensures added[k] in added && forall x | x in Isort(cmp, added[..k]) :: x in added
    ensures Distinct(added) ==> added[k] !in Isort(cmp, added[..k])
  {
    assert added[..k + 1][..k] == added[..k];
    forall x | x in Isort(cmp, added[..k])
      ensures x in added[..k]
    {
      SortElements(cmp, added[..k], x);
    }
  }

  lemma {:induction false} SortElements(cmp: Cmp, s: seq<Item>, x: Item)
    requires x in Isort(cmp, s)
    ensures x in s
  {
    var k := |s| - 1;
    InsertElements(cmp, Isort(cmp, s[..k]), s[k]);
    if x != s[k] {
      SortElements(cmp, s[..k], x);
    }
  }
}
