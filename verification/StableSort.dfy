/** What sorting a hash table means, on sequences of items.

    `Insert` places one item the way the in-order add does; `Isort`, repeated insertion, is the
    reference sort.  `MergePass` is one pass of the bottom-up mergesort.  The lemmas show that
    doubling passes compute exactly `Isort`, and that `Isort` is the one stable sorted
    rearrangement of its input. */
module StableSort {
  import opened Items

  /** A C comparator: negative, zero or positive. */
  type Cmp = (Data, Data) -> int

  predicate Le(cmp: Cmp, a: Item, b: Item) {
    cmp(a.data, b.data) <= 0
  }

  /** `cmp(a, b) <= 0` is total and transitive. */
  ghost predicate TotalPreorder(cmp: Cmp) {
    && (forall a, b :: cmp(a, b) <= 0 || cmp(b, a) <= 0)
    && (forall a, b, c :: cmp(a, b) <= 0 && cmp(b, c) <= 0 ==> cmp(a, c) <= 0)
  }

  ghost predicate Sorted(cmp: Cmp, s: seq<Item>) {
    forall i, j | 0 <= i < j < |s| :: Le(cmp, s[i], s[j])
  }

  ghost predicate Equivalent(cmp: Cmp, a: Item, b: Item) {
    Le(cmp, a, b) && Le(cmp, b, a)
  }

  /** The items equivalent to `d`, in order. */
  ghost function ClassOf(cmp: Cmp, d: Item, s: seq<Item>): seq<Item> {
    if s == [] then []
    else (if Equivalent(cmp, s[0], d) then [s[0]] else []) + ClassOf(cmp, d, s[1..])
  }

  /** `t` is sorted, rearranges `s`, and keeps the order of equivalent items. */
  ghost predicate IsStableSortOf(cmp: Cmp, t: seq<Item>, s: seq<Item>) {
    && Sorted(cmp, t)
    && multiset(t) == multiset(s)
    && forall d: Item | d in s :: ClassOf(cmp, d, t) == ClassOf(cmp, d, s)
  }

  /** Put `x` in front of the first item that compares greater. */
  ghost function Insert(cmp: Cmp, s: seq<Item>, x: Item): seq<Item> {
    if s == [] then [x]
    else if !Le(cmp, s[0], x) then [x] + s
    else [s[0]] + Insert(cmp, s[1..], x)
  }

  /** The place an in-order scan stops at is the place of `Insert`. */
  lemma {:induction false} InsertAtPlace(cmp: Cmp, s: seq<Item>, x: Item, i: nat)
    requires i <= |s| && (forall m | 0 <= m < i :: Le(cmp, s[m], x)) && (i < |s| ==> !Le(cmp, s[i], x))
    ensures Insert(cmp, s, x) == s[..i] + [x] + s[i..]
  {
    if i != 0 {
      InsertAtPlace(cmp, s[1..], x, i - 1);
      assert s[..i] == [s[0]] + s[1..][..i - 1];
    }
  }

  lemma {:induction false} InsertIsWith(cmp: Cmp, s: seq<Item>, x: Item) returns (i: nat)
    ensures i <= |s| && Insert(cmp, s, x) == s[..i] + [x] + s[i..]
  {
    if s == [] || !Le(cmp, s[0], x) {
      i := 0;
    } else {
      var k := InsertIsWith(cmp, s[1..], x);
      i := k + 1;
      assert s[..i] == [s[0]] + s[1..][..k];
    }
  }

  lemma {:induction false} InsertElements(cmp: Cmp, s: seq<Item>, x: Item)
    ensures forall y :: y in Insert(cmp, s, x) <==> y == x || y in s
  {
    if s != [] && Le(cmp, s[0], x) {
      InsertElements(cmp, s[1..], x);
      assert s == [s[0]] + s[1..];
    }
  }

  lemma InsertInNothing(cmp: Cmp, s: seq<Item>, x: Item)
    requires s == []
    ensures Insert(cmp, s, x) == [x]
  {
  }

  ghost function Isort(cmp: Cmp, s: seq<Item>): (t: seq<Item>)
    ensures |t| == |s|
  {
    if s == [] then []
    else
      var t := Isort(cmp, s[..|s| - 1]);
      InsertLength(cmp, t, s[|s| - 1]);
      Insert(cmp, t, s[|s| - 1])
  }

  lemma {:induction false} InsertLength(cmp: Cmp, s: seq<Item>, x: Item)
    ensures |Insert(cmp, s, x)| == |s| + 1
  {
    if s != [] && Le(cmp, s[0], x) {
      InsertLength(cmp, s[1..], x);
    }
  }

  /** Two-way merge that prefers the first argument on ties. */
  ghost function Merge(cmp: Cmp, p: seq<Item>, q: seq<Item>): (r: seq<Item>)
    ensures |r| == |p| + |q|
    decreases |p| + |q|
  {
    if p == [] then q
    else if q == [] then p
    else if Le(cmp, p[0], q[0]) then [p[0]] + Merge(cmp, p[1..], q)
    else [q[0]] + Merge(cmp, p, q[1..])
  }

  function Min(a: nat, b: nat): nat {
    if a <= b then a else b
  }

  /** One pass: merge neighbouring runs of length `n`. */
  ghost function MergePass(cmp: Cmp, s: seq<Item>, n: nat): (r: seq<Item>)
    requires n >= 1
    ensures |r| == |s|
    decreases |s|
  {
    if s == [] then []
    else
      var i, j := Min(n, |s|), Min(2 * n, |s|);
      Merge(cmp, s[..i], s[i..j]) + MergePass(cmp, s[j..], n)
  }

  /** `s` with each aligned run of length `n` sorted. */
  ghost function SortedRuns(cmp: Cmp, s: seq<Item>, n: nat): (r: seq<Item>)
    requires n >= 1
    ensures |r| == |s|
    decreases |s|
  {
    if s == [] then []
    else Isort(cmp, s[..Min(n, |s|)]) + SortedRuns(cmp, s[Min(n, |s|)..], n)
  }

  /** Whatever the comparator, merging and passes lose and duplicate nothing. */
  lemma {:induction false} MergeElements(cmp: Cmp, p: seq<Item>, q: seq<Item>)
    ensures multiset(Merge(cmp, p, q)) == multiset(p) + multiset(q)
    decreases |p| + |q|
  {
    if p != [] && q != [] {
      assert p == [p[0]] + p[1..] && q == [q[0]] + q[1..];
      if Le(cmp, p[0], q[0]) {
        MergeElements(cmp, p[1..], q);
      } else {
        MergeElements(cmp, p, q[1..]);
      }
    }
  }

  lemma {:induction false} MergePassElements(cmp: Cmp, s: seq<Item>, n: nat)
    requires n >= 1
    ensures multiset(MergePass(cmp, s, n)) == multiset(s)
    decreases |s|
  {
    hide Merge;
    if s != [] {
      var i, j := Min(n, |s|), Min(2 * n, |s|);
      assert multiset(s) == multiset(s[..i]) + multiset(s[i..j]) + multiset(s[j..]) by {
        assert s == s[..i] + s[i..j] + s[j..];
      }
      MergeElements(cmp, s[..i], s[i..j]);
      MergePassElements(cmp, s[j..], n);
    }
  }

  // ---- merging computes insertion sort

  /** Inserting into the second argument of a merge is inserting into the merge. */
  lemma {:induction false} MergeInsert(cmp: Cmp, p: seq<Item>, q: seq<Item>, x: Item)
    requires TotalPreorder(cmp)
    ensures Merge(cmp, p, Insert(cmp, q, x)) == Insert(cmp, Merge(cmp, p, q), x)
    decreases |p| + |q|
  {
    if p == [] {
    } else if q == [] {
      MergeInsert(cmp, p[1..], q, x);
      assert Merge(cmp, p[1..], q) == p[1..];
      assert Merge(cmp, p, [x][1..]) == p;
    } else if Le(cmp, p[0], q[0]) {
      MergeInsert(cmp, p[1..], q, x);
      MergeInsertLeft(cmp, p, q, x);
    } else {
      MergeInsert(cmp, p, q[1..], x);
      MergeInsertRight(cmp, p, q, x);
    }
  }

  lemma MergeInsertLeft(cmp: Cmp, p: seq<Item>, q: seq<Item>, x: Item)
    requires TotalPreorder(cmp) && p != [] && q != [] && Le(cmp, p[0], q[0])
    requires Merge(cmp, p[1..], Insert(cmp, q, x)) == Insert(cmp, Merge(cmp, p[1..], q), x)
    ensures Merge(cmp, p, Insert(cmp, q, x)) == Insert(cmp, Merge(cmp, p, q), x)
  {
    var qx, m := Insert(cmp, q, x), Merge(cmp, p, q);
    assert m == [p[0]] + Merge(cmp, p[1..], q) && m[1..] == Merge(cmp, p[1..], q);
    assert qx[1..] == if Le(cmp, q[0], x) then Insert(cmp, q[1..], x) else q;
  }

  lemma MergeInsertRight(cmp: Cmp, p: seq<Item>, q: seq<Item>, x: Item)
    requires TotalPreorder(cmp) && p != [] && q != [] && !Le(cmp, p[0], q[0])
    requires Merge(cmp, p, Insert(cmp, q[1..], x)) == Insert(cmp, Merge(cmp, p, q[1..]), x)
    ensures Merge(cmp, p, Insert(cmp, q, x)) == Insert(cmp, Merge(cmp, p, q), x)
  {
    var qx, m := Insert(cmp, q, x), Merge(cmp, p, q);
    assert m == [q[0]] + Merge(cmp, p, q[1..]) && m[1..] == Merge(cmp, p, q[1..]);
    assert qx[1..] == if Le(cmp, q[0], x) then Insert(cmp, q[1..], x) else q;
  }

  /** Merging two stably sorted runs stably sorts their concatenation. */
  lemma {:induction false} MergeOfSorts(cmp: Cmp, a: seq<Item>, b: seq<Item>)
    requires TotalPreorder(cmp)
    ensures Merge(cmp, Isort(cmp, a), Isort(cmp, b)) == Isort(cmp, a + b)
    decreases |b|
  {
    hide TotalPreorder;
    if b == [] {
      assert a + b == a;
    } else {
      var i := |b| - 1;
      MergeOfSorts(cmp, a, b[..i]);
      MergeInsert(cmp, Isort(cmp, a), Isort(cmp, b[..i]), b[i]);
      assert (a + b)[..|a| + i] == a + b[..i];
    }
  }

  /** One pass over two leading runs merges them and carries on behind them. */
  lemma PassOverTwoRuns(cmp: Cmp, a: seq<Item>, b: seq<Item>, c: seq<Item>, n: nat)
    requires n >= 1 && a != []
    requires |a| <= n && (b + c != [] ==> |a| == n)
    requires |b| <= n && (c != [] ==> |b| == n)
    ensures MergePass(cmp, a + (b + c), n) == Merge(cmp, a, b) + MergePass(cmp, c, n)
  {
    hide Merge;
    var r := a + (b + c);
    assert Min(n, |r|) == |a| && Min(2 * n, |r|) == |a| + |b|;
    assert r[..|a|] == a && r[|a|..|a| + |b|] == b && r[|a| + |b|..] == c;
  }

  /** One pass turns sorted runs of length `n` into sorted runs of length `2n`. */
  lemma {:induction false} PassDoublesRuns(cmp: Cmp, s: seq<Item>, n: nat)
    requires TotalPreorder(cmp) && n >= 1
    ensures MergePass(cmp, SortedRuns(cmp, s, n), n) == SortedRuns(cmp, s, 2 * n)
    decreases |s|
  {
    hide TotalPreorder, Isort, Merge, MergePass;
    if s != [] {
      var i, j := Min(n, |s|), Min(2 * n, |s|);
      FirstRun(cmp, s, n);
      SecondRun(cmp, s, n);
      PassOverTwoRuns(cmp, Isort(cmp, s[..i]), Isort(cmp, s[i..j]), SortedRuns(cmp, s[j..], n), n);
      MergeOfSorts(cmp, s[..i], s[i..j]);
      assert s[..i] + s[i..j] == s[..j];
      PassDoublesRuns(cmp, s[j..], n);
      FirstRun(cmp, s, 2 * n);
    } else {
      EmptyPass(cmp, n);
    }
  }

  lemma EmptyPass(cmp: Cmp, n: nat)
    requires n >= 1
    ensures MergePass(cmp, [], n) == []
  {
  }

  lemma FirstRun(cmp: Cmp, s: seq<Item>, n: nat)
    requires n >= 1 && s != []
    ensures var i := Min(n, |s|);
            SortedRuns(cmp, s, n) == Isort(cmp, s[..i]) + SortedRuns(cmp, s[i..], n)
  {
  }

  lemma SecondRun(cmp: Cmp, s: seq<Item>, n: nat)
    requires n >= 1 && s != []
    ensures var i, j := Min(n, |s|), Min(2 * n, |s|);
            SortedRuns(cmp, s[i..], n) == Isort(cmp, s[i..j]) + SortedRuns(cmp, s[j..], n)
  {
    hide Isort;
    var i, j := Min(n, |s|), Min(2 * n, |s|);
    var t := s[i..];
    if t != [] {
      assert Min(n, |t|) == j - i;
      assert t[..j - i] == s[i..j] && t[j - i..] == s[j..];
    }
  }

  lemma {:induction false} RunsOfOne(cmp: Cmp, s: seq<Item>)
    ensures SortedRuns(cmp, s, 1) == s
  {
    if s != [] {
      RunsOfOne(cmp, s[1..]);
      assert s[..1] == [s[0]] && s[..1][..0] == [];
      assert Isort(cmp, s[..1]) == [s[0]];
    }
  }

  /** A single run covering everything is the whole sort. */
  lemma OneRun(cmp: Cmp, s: seq<Item>, n: nat)
    requires n >= 1 && |s| <= n
    ensures SortedRuns(cmp, s, n) == Isort(cmp, s)
  {
    if s != [] {
      assert s[..|s|] == s && s[|s|..] == [];
    }
  }

  // ---- insertion sort is the stable sort

  lemma PrependSorted(cmp: Cmp, x: Item, s: seq<Item>)
    requires Sorted(cmp, s)
    requires forall y | y in s :: Le(cmp, x, y)
    ensures Sorted(cmp, [x] + s)
  {
  }

  lemma {:induction false} InsertSorted(cmp: Cmp, s: seq<Item>, x: Item)
    requires TotalPreorder(cmp) && Sorted(cmp, s)
    ensures Sorted(cmp, Insert(cmp, s, x))
    ensures multiset(Insert(cmp, s, x)) == multiset(s) + multiset{x}
  {
    if s != [] {
      assert s == [s[0]] + s[1..];
      if Le(cmp, s[0], x) {
        InsertSorted(cmp, s[1..], x);
        var r := Insert(cmp, s[1..], x);
        forall y | y in r
          ensures Le(cmp, s[0], y)
        {
          assert y in multiset(r);
        }
        PrependSorted(cmp, s[0], r);
      } else {
        forall y | y in s
          ensures Le(cmp, x, y)
        {
          assert Le(cmp, s[0], y);
        }
        PrependSorted(cmp, x, s);
      }
    }
  }

  lemma {:induction false} InsertKeepsClasses(cmp: Cmp, s: seq<Item>, x: Item, d: Item)
    requires TotalPreorder(cmp) && Sorted(cmp, s)
    ensures ClassOf(cmp, d, Insert(cmp, s, x))
         == ClassOf(cmp, d, s) + if Equivalent(cmp, x, d) then [x] else []
  {
    hide TotalPreorder;
    if s != [] {
      var r := Insert(cmp, s, x);
      if Le(cmp, s[0], x) {
        InsertKeepsClasses(cmp, s[1..], x, d);
        assert r[1..] == Insert(cmp, s[1..], x);
      } else {
        assert r[1..] == s;
        if Equivalent(cmp, x, d) {
          AllGreater(cmp, s, x, d);
          NoneInClass(cmp, s, d);
        }
      }
    }
  }

  /** If the first of a sorted list is greater than `x`, all are greater than what is equivalent to `x`. */
  lemma AllGreater(cmp: Cmp, s: seq<Item>, x: Item, d: Item)
    requires TotalPreorder(cmp) && Sorted(cmp, s) && s != [] && !Le(cmp, s[0], x) && Equivalent(cmp, x, d)
    ensures forall y | y in s :: !Le(cmp, y, d)
  {
    forall y | y in s
      ensures !Le(cmp, y, d)
    {
      var k :| 0 <= k < |s| && s[k] == y;
      assert k > 0 ==> Le(cmp, s[0], s[k]);
    }
  }

  lemma {:induction false} NoneInClass(cmp: Cmp, s: seq<Item>, d: Item)
    requires forall y | y in s :: !Le(cmp, y, d)
    ensures ClassOf(cmp, d, s) == []
  {
    if s != [] {
      NoneInClass(cmp, s[1..], d);
    }
  }

  lemma {:induction false} ClassOfAppend(cmp: Cmp, d: Item, s: seq<Item>, x: Item)
    ensures ClassOf(cmp, d, s + [x]) == ClassOf(cmp, d, s) + if Equivalent(cmp, x, d) then [x] else []
  {
    if s == [] {
      assert [x][1..] == [];
    } else {
      ClassOfAppend(cmp, d, s[1..], x);
      assert (s + [x])[1..] == s[1..] + [x];
    }
  }

  /** Insertion sort sorts, rearranges, and is stable. */
  lemma {:induction false} IsortIsStable(cmp: Cmp, s: seq<Item>)
    requires TotalPreorder(cmp)
    ensures IsStableSortOf(cmp, Isort(cmp, s), s)
  {
    IsortSorted(cmp, s);
    forall d: Item | d in s
      ensures ClassOf(cmp, d, Isort(cmp, s)) == ClassOf(cmp, d, s)
    {
      IsortKeepsClass(cmp, s, d);
    }
  }

  lemma {:induction false} IsortSorted(cmp: Cmp, s: seq<Item>)
    requires TotalPreorder(cmp)
    ensures Sorted(cmp, Isort(cmp, s)) && multiset(Isort(cmp, s)) == multiset(s)
  {
    if s != [] {
      var i := |s| - 1;
      IsortSorted(cmp, s[..i]);
      InsertSorted(cmp, Isort(cmp, s[..i]), s[i]);
      assert s == s[..i] + [s[i]];
    }
  }

  lemma {:induction false} IsortKeepsClass(cmp: Cmp, s: seq<Item>, d: Item)
    requires TotalPreorder(cmp)
    ensures ClassOf(cmp, d, Isort(cmp, s)) == ClassOf(cmp, d, s)
  {
    if s != [] {
      var i := |s| - 1;
      IsortKeepsClass(cmp, s[..i], d);
      IsortSorted(cmp, s[..i]);
      InsertKeepsClasses(cmp, Isort(cmp, s[..i]), s[i], d);
      ClassOfAppend(cmp, d, s[..i], s[i]);
      assert s == s[..i] + [s[i]];
    }
  }

  /** There is only one stable sorted rearrangement. */
  lemma {:induction false} StableSortUnique(cmp: Cmp, t: seq<Item>, u: seq<Item>)
    requires TotalPreorder(cmp)
    requires Sorted(cmp, t) && Sorted(cmp, u) && multiset(t) == multiset(u)
    requires forall d: Item | d in t :: ClassOf(cmp, d, t) == ClassOf(cmp, d, u)
    ensures t == u
  {
    assert |t| == |multiset(t)| && |u| == |multiset(u)|;
    if t != [] {
      SameHead(cmp, t, u);
      var x := t[0];
      assert t == [x] + t[1..] && u == [x] + u[1..];
      assert multiset(t[1..]) == multiset(t) - multiset{x} && multiset(u[1..]) == multiset(u) - multiset{x};
      forall d: Item | d in t[1..]
        ensures ClassOf(cmp, d, t[1..]) == ClassOf(cmp, d, u[1..])
      {
        var c := if Equivalent(cmp, x, d) then [x] else [];
        assert ClassOf(cmp, d, t) == c + ClassOf(cmp, d, t[1..]);
        assert ClassOf(cmp, d, u) == c + ClassOf(cmp, d, u[1..]);
        assert (c + ClassOf(cmp, d, t[1..]))[|c|..] == ClassOf(cmp, d, t[1..]);
        assert (c + ClassOf(cmp, d, u[1..]))[|c|..] == ClassOf(cmp, d, u[1..]);
      }
      StableSortUnique(cmp, t[1..], u[1..]);
    }
  }

  lemma SameHead(cmp: Cmp, t: seq<Item>, u: seq<Item>)
    requires TotalPreorder(cmp)
    requires Sorted(cmp, t) && Sorted(cmp, u) && multiset(t) == multiset(u) && t != [] && u != []
    requires forall d: Item | d in t :: ClassOf(cmp, d, t) == ClassOf(cmp, d, u)
    ensures t[0] == u[0]
  {
    var x := t[0];
    assert x in multiset(u) && u[0] in multiset(t);
    assert Le(cmp, x, u[0]) && Le(cmp, u[0], x);
    assert ClassOf(cmp, x, t)[0] == x;
    assert ClassOf(cmp, x, u)[0] == u[0];
  }

  /** Being a stable sort of `s` pins the result down to `Isort(s)`. */
  lemma StableSortIsIsort(cmp: Cmp, t: seq<Item>, s: seq<Item>)
    requires TotalPreorder(cmp)
    ensures IsStableSortOf(cmp, t, s) <==> t == Isort(cmp, s)
  {
    IsortIsStable(cmp, s);
    if IsStableSortOf(cmp, t, s) {
      forall d: Item | d in t
        ensures ClassOf(cmp, d, t) == ClassOf(cmp, d, Isort(cmp, s))
      {
        assert d in multiset(s);
      }
      StableSortUnique(cmp, t, Isort(cmp, s));
    }
  }

  /** In-order adds: if the list is the stable sort of what was added so far, then inserting one more
      item gives the stable sort of everything added; it lands behind all items equivalent to it. */
  lemma InsertExtendsSort(cmp: Cmp, s: seq<Item>, added: seq<Item>, x: Item)
    requires TotalPreorder(cmp) && IsStableSortOf(cmp, s, added)
    ensures IsStableSortOf(cmp, Insert(cmp, s, x), added + [x])
    ensures forall d: Item | Equivalent(cmp, x, d) :: ClassOf(cmp, d, Insert(cmp, s, x)) == ClassOf(cmp, d, s) + [x]
  {
    var all := added + [x];
    StableSortIsIsort(cmp, s, added);
    assert all[..|all| - 1] == added && all[|all| - 1] == x;
    IsortIsStable(cmp, all);
    forall d: Item | Equivalent(cmp, x, d)
      ensures ClassOf(cmp, d, Insert(cmp, s, x)) == ClassOf(cmp, d, s) + [x]
    {
      InsertKeepsClasses(cmp, s, x, d);
    }
  }
}
