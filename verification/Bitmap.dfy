/** The bitmap scans of `src/utils.h` and the connection iteration built on them.

    A bitmap is an int array in which zero means free.  Each scan is proved to return the first
    index with its property; iterating `get_next_connection` is proved to enumerate exactly the set
    slots, in order, as many as `get_connection_count` reports. */
module Bitmap {

  /** First index at or after `from` whose being zero is `empty`, or -1. */
  function Seek(bm: seq<int>, from: nat, empty: bool): (r: int)
    ensures r == -1 || from <= r < |bm|
    ensures r != -1 ==> (bm[r] == 0) == empty
    ensures forall i | from <= i < (if r == -1 then |bm| else r) :: (bm[i] == 0) != empty
    decreases |bm| - from
  {
    if from >= |bm| then -1
    else if (bm[from] == 0) == empty then from
    else Seek(bm, from + 1, empty)
  }

  method FindFirstEmptyBit(bitmap: array<int>) returns (r: int)
    ensures r == Seek(bitmap[..], 0, true)
  {
    for i := 0 to bitmap.Length
      invariant Seek(bitmap[..], i, true) == Seek(bitmap[..], 0, true)
    {
      if bitmap[i] == 0 {
        return i;
      }
    }
    return -1;
  }

  method FindNextEmptyBit(idx: int, bitmap: array<int>) returns (r: int)
    requires idx >= -1
    ensures r == Seek(bitmap[..], idx + 1, true)
  {
    var i := idx + 1;
    while i < bitmap.Length
      invariant i >= 0 && Seek(bitmap[..], i, true) == Seek(bitmap[..], idx + 1, true)
    {
      if bitmap[i] == 0 {
        return i;
      }
      i := i + 1;
    }
    return -1;
  }

  method FindFirstSetBit(bitmap: array<int>) returns (r: int)
    ensures r == Seek(bitmap[..], 0, false)
  {
    for i := 0 to bitmap.Length
      invariant Seek(bitmap[..], i, false) == Seek(bitmap[..], 0, false)
    {
      if bitmap[i] != 0 {
        return i;
      }
    }
    return -1;
  }

  method FindNextSetBit(idx: int, bitmap: array<int>) returns (r: int)
    requires idx >= -1
    ensures r == Seek(bitmap[..], idx + 1, false)
  {
    var i := idx + 1;
    while i < bitmap.Length
      invariant i >= 0 && Seek(bitmap[..], i, false) == Seek(bitmap[..], idx + 1, false)
    {
      if bitmap[i] != 0 {
        return i;
      }
      i := i + 1;
    }
    return -1;
  }

  /** Compare-and-swap of one cell; the old value is returned. */
  method CmpXchg(bitmap: array<int>, i: nat, expected: int, desired: int) returns (before: int)
    requires i < bitmap.Length
    modifies bitmap
    ensures before == old(bitmap[i])
    ensures bitmap[..] == old(bitmap[..])[i := if before == expected then desired else before]
  {
    before := bitmap[i];
    if before == expected {
      bitmap[i] := desired;
    }
  }

  /** Claims the first empty cell; -1 and no change when there is none. */
  method FindFirstEmptyBitAndSet(bitmap: array<int>) returns (r: int)
    modifies bitmap
    ensures r == Seek(old(bitmap[..]), 0, true)
    ensures bitmap[..] == if r == -1 then old(bitmap[..]) else old(bitmap[..])[r := 1]
  {
    for i := 0 to bitmap.Length
      invariant bitmap[..] == old(bitmap[..])
      invariant Seek(bitmap[..], i, true) == Seek(bitmap[..], 0, true)
    {
      var before := CmpXchg(bitmap, i, 0, 1);
      if before == 0 {
        return i;
      }
    }
    return -1;
  }

  /** Returns the first set cell; it is emptied only if it held exactly 1. */
  method FindFirstSetBitAndEmpty(bitmap: array<int>) returns (r: int)
    modifies bitmap
    ensures r == Seek(old(bitmap[..]), 0, false)
    ensures bitmap[..] == if r != -1 && old(bitmap[..])[r] == 1 then old(bitmap[..])[r := 0] else old(bitmap[..])
  {
    for i := 0 to bitmap.Length
      invariant bitmap[..] == old(bitmap[..])
      invariant Seek(bitmap[..], i, false) == Seek(bitmap[..], 0, false)
    {
      var before := CmpXchg(bitmap, i, 1, 0);
      if before != 0 {
        return i;
      }
    }
    return -1;
  }

  function Total(bm: seq<int>): int {
    if bm == [] then 0 else Total(bm[..|bm| - 1]) + bm[|bm| - 1]
  }

  method FindBitmapWeight(bitmap: array<int>) returns (weight: int)
    ensures weight == Total(bitmap[..])
  {
    weight := 0;
    for i := 0 to bitmap.Length
      invariant weight == Total(bitmap[..i])
    {
      assert bitmap[..i + 1][..i] == bitmap[..i];
      weight := weight + bitmap[i];
    }
    assert bitmap[..bitmap.Length] == bitmap[..];
  }

  /** get_next_connection */
  method GetNextConnection(bitmap: array<int>, cur: int) returns (i: int)
    ensures i == NextConnection(bitmap[..], cur)
  {
    if cur < 0 {
      i := FindFirstSetBit(bitmap);
    } else {
      i := FindNextSetBit(cur, bitmap);
    }
    if i < 0 {
      i := -1;
    }
  }

  function NextConnection(bm: seq<int>, cur: int): int {
    if cur < 0 then Seek(bm, 0, false) else Seek(bm, cur + 1, false)
  }

  /** What a caller sees who keeps calling get_next_connection, starting behind `cur`. */
  ghost function Enumeration(bm: seq<int>, cur: int): seq<int>
    requires cur >= -1
    decreases |bm| - cur
  {
    var i := NextConnection(bm, cur);
    if i == -1 then [] else [i] + Enumeration(bm, i)
  }

  lemma {:induction false} EnumerationBehind(bm: seq<int>, cur: int)
    requires cur >= -1
    ensures var e := Enumeration(bm, cur);
            && (forall k :: k in e <==> cur < k < |bm| && bm[k] != 0)
            && (forall j, k | 0 <= j < k < |e| :: e[j] < e[k])
    decreases |bm| - cur
  {
    var i := NextConnection(bm, cur);
    if i != -1 {
      EnumerationBehind(bm, i);
      var e, rest := Enumeration(bm, cur), Enumeration(bm, i);
      assert e == [i] + rest;
      forall k
        ensures k in e <==> cur < k < |bm| && bm[k] != 0
      {
        assert k in e <==> k == i || k in rest;
      }
      assert forall k | 0 <= k < |rest| :: rest[k] in rest;
    }
  }

  /** Starting from -1 the iteration visits exactly the set slots, each once, in ascending order. */
  lemma IterationVisitsSetSlots(bm: seq<int>)
    ensures var e := Enumeration(bm, -1);
            && (forall k :: k in e <==> 0 <= k < |bm| && bm[k] != 0)
            && (forall j, k | 0 <= j < k < |e| :: e[j] < e[k])
  {
    EnumerationBehind(bm, -1);
  }

  ghost predicate ZeroOne(bm: seq<int>) {
    forall i | 0 <= i < |bm| :: bm[i] == 0 || bm[i] == 1
  }

  lemma TotalSplit(bm: seq<int>, i: nat)
    requires i < |bm|
    ensures Total(bm[..i + 1]) == Total(bm[..i]) + bm[i]
  {
    assert bm[..i + 1][..i] == bm[..i];
  }

  lemma {:induction false} ZerosAddNothing(bm: seq<int>, from: int, upto: int)
    requires 0 <= from <= upto <= |bm| && forall i | from <= i < upto :: bm[i] == 0
    ensures Total(bm[..upto]) == Total(bm[..from])
    decreases upto - from
  {
    if from < upto {
      TotalSplit(bm, upto - 1);
      ZerosAddNothing(bm, from, upto - 1);
    }
  }

  lemma {:induction false} StepsBehind(bm: seq<int>, cur: int)
    requires ZeroOne(bm) && -1 <= cur < |bm|
    ensures Total(bm) == Total(bm[..cur + 1]) + |Enumeration(bm, cur)|
    decreases |bm| - cur
  {
    var i := NextConnection(bm, cur);
    assert bm[..|bm|] == bm;
    if i == -1 {
      ZerosAddNothing(bm, cur + 1, |bm|);
    } else {
      ZerosAddNothing(bm, cur + 1, i);
      TotalSplit(bm, i);
      StepsBehind(bm, i);
    }
  }

  /** On a 0/1 bitmap the number of steps is the weight that get_connection_count returns. */
  lemma IterationCountIsWeight(bm: seq<int>)
    requires ZeroOne(bm)
    ensures |Enumeration(bm, -1)| == Total(bm)
  {
    StepsBehind(bm, -1);
  }
}
