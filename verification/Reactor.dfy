/** The reactor's registry of event records, next to the epoll interest set it must agree with. */
module Reactor {
  import Bitmap

  const EVENT_SIZE := 1024

  /** struct event_data */
  class EventData {
    const fd: int
    const dataPtr: nat
    const handler: nat

    constructor (fd: int, dataPtr: nat, handler: nat)
      ensures this.fd == fd && this.dataPtr == dataPtr && this.handler == handler
    {
      this.fd, this.dataPtr, this.handler := fd, dataPtr, handler;
    }
  }

  /** The occupied slots are in bijection with the interest set: each holds the record of one
      interesting descriptor, and each interesting descriptor has its record in one slot. */
  ghost predicate Agree(bits: seq<int>, records: seq<EventData?>, interest: map<int, EventData>)
    requires |bits| == |records|
  {
    && Bitmap.ZeroOne(bits)
    && (forall i | 0 <= i < |bits| && bits[i] == 1 :: Holds(records, i, interest))
    && (forall i, j | 0 <= i < j < |bits| && bits[i] == 1 && bits[j] == 1 :: records[i] != records[j])
    && (forall fd | fd in interest :: interest[fd].fd == fd && Somewhere(bits, records, interest[fd]))
  }

  ghost predicate Holds(records: seq<EventData?>, i: nat, interest: map<int, EventData>)
    requires i < |records|
  {
    records[i] != null && records[i].fd in interest && interest[records[i].fd] == records[i]
  }

  ghost predicate Somewhere(bits: seq<int>, records: seq<EventData?>, e: EventData)
    requires |bits| == |records|
  {
    exists i | 0 <= i < |bits| :: bits[i] == 1 && records[i] == e
  }

  /** Every record ever created has been freed once, or never and is registered. */
  ghost predicate Accounted(created: set<EventData>, freed: multiset<EventData>, interest: map<int, EventData>) {
    && (forall e | e in created :: freed[e] == if e.fd in interest && interest[e.fd] == e then 0 else 1)
    && (forall e | e in freed :: e in created)
    && (forall fd | fd in interest :: interest[fd] in created)
  }

  lemma StoreAgrees(bits: seq<int>, records: seq<EventData?>, interest: map<int, EventData>, i: nat, e: EventData)
    requires |bits| == |records| && Agree(bits, records, interest)
    requires i < |bits| && bits[i] == 0 && e.fd !in interest
    ensures Agree(bits[i := 1], records[i := e], interest[e.fd := e])
  {
    var b, r, m := bits[i := 1], records[i := e], interest[e.fd := e];
    forall j | 0 <= j < |b| && b[j] == 1
      ensures Holds(r, j, m)
    {
      assert j == i || Holds(records, j, interest);
    }
    forall fd | fd in m
      ensures m[fd].fd == fd && Somewhere(b, r, m[fd])
    {
      if fd == e.fd {
        assert b[i] == 1 && r[i] == e;
      } else {
        assert Somewhere(bits, records, interest[fd]);
        var j :| 0 <= j < |bits| && bits[j] == 1 && records[j] == interest[fd];
        assert b[j] == 1 && r[j] == m[fd];
      }
    }
    forall j, k | 0 <= j < k < |b| && b[j] == 1 && b[k] == 1
      ensures r[j] != r[k]
    {
      assert j != i ==> Holds(records, j, interest);
      assert k != i ==> Holds(records, k, interest);
    }
  }

  lemma FreeAgrees(bits: seq<int>, records: seq<EventData?>, interest: map<int, EventData>, i: nat)
    requires |bits| == |records| && Agree(bits, records, interest)
    requires i < |bits| && bits[i] == 1 && records[i] != null
    ensures Agree(bits[i := 0], records[i := null], interest - {records[i].fd})
  {
    var b, r, m := bits[i := 0], records[i := null], interest - {records[i].fd};
    assert Holds(records, i, interest);
    forall j | 0 <= j < |b| && b[j] == 1
      ensures Holds(r, j, m)
    {
      assert Holds(records, j, interest);
      assert records[j] != records[i];
    }
    forall fd | fd in m
      ensures m[fd].fd == fd && Somewhere(b, r, m[fd])
    {
      assert Somewhere(bits, records, interest[fd]);
      var j :| 0 <= j < |bits| && bits[j] == 1 && records[j] == interest[fd];
      assert b[j] == 1 && r[j] == m[fd];
    }
  }

  /** Slot `i` is taken by a record with this descriptor. */
  ghost predicate HasFd(bits: seq<int>, records: seq<EventData?>, fd: int, i: nat)
    requires |bits| == |records| && i < |bits|
  {
    bits[i] != 0 && records[i] != null && records[i].fd == fd
  }

  /** Slot `i` is the lowest such slot. */
  ghost predicate FirstWith(bits: seq<int>, records: seq<EventData?>, fd: int, i: nat)
    requires |bits| == |records| && i < |bits|
  {
    HasFd(bits, records, fd, i) && forall j | 0 <= j < i :: !HasFd(bits, records, fd, j)
  }

  class Context {
    const eventBitmap: array<int>
    const eventMap: array<EventData?>
    var stop: bool

    /** The epoll interest set, all records created, and the records freed so far. */
    ghost var interest: map<int, EventData>
    ghost var created: set<EventData>
    ghost var freed: multiset<EventData>

    ghost predicate Valid()
      reads this, eventBitmap, eventMap
    {
      && eventBitmap.Length == eventMap.Length == EVENT_SIZE
      && eventBitmap as object != eventMap
      && Agree(eventBitmap[..], eventMap[..], interest)
      && Accounted(created, freed, interest)
    }

    /** init_reactor */
    constructor ()
      ensures Valid() && interest == map[] && fresh(eventBitmap) && fresh(eventMap)
      ensures eventBitmap.Length == eventMap.Length == 1024 && !stop && created == {} && freed == multiset{}
    {
      eventBitmap, eventMap, stop := new int[EVENT_SIZE](_ => 0), new EventData?[EVENT_SIZE](_ => null), false;
      interest, created, freed := map[], {}, multiset{};
    }

    /** store_event: the lowest free slot takes the record. */
    method StoreEvent(data: EventData)
      requires eventBitmap.Length == eventMap.Length && eventBitmap as object != eventMap
      requires Bitmap.Seek(eventBitmap[..], 0, true) != -1
      modifies eventBitmap, eventMap
      ensures var i := Bitmap.Seek(old(eventBitmap[..]), 0, true);
              eventBitmap[..] == old(eventBitmap[..])[i := 1] && eventMap[..] == old(eventMap[..])[i := data]
    {
      var index := Bitmap.FindFirstEmptyBit(eventBitmap);
      eventBitmap[index] := 1;
      eventMap[index] := data;
    }

    /** free_event: the lowest slot with this descriptor is emptied and its record freed. */
    method FreeEvent(fd: int)
      requires eventBitmap.Length == eventMap.Length && eventBitmap as object != eventMap
      requires forall i | 0 <= i < eventMap.Length && eventBitmap[i] != 0 :: eventMap[i] != null
      modifies `freed, eventBitmap, eventMap
      ensures (forall i | 0 <= i < eventMap.Length :: !HasFd(old(eventBitmap[..]), old(eventMap[..]), fd, i)) ==>
                freed == old(freed) && eventBitmap[..] == old(eventBitmap[..]) && eventMap[..] == old(eventMap[..])
      ensures (exists i | 0 <= i < eventMap.Length :: HasFd(old(eventBitmap[..]), old(eventMap[..]), fd, i)) ==>
                exists i | 0 <= i < eventMap.Length :: FirstWith(old(eventBitmap[..]), old(eventMap[..]), fd, i)
                  && freed == old(freed) + multiset{old(eventMap[..])[i]}
                  && eventBitmap[..] == old(eventBitmap[..])[i := 0] && eventMap[..] == old(eventMap[..])[i := null]
    {
      for i := 0 to eventMap.Length
        invariant freed == old(freed) && eventBitmap[..] == old(eventBitmap[..]) && eventMap[..] == old(eventMap[..])
        invariant forall j | 0 <= j < i :: !HasFd(eventBitmap[..], eventMap[..], fd, j)
      {
        if eventBitmap[i] != 0 {
          if eventMap[i].fd == fd {
            assert FirstWith(eventBitmap[..], eventMap[..], fd, i);
            freed := freed + multiset{eventMap[i]};
            eventBitmap[i] := 0;
            eventMap[i] := null;
            break;
          }
        }
      }
    }

    /** add_event_fd, when the registry has room and epoll_ctl succeeds. */
    method AddEventFd(fd: int, dataPtr: nat, handler: nat) returns (data: EventData)
      requires Valid() && fd !in interest
      requires Bitmap.Seek(eventBitmap[..], 0, true) != -1
      modifies this, eventBitmap, eventMap
      ensures Valid() && interest == old(interest)[fd := data]
      ensures fresh(data) && data.fd == fd && data.dataPtr == dataPtr && data.handler == handler
      ensures created == old(created) + {data} && freed == old(freed)
    {
      data := new EventData(fd, dataPtr, handler);
      ghost var i := Bitmap.Seek(eventBitmap[..], 0, true);
      StoreAgrees(eventBitmap[..], eventMap[..], interest, i, data);
      StoreEvent(data);
      interest := interest[fd := data];
      created := created + {data};
    }

    /** del_event_fd of a registered descriptor. */
    method DelEventFd(fd: int)
      requires Valid() && fd in interest
      modifies this, eventBitmap, eventMap
      ensures Valid() && interest == old(interest) - {fd}
      ensures created == old(created) && freed == old(freed) + multiset{old(interest)[fd]}
    {
      ghost var bits, records, before, e := eventBitmap[..], eventMap[..], interest, interest[fd];
      assert Somewhere(bits, records, e);
      ghost var k :| 0 <= k < |bits| && bits[k] == 1 && records[k] == e;
      assert HasFd(bits, records, fd, k);
      interest := interest - {fd};
      FreeEvent(fd);
      ghost var i :| 0 <= i < |bits| && FirstWith(bits, records, fd, i) && freed == old(freed) + multiset{records[i]}
                     && eventBitmap[..] == bits[i := 0] && eventMap[..] == records[i := null];
      assert Holds(records, i, before);
      FreeAgrees(bits, records, before, i);
    }

    /** destroy_reactor frees what is still registered; then every record ever created has been
        freed exactly once. */
    method DestroyReactor()
      requires Valid()
      modifies this
      ensures stop && created == old(created)
      ensures forall e | e in created :: freed[e] == 1
      ensures forall e | e in freed :: e in created
    {
      hide Agree, Accounted, Occupying, Somewhere, Holds;
      stop := true;
      ghost var bits, records := eventBitmap[..], eventMap[..];
      NothingOccupies(bits[..0], records[..0]);
      OccupiedHoldRecords(bits, records, interest);
      ghost var swept: multiset<EventData> := multiset{};
      for i := 0 to EVENT_SIZE
        invariant created == old(created) && interest == old(interest) && stop
        invariant freed == old(freed) + swept && swept == Occupying(bits[..i], records[..i])
      {
        OccupyingStep(bits, records, i);
        if eventBitmap[i] != 0 {
          swept := swept + multiset{eventMap[i]};
          freed := old(freed) + swept;
        }
      }
      assert bits[..EVENT_SIZE] == bits && records[..EVENT_SIZE] == records;
      AllFreedOnce(bits, records, interest, created, old(freed));
    }
  }

  lemma OccupiedHoldRecords(bits: seq<int>, records: seq<EventData?>, interest: map<int, EventData>)
    requires |bits| == |records| && Agree(bits, records, interest)
    ensures forall i | 0 <= i < |bits| && bits[i] != 0 :: records[i] != null
  {
    forall i | 0 <= i < |bits| && bits[i] != 0
      ensures records[i] != null
    {
      assert Holds(records, i, interest);
    }
  }

  /** The records in occupied slots. */
  ghost function Occupying(bits: seq<int>, records: seq<EventData?>): multiset<EventData>
    requires |bits| == |records|
  {
    if bits == [] then multiset{}
    else
      var k := |bits| - 1;
      Occupying(bits[..k], records[..k]) +
      if bits[k] != 0 && records[k] != null then multiset{records[k]} else multiset{}
  }

  lemma NothingOccupies(bits: seq<int>, records: seq<EventData?>)
    requires bits == [] && records == []
    ensures Occupying(bits, records) == multiset{}
  {
  }

  lemma OccupyingStep(bits: seq<int>, records: seq<EventData?>, i: nat)
    requires |bits| == |records| && i < |bits|
    ensures Occupying(bits[..i + 1], records[..i + 1]) ==
            Occupying(bits[..i], records[..i]) +
            if bits[i] != 0 && records[i] != null then multiset{records[i]} else multiset{}
  {
    assert bits[..i + 1][..i] == bits[..i] && records[..i + 1][..i] == records[..i];
  }

  lemma {:induction false} OccupyingCounts(bits: seq<int>, records: seq<EventData?>, e: EventData)
    requires |bits| == |records| && Bitmap.ZeroOne(bits)
    requires forall i, j | 0 <= i < j < |bits| && bits[i] == 1 && bits[j] == 1 :: records[i] != records[j]
    ensures Occupying(bits, records)[e] == if Somewhere(bits, records, e) then 1 else 0
  {
    if bits != [] {
      var k := |bits| - 1;
      OccupyingCounts(bits[..k], records[..k], e);
      SomewhereSplit(bits, records, e);
    }
  }

  lemma SomewhereSplit(bits: seq<int>, records: seq<EventData?>, e: EventData)
    requires |bits| == |records| && bits != []
    ensures var k := |bits| - 1;
            Somewhere(bits, records, e) <==> Somewhere(bits[..k], records[..k], e) || (bits[k] == 1 && records[k] == e)
  {
    var k := |bits| - 1;
    if Somewhere(bits[..k], records[..k], e) {
      var i :| 0 <= i < k && bits[..k][i] == 1 && records[..k][i] == e;
      assert bits[i] == 1 && records[i] == e;
    }
    if Somewhere(bits, records, e) && !(bits[k] == 1 && records[k] == e) {
      var i :| 0 <= i < |bits| && bits[i] == 1 && records[i] == e;
      assert bits[..k][i] == 1 && records[..k][i] == e;
    }
  }

  lemma AllFreedOnce(bits: seq<int>, records: seq<EventData?>, interest: map<int, EventData>,
                     created: set<EventData>, freed: multiset<EventData>)
    requires |bits| == |records| && Agree(bits, records, interest) && Accounted(created, freed, interest)
    ensures forall e | e in created :: (freed + Occupying(bits, records))[e] == 1
    ensures forall e | e in freed + Occupying(bits, records) :: e in created
  {
    forall e | e in created
      ensures (freed + Occupying(bits, records))[e] == 1
    {
      FreedOnce(bits, records, interest, created, freed, e);
    }
    forall e | e in freed + Occupying(bits, records)
      ensures e in created
    {
      FreedOnce(bits, records, interest, created, freed, e);
    }
  }

  lemma FreedOnce(bits: seq<int>, records: seq<EventData?>, interest: map<int, EventData>,
                  created: set<EventData>, freed: multiset<EventData>, e: EventData)
    requires |bits| == |records| && Agree(bits, records, interest) && Accounted(created, freed, interest)
    ensures (freed + Occupying(bits, records))[e] == if e in created then 1 else 0
  {
    OccupyingCounts(bits, records, e);
    InSlotIffInteresting(bits, records, interest, e);
    if e !in created {
      assert e !in freed;
    }
  }

  lemma InSlotIffInteresting(bits: seq<int>, records: seq<EventData?>, interest: map<int, EventData>, e: EventData)
    requires |bits| == |records| && Agree(bits, records, interest)
    ensures Somewhere(bits, records, e) <==> e.fd in interest && interest[e.fd] == e
  {
    if Somewhere(bits, records, e) {
      var i :| 0 <= i < |bits| && bits[i] == 1 && records[i] == e;
      assert Holds(records, i, interest);
    }
    if e.fd in interest {
      assert Somewhere(bits, records, interest[e.fd]);
    }
  }
}
