/** Posts in the order of the ids: what a synchronous post can rely on then. */
module InOrder {
  import opened Counters
  import opened Options
  import opened Completion
  import opened Waiting
  import opened Wakeup

  /** Serials between the waiting request and the last success recorded on its queue. */
  function Distance(q: Queue, t: nat): int
    requires Of(q, t).Spinning?
  {
    Of(q, t).serial - q.completed
  }

  /** In every reachable state the wait ends exactly when the distance falls out of the compare's
      window, taken modulo 2^32. */
  lemma SpinEndsByDistance(s: State, x: bool, t: nat)
    requires Reachable(s) && Of(On(s, x), t).Spinning?
    ensures SpinEnds(On(s, x), t) <==> !(1 <= Low(Distance(On(s, x), t)) <= HALF - 2)
  {
    hide Low, CmpCounters, QueueOk, InFlight;
    var q := On(s, x);
    ReachableQueue(s, x);
    WaitingIds(q, InFlight(s, x), HeldHere(s, x), t);
    CmpByDistance(Of(q, t).serial, q.completed);
  }

  /** With posts in id order and no failed completion polled, every success ahead of place `at` is of
      a smaller id, at most twice the queue depth behind it. */
  lemma InOrderAhead(q: Queue, flight: seq<Wc>, held: bool, at: nat, c: nat)
    requires QueueOk(q, flight, held) && q.inOrder && !q.errorPolled && at <= q.posted + 1
    requires c in Ahead(q, flight, at)
    ensures 1 <= at - c <= 2 * MAX_WR + if at <= q.posted then 0 else 1
  {
    hide Low;
    var carried :| Carried(q, flight, carried);
  }

  lemma InOrderSerial(q: Queue, flight: seq<Wc>, held: bool, t: nat)
    requires QueueOk(q, flight, held) && q.inOrder && Of(q, t).Spinning?
    ensures Of(q, t).serial == Of(q, t).at
  {
    hide Low;
  }

  lemma NothingAheadEnds(q: Queue, flight: seq<Wc>, held: bool, p: nat)
    requires QueueOk(q, flight, held) && q.inOrder && !q.errorPolled && p <= q.posted + 1
    ensures forall c | c in Ahead(q, flight, p) :: !Ends(p, c)
  {
    hide Low, CmpCounters, QueueOk, Ahead;
    forall c | c in Ahead(q, flight, p)
      ensures !Ends(p, c)
    {
      InOrderAhead(q, flight, held, p, c);
      CmpInWindow(p, c);
    }
  }

  /** As long as posts follow the ids and no failed completion of the queue has been polled, no waiting
      request can be misled, and it is at most twice the queue depth ahead of the last success. */
  lemma DistanceBounded(s: State, x: bool, t: nat)
    requires Reachable(s) && Of(On(s, x), t).Spinning? && On(s, x).inOrder && !On(s, x).errorPolled
    ensures !Misled(On(s, x), InFlight(s, x), t)
    ensures Distance(On(s, x), t) <= 2048
  {
    hide Low, QueueOk, InFlight, Ends;
    ReachableQueue(s, x);
    var q, flight := On(s, x), InFlight(s, x);
    InOrderSerial(q, flight, HeldHere(s, x), t);
    WaitingIds(q, flight, HeldHere(s, x), t);
    NothingAheadEnds(q, flight, HeldHere(s, x), Of(q, t).at);
    if q.completedAt < Of(q, t).at {
      InOrderAhead(q, flight, HeldHere(s, x), Of(q, t).at, q.completed);
    } else {
      CompletedInOrder(q, flight, HeldHere(s, x));
    }
  }

  lemma CompletedInOrder(q: Queue, flight: seq<Wc>, held: bool)
    requires QueueOk(q, flight, held) && q.inOrder
    ensures q.completed == q.completedAt
  {
    hide Low;
  }

  /** A synchronous post that no success ahead misleads returns only after its own request and every one
      posted before it has been carried out, through any number of wraparounds; it does return once a
      success at most 2^31 + 1 ids past its own has been recorded, and not while the last one is at most
      2^31 - 2 ids short of it. */
  lemma SyncReturn(s: State, x: bool, t: nat)
    requires Reachable(s) && Of(On(s, x), t).Spinning?
    ensures SpinEnds(On(s, x), t) && !Misled(On(s, x), InFlight(s, x), t) ==> AllSucceeded(On(s, x), t)
    ensures On(s, x).inOrder && !On(s, x).errorPolled ==> !Misled(On(s, x), InFlight(s, x), t)
    ensures -(HALF + 1) <= Distance(On(s, x), t) <= 0 ==> SpinEnds(On(s, x), t)
    ensures 0 < Distance(On(s, x), t) <= HALF - 2 ==> !SpinEnds(On(s, x), t)
  {
    hide SpinEnds, AllSucceeded, InFlight, Misled;
    ReachableInv(s);
    SpinEndsByDistance(s, x, t);
    if SpinEnds(On(s, x), t) && !Misled(On(s, x), InFlight(s, x), t) {
      NotMisled(s, x, t);
    }
    if On(s, x).inOrder && !On(s, x).errorPolled {
      DistanceBounded(s, x, t);
    }
  }

  /** Posts in id order, failures included: returning implies success exactly when the distance is not
      positive or lies, taken modulo 2^32, in the compare's window. */
  lemma SyncReturnExactly(s: State, x: bool, t: nat)
    requires Reachable(s) && Of(On(s, x), t).Spinning? && On(s, x).inOrder
    ensures var q := On(s, x);
            (SpinEnds(q, t) ==> AllSucceeded(q, t)) <==>
            Distance(q, t) <= 0 || 1 <= Low(Distance(q, t)) <= HALF - 2
  {
    hide QueueOk, InFlight, SpinEnds, AllSucceeded;
    var q := On(s, x);
    ReachableQueue(s, x);
    SpinEndsByDistance(s, x, t);
    SuccessByDistance(q, InFlight(s, x), HeldHere(s, x), t);
  }

  lemma SuccessByDistance(q: Queue, flight: seq<Wc>, held: bool, t: nat)
    requires QueueOk(q, flight, held) && Of(q, t).Spinning? && q.inOrder
    ensures Distance(q, t) <= 0 ==> AllSucceeded(q, t)
    ensures Distance(q, t) > 2 * MAX_WR ==> !AllSucceeded(q, t)
  {
    hide Low;
    assert PosterOk(q, t) && Of(q, t).serial == Of(q, t).at;
    var carried :| Carried(q, flight, carried);
    if Distance(q, t) > 2 * MAX_WR {
      assert q.errorPolled;
      assert Of(q, t).at !in q.succeeded;
    }
  }

  /** A synchronous post in id order, made before any failed completion has been polled, never returns
      early, whatever follows.  Nor is it left waiting once its request has been carried out, whatever
      fails, as long as no id more than 2^31 + 1 past its own is taken; beyond that the wake-up of a
      thread that has not looked in between may be undone. */
  lemma InOrderPostIsSafe(s: State, x: bool, t: nat)
    requires Reachable(s) && Enabled(s, Post(x, t)) && Of(On(s, x), t).sync && !On(s, x).errorPolled
    requires Posting(On(s, x), t).inOrder
    ensures !MayReturnEarly(Apply(s, Post(x, t)), x, t)
    ensures !MayMissWakeup(Apply(s, Post(x, t)), x, t)
  {
    hide Inv, InFlight, MayReturnEarly, MayMissWakeup, QueueOk, Ahead, Ends;
    EarlyReturnAtPost(s, x, t);
    MissedWakeupAtPost(s, x, t);
    ReachableQueue(s, x);
    NothingAheadEnds(On(s, x), InFlight(s, x), HeldHere(s, x), Of(On(s, x), t).serial);
    forall u: nat | u != t && InWindow(On(s, x), Of(On(s, x), t).serial)
      ensures !Unposted(On(s, x), Of(On(s, x), t).serial, u)
    {
      if Of(On(s, x), u).HasId? {
        OtherIdIsLater(On(s, x), InFlight(s, x), HeldHere(s, x), t, u);
        LaterIdEnds(Of(On(s, x), t).serial, Of(On(s, x), u).serial);
      }
    }
  }

  lemma OtherIdIsLater(q: Queue, flight: seq<Wc>, held: bool, t: nat, u: nat)
    requires QueueOk(q, flight, held) && Of(q, t).HasId? && Posting(q, t).inOrder
    requires u != t && Of(q, u).HasId?
    ensures Of(q, t).serial <= Of(q, u).serial <= q.issued
  {
    hide Low;
    assert PosterOk(q, u);
  }

  /** So with one poster per queue, the synchronous posts made before a failure is polled are safe in
      the same sense. */
  lemma OnePosterIsSafe(s: State, x: bool, t: nat)
    requires Reachable(s) && Enabled(s, Post(x, t)) && Of(On(s, x), t).sync && !On(s, x).errorPolled
    requires On(s, x).users <= {t}
    ensures !MayReturnEarly(Apply(s, Post(x, t)), x, t)
    ensures !MayMissWakeup(Apply(s, Post(x, t)), x, t)
  {
    hide InFlight, MayReturnEarly, MayMissWakeup;
    var s' := Apply(s, Post(x, t));
    AfterStep(s, [], Post(x, t));
    Continued(s, s', [] + [Post(x, t)]);
    OnePosterInOrder(s', x, t);
    InOrderPostIsSafe(s, x, t);
  }
}
