/** The wake-up of a synchronous post, with any number of posters and any failures: exactly when the
    thread can be left waiting although its request has been carried out. */
module Wakeup {
  import opened Counters
  import opened Options
  import opened Completion
  import opened Waiting

  /** The serial and the place of a request. */
  datatype Mark = Mark(serial: nat, at: nat)

  /** The last success on its way, or else the last one recorded: if nothing more is carried out, it
      decides who wakes up. */
  function LastSuccess(flight: seq<Wc>, otherwise: Mark): Mark {
    if flight == [] then otherwise
    else
      var wc := flight[|flight| - 1];
      if wc.ok then Mark(wc.serial, wc.at) else LastSuccess(flight[..|flight| - 1], otherwise)
  }

  function Last(q: Queue, flight: seq<Wc>): Mark {
    LastSuccess(flight, Mark(q.completed, q.completedAt))
  }

  function LastSignaled(pending: seq<Request>, otherwise: Mark): Mark {
    if pending == [] then otherwise
    else
      var r := pending[|pending| - 1];
      if r.signaled then Mark(r.serial, r.at) else LastSignaled(pending[..|pending| - 1], otherwise)
  }

  /** The signaled request posted last: if nothing fails, its success will be the last recorded. */
  function Newest(q: Queue, flight: seq<Wc>): Mark {
    LastSignaled(q.pending, Last(q, flight))
  }

  /** Thread `u` has taken an id, not posted yet, whose success does not end the wait for `p`. */
  predicate Unposted(q: Queue, p: nat, u: nat) {
    Of(q, u).HasId? && Of(q, u).signaled && !Ends(p, Of(q, u).serial)
  }

  /** A request behind place `at` whose success does not end the wait for `p` may still be carried out. */
  predicate Behind(q: Queue, p: nat, at: nat) {
    exists r | r in q.pending :: r.signaled && at <= r.at && !Ends(p, r.serial)
  }

  /** The last success recorded may be one that does not end the wait of thread `t`: the last one there
      is, if the own request has been carried out; a pending one; or one not posted yet.  A queue of which
      all slots behind the newest signaled request are taken carries out no further posts. */
  ghost predicate Missable(q: Queue, flight: seq<Wc>, t: nat) {
    && Of(q, t).Spinning?
    && var p, at := Of(q, t).serial, Of(q, t).at;
       || (at in q.succeeded && !Ends(p, Last(q, flight).serial))
       || (!q.failed && Behind(q, p, at))
       || (!q.failed && q.posted < Newest(q, flight).at + MAX_WR && exists u: nat :: Unposted(q, p, u))
  }

  /** Some continuation leaves thread `t` waiting although its request has been carried out and nothing
      is on its way that could wake it. */
  ghost predicate MayMissWakeup(s: State, x: bool, t: nat)
    requires Of(On(s, x), t).Spinning?
  {
    exists run :: MissesWakeup(s, run, x, t)
  }

  /** All ids taken are in the compare's window above `p`. */
  predicate InWindow(q: Queue, p: nat) {
    q.issued <= p + HALF + 1
  }

  /** Ids taken after the own one count while they are in the compare's window. */
  ghost predicate MissesWakeup(s: State, run: seq<Step>, x: bool, t: nat)
    requires Of(On(s, x), t).Spinning?
  {
    && Return(x, t) !in run && After(s, run).Some?
    && var s' := After(s, run).value;
       var q' := On(s', x);
       && InWindow(q', Of(On(s, x), t).serial)
       && q'.pending == [] && InFlight(s', x) == []
       && AllSucceeded(q', t) && !SpinEnds(q', t)
  }

  // ---- what each step does to the last success

  lemma {:induction false} LastSuccessAfter(flight: seq<Wc>, otherwise: Mark)
    requires flight != []
    ensures var wc := flight[0];
            LastSuccess(flight, otherwise) ==
            LastSuccess(flight[1..], if wc.ok then Mark(wc.serial, wc.at) else otherwise)
  {
    var k := |flight| - 1;
    if k > 0 && !flight[k].ok {
      LastSuccessAfter(flight[..k], otherwise);
      assert flight[..k][1..] == flight[1..][..k - 1];
    }
  }

  lemma FinishLast(q: Queue, flight: seq<Wc>, x: bool, ok: bool)
    requires q.pending != []
    ensures var r := q.pending[0];
            Last(Finish(q, ok), flight + Report(q, x, ok)) ==
            if ok && r.signaled then Mark(r.serial, r.at) else Last(q, flight)
  {
    var f := flight + Report(q, x, ok);
    if |f| > |flight| {
      assert f[..|f| - 1] == flight;
    } else {
      assert f == flight;
    }
  }

  lemma RecordLast(q: Queue, flight: seq<Wc>)
    requires flight != []
    ensures Last(Record(q, flight[0]), flight[1..]) == Last(q, flight)
  {
    LastSuccessAfter(flight, Mark(q.completed, q.completedAt));
  }

  /** Only a signaled success of the adapter changes which success is the last. */
  lemma StepLast(s: State, step: Step, x: bool)
    requires Inv(s) && Enabled(s, step)
    ensures var q := On(s, x);
            Last(On(Apply(s, step), x), InFlight(Apply(s, step), x)) ==
            if step == Process(x, true) && q.pending[0].signaled then Mark(q.pending[0].serial, q.pending[0].at)
            else Last(q, InFlight(s, x))
  {
    hide Low, InFlight, CmpCounters, Report, QueueOk, Inv, LastSuccess;
    var q, flight := On(s, x), InFlight(s, x);
    FlightAfter(s, step, x);
    match step
    case Process(_, ok) => if step.onSend == x { FinishLast(q, flight, x, ok); }
    case Update => if s.held.value.send == x { RecordLast(q, flight); }
    case _ =>
  }

  lemma {:induction false} LastSignaledAfter(pending: seq<Request>, otherwise: Mark)
    requires pending != []
    ensures var r := pending[0];
            LastSignaled(pending, otherwise) ==
            LastSignaled(pending[1..], if r.signaled then Mark(r.serial, r.at) else otherwise)
  {
    var k := |pending| - 1;
    if k > 0 && !pending[k].signaled {
      LastSignaledAfter(pending[..k], otherwise);
      assert pending[..k][1..] == pending[1..][..k - 1];
    }
  }

  // ---- and to the newest signaled request

  /** What posting does to the newest signaled request; nothing else changes it. */
  lemma PostingNewest(q: Queue, flight: seq<Wc>, u: nat)
    requires Of(q, u).HasId?
    ensures Newest(Posting(q, u), flight) ==
            if Of(q, u).signaled then Mark(Of(q, u).serial, q.posted + 1) else Newest(q, flight)
  {
    hide Low, LastSuccess;
    var p := Posting(q, u).pending;
    assert p[..|p| - 1] == q.pending;
  }

  lemma FinishNewest(q: Queue, flight: seq<Wc>, x: bool)
    requires q.pending != []
    ensures Newest(Finish(q, true), flight + Report(q, x, true)) == Newest(q, flight)
  {
    LastSignaledAfter(q.pending, Last(q, flight));
    FinishLast(q, flight, x, true);
  }

  lemma FlightSucceeds(q: Queue, flight: seq<Wc>, held: bool)
    requires QueueOk(q, flight, held) && !q.failed
    ensures forall wc | wc in flight :: wc.ok
    ensures !q.errorPolled
  {
    hide Low, PostersOk;
    var carried :| Carried(q, flight, carried);
  }

  lemma StepNewest(s: State, step: Step, x: bool)
    requires Inv(s) && Enabled(s, step) && !On(Apply(s, step), x).failed
    ensures !On(s, x).failed
    ensures Newest(On(Apply(s, step), x), InFlight(Apply(s, step), x)) ==
            if step.Post? && step.onSend == x && Of(On(s, x), step.t).signaled
            then Mark(Of(On(s, x), step.t).serial, On(s, x).posted + 1)
            else Newest(On(s, x), InFlight(s, x))
  {
    hide Low, InFlight, CmpCounters, Report, QueueOk, Inv, LastSuccess, LastSignaled;
    var q, flight := On(s, x), InFlight(s, x);
    FlightAfter(s, step, x);
    StepLast(s, step, x);
    if step.Post? && step.onSend == x {
      PostingNewest(q, flight, step.t);
    } else if step.Process? && step.onSend == x {
      FinishNewest(q, flight, x);
    }
  }

  /** A queue on which nothing has failed retires requests only up to the newest signaled one. */
  lemma NewestBehind(q: Queue, flight: seq<Wc>, held: bool)
    requires QueueOk(q, flight, held) && !q.failed
    ensures q.retired <= Newest(q, flight).at
  {
    hide Low, PostersOk;
    FlightSucceeds(q, flight, held);
    var carried :| Carried(q, flight, carried);
    assert q.retired <= Last(q, flight).at;
    LastSignaledFrom(q.pending, Last(q, flight), q.retired);
  }

  lemma {:induction false} LastSignaledFrom(pending: seq<Request>, otherwise: Mark, n: nat)
    requires n <= otherwise.at && forall r | r in pending :: n <= r.at
    ensures n <= LastSignaled(pending, otherwise).at
  {
    if pending != [] {
      LastSignaledFrom(pending[..|pending| - 1], otherwise, n);
    }
  }

  // ---- a wake-up that cannot be missed stays so

  /** The own request is signaled, so when it is carried out its success is the last one. */
  lemma OwnIsSignaled(q: Queue, flight: seq<Wc>, held: bool, t: nat)
    requires QueueOk(q, flight, held) && Of(q, t).Spinning?
    ensures forall r | r in q.pending && r.at == Of(q, t).at :: r.signaled
    ensures 1 <= Of(q, t).at <= q.posted
    ensures AllSucceeded(q, t) <==> Of(q, t).at in q.succeeded
  {
    hide Low;
    assert PosterOk(q, t) && SignaledAt(q, Of(q, t).at);
    var carried :| Carried(q, flight, carried);
  }

  /** Only the next request can join those carried out. */
  lemma NextToSucceed(q: Queue, flight: seq<Wc>, held: bool, at: nat)
    requires QueueOk(q, flight, held) && q.pending != []
    ensures at in q.succeeded ==> at < q.pending[0].at
  {
    hide Low, PostersOk;
    var carried :| Carried(q, flight, carried);
  }

  lemma LaterIdEnds(p: nat, c: nat)
    requires p <= c <= p + HALF + 1
    ensures Ends(p, c)
  {
    CmpInWindow(p, c);
  }

  /** The last success goes on ending the wait once the own request has been carried out. */
  lemma StepKeepsLast(s: State, step: Step, x: bool, t: nat)
    requires Inv(s) && Enabled(s, step) && Of(On(s, x), t).Spinning? && step != Return(x, t)
    requires !Missable(On(s, x), InFlight(s, x), t)
    ensures var q', at := On(Apply(s, step), x), Of(On(s, x), t).at;
            && Of(q', t) == Of(On(s, x), t)
            && (at in q'.succeeded ==> Ends(Of(q', t).serial, Last(q', InFlight(Apply(s, step), x)).serial))
  {
    hide Low, InFlight, CmpCounters, Newest, Ends, QueueOk, Inv, Report, Last;
    var q, flight := On(s, x), InFlight(s, x);
    StepLast(s, step, x);
    InvQueue(s, x);
    OwnIsSignaled(q, flight, HeldHere(s, x), t);
    if step == Process(x, true) {
      NextToSucceed(q, flight, HeldHere(s, x), Of(q, t).at);
      assert q.pending[0] in q.pending;
    }
  }

  /** As long as nothing fails, no request that does not end the wait is posted behind the own one. */
  lemma StepKeepsNoneBehind(s: State, step: Step, x: bool, t: nat)
    requires Inv(s) && Enabled(s, step) && Of(On(s, x), t).Spinning? && step != Return(x, t)
    requires !Missable(On(s, x), InFlight(s, x), t)
    requires !On(Apply(s, step), x).failed && InWindow(On(Apply(s, step), x), Of(On(s, x), t).serial)
    ensures !Behind(On(Apply(s, step), x), Of(On(s, x), t).serial, Of(On(s, x), t).at)
  {
    hide Low, InFlight, CmpCounters, Newest, Ends, QueueOk, Inv, Report, Last;
    var q, flight := On(s, x), InFlight(s, x);
    StepNewest(s, step, x);
    InvQueue(s, x);
    NewestBehind(q, flight, HeldHere(s, x));
    if step.Post? && step.onSend == x {
      assert !Unposted(q, Of(q, t).serial, step.t);
    }
  }

  /** And nobody holds an id that does not end the wait and can still be posted. */
  lemma StepKeepsPosted(s: State, step: Step, x: bool, t: nat)
    requires Inv(s) && Enabled(s, step) && Of(On(s, x), t).Spinning? && step != Return(x, t)
    requires !Missable(On(s, x), InFlight(s, x), t)
    requires !On(Apply(s, step), x).failed && InWindow(On(Apply(s, step), x), Of(On(s, x), t).serial)
    ensures var q', p := On(Apply(s, step), x), Of(On(s, x), t).serial;
            q'.posted < Newest(q', InFlight(Apply(s, step), x)).at + MAX_WR ==> !exists u: nat :: Unposted(q', p, u)
  {
    hide Low, InFlight, CmpCounters, Newest, Ends, QueueOk, Inv, Report, Last, Behind;
    var q, flight, p := On(s, x), InFlight(s, x), Of(On(s, x), t).serial;
    var q' := On(Apply(s, step), x);
    StepNewest(s, step, x);
    InvQueue(s, x);
    NewestBehind(q, flight, HeldHere(s, x));
    WaitingIds(q, flight, HeldHere(s, x), t);
    forall u: nat | q.posted < Newest(q, flight).at + MAX_WR
      ensures !Unposted(q', p, u)
    {
      assert !Unposted(q, p, u);
      if step.Alloc? && step.onSend == x && step.t == u {
        LaterIdEnds(p, q.issued + 1);
      } else {
        assert Of(q', u) == Of(q, u) || !Of(q', u).HasId?;
      }
    }
  }

  /** A thread that cannot miss its wake-up stays so, whatever comes after it and whatever fails. */
  lemma StepKeepsWakeup(s: State, step: Step, x: bool, t: nat)
    requires Inv(s) && Enabled(s, step) && Of(On(s, x), t).Spinning? && step != Return(x, t)
    requires InWindow(On(Apply(s, step), x), Of(On(s, x), t).serial)
    requires !Missable(On(s, x), InFlight(s, x), t)
    ensures Of(On(Apply(s, step), x), t) == Of(On(s, x), t)
    ensures !Missable(On(Apply(s, step), x), InFlight(Apply(s, step), x), t)
  {
    hide Low, InFlight, CmpCounters, Newest, Ends, QueueOk, Inv, Report, Last, Behind, Apply, Unposted, Enabled;
    StepKeepsLast(s, step, x, t);
    if !On(Apply(s, step), x).failed {
      StepKeepsNoneBehind(s, step, x, t);
      StepKeepsPosted(s, step, x, t);
    }
  }

  lemma {:induction false} RunKeepsWakeup(s: State, run: seq<Step>, x: bool, t: nat)
    requires Inv(s) && Of(On(s, x), t).Spinning? && Return(x, t) !in run && After(s, run).Some?
    requires InWindow(On(After(s, run).value, x), Of(On(s, x), t).serial)
    requires !Missable(On(s, x), InFlight(s, x), t)
    ensures !Missable(On(After(s, run).value, x), InFlight(After(s, run).value, x), t)
    ensures Of(On(After(s, run).value, x), t) == Of(On(s, x), t)
  {
    hide Inv, InFlight, Missable, Enabled, Apply;
    if run != [] {
      var k := |run| - 1;
      var before := After(s, run[..k]).value;
      RunKeeps(s, run[..k]);
      IdsGrow(before, run[k], x);
      RunKeepsWakeup(s, run[..k], x, t);
      StepKeepsWakeup(before, run[k], x, t);
    }
  }

  lemma IdsGrow(s: State, step: Step, x: bool)
    requires Enabled(s, step)
    ensures On(s, x).issued <= On(Apply(s, step), x).issued
  {
  }

  lemma {:induction false} RunIdsGrow(s: State, run: seq<Step>, x: bool)
    requires After(s, run).Some?
    ensures On(s, x).issued <= On(After(s, run).value, x).issued
  {
    hide Enabled, Apply;
    if run != [] {
      var k := |run| - 1;
      RunIdsGrow(s, run[..k], x);
      IdsGrow(After(s, run[..k]).value, run[k], x);
    }
  }

  /** At rest with the own request carried out, the wait has ended exactly if the last success ends it. */
  lemma WaitAtRest(s: State, x: bool, t: nat)
    requires Inv(s) && Of(On(s, x), t).Spinning? && InFlight(s, x) == []
    ensures SpinEnds(On(s, x), t) <==> Ends(Of(On(s, x), t).serial, Last(On(s, x), InFlight(s, x)).serial)
    ensures AllSucceeded(On(s, x), t) <==> Of(On(s, x), t).at in On(s, x).succeeded
  {
    hide InFlight, Low, CmpCounters, QueueOk, AllSucceeded;
    InvQueue(s, x);
    WaitingIds(On(s, x), [], HeldHere(s, x), t);
    OwnIsSignaled(On(s, x), [], HeldHere(s, x), t);
  }

  // ---- how a wake-up is missed

  /** The adapter fails all that is pending. */
  lemma {:induction false} FailAll(s: State, x: bool) returns (run: seq<Step>, s': State)
    requires Inv(s)
    ensures Settling(run, x) && After(s, run) == Some(s') && Inv(s')
    ensures On(s', x).pending == [] && Last(On(s', x), InFlight(s', x)) == Last(On(s, x), InFlight(s, x))
    decreases |On(s, x).pending|
  {
    hide Inv, InFlight, Last, Low, CmpCounters;
    if On(s, x).pending == [] {
      run, s' := [], s;
    } else {
      var step := Process(x, false);
      StepKeeps(s, step);
      StepLast(s, step, x);
      run, s' := FailAll(Apply(s, step), x);
      StepAndRun(s, step, run);
      run := [step] + run;
    }
  }

  /** The poller works on until nothing is on its way. */
  lemma {:induction false} RecordAll(s: State, x: bool) returns (run: seq<Step>, s': State)
    requires Inv(s)
    ensures Settling(run, x) && After(s, run) == Some(s') && Inv(s') && InFlight(s', x) == []
    ensures On(s', x).pending == On(s, x).pending && On(s', x).failed == On(s, x).failed
    ensures Last(On(s', x), []) == Last(On(s, x), InFlight(s, x))
    decreases PollerWork(s)
  {
    hide Inv, CmpCounters, Low, Last;
    if PollerWork(s) == 0 {
      run, s' := [], s;
    } else {
      var step := PollerStep(s);
      StepKeeps(s, step);
      StepLast(s, step, x);
      run, s' := RecordAll(Apply(s, step), x);
      StepAndRun(s, step, run);
      run := [step] + run;
    }
  }

  /** The own request has been carried out, and the last success does not end the wait: so it stays, if
      everything behind fails. */
  lemma MissedByLast(s: State, x: bool, t: nat) returns (run: seq<Step>)
    requires Inv(s) && Of(On(s, x), t).Spinning? && InWindow(On(s, x), Of(On(s, x), t).serial)
    requires Of(On(s, x), t).at in On(s, x).succeeded
    requires !Ends(Of(On(s, x), t).serial, Last(On(s, x), InFlight(s, x)).serial)
    ensures MissesWakeup(s, run, x, t)
  {
    hide Inv, InFlight, Ends, Last, AllSucceeded, SpinEnds, After, CmpCounters, Low;
    var run1, s1 := FailAll(s, x);
    var run2, s2 := RecordAll(s1, x);
    AfterJoined(s, run1, run2);
    run := run1 + run2;
    SettlingKeeps(s, run, x);
    WaitAtRest(s2, x, t);
  }

  /** The adapter carries out what is pending up to a request that does not end the wait. */
  lemma MissedByPending(s: State, x: bool, t: nat, i: nat) returns (run: seq<Step>)
    requires Inv(s) && Of(On(s, x), t).Spinning? && InWindow(On(s, x), Of(On(s, x), t).serial)
    requires !On(s, x).failed && i < |On(s, x).pending| && On(s, x).pending[i].signaled
    requires Of(On(s, x), t).at <= On(s, x).pending[i].at && !Ends(Of(On(s, x), t).serial, On(s, x).pending[i].serial)
    ensures MissesWakeup(s, run, x, t)
  {
    hide Inv, InFlight, Ends, Last, After, CmpCounters, Low, QueueOk;
    var run1, s1 := CarryOut(s, x, i);
    var step := Process(x, true);
    AfterStep(s, run1, step);
    StepKeeps(s1, step);
    StepLast(s1, step, x);
    var run2, s2 := run1 + [step], Apply(s1, step);
    SettlingKeeps(s, run2, x);
    PlaceOf(s, x, i);
    InvQueue(s2, x);
    CarriedOut(On(s2, x), InFlight(s2, x), HeldHere(s2, x), t);
    var run3 := MissedByLast(s2, x, t);
    AfterJoined(s, run2, run3);
    run := run2 + run3;
  }

  lemma CarriedOut(q: Queue, flight: seq<Wc>, held: bool, t: nat)
    requires QueueOk(q, flight, held) && !q.failed && Of(q, t).Spinning? && Of(q, t).at <= Processed(q)
    ensures Of(q, t).at in q.succeeded
  {
    hide Low;
    assert PosterOk(q, t);
  }

  /** The queue can always come to rest without a failure; then the slots up to the newest signaled
      request are free. */
  lemma Settle(s: State, x: bool) returns (run: seq<Step>, s': State)
    requires Inv(s) && !On(s, x).failed
    ensures Settling(run, x) && After(s, run) == Some(s') && Inv(s')
    ensures On(s', x).pending == [] && !On(s', x).failed
    ensures On(s', x).retired == Newest(On(s, x), InFlight(s, x)).at
  {
    hide Inv, InFlight, Low, CmpCounters, After, QueueOk, Newest;
    var run1, s1 := CarryOut(s, x, |On(s, x).pending|);
    var run2;
    run2, s' := RecordAll(s1, x);
    AfterJoined(s, run1, run2);
    run := run1 + run2;
    SettlingNewest(s, run, x);
    InvQueue(s', x);
    AtRest(On(s', x), HeldHere(s', x));
  }

  lemma AtRest(q: Queue, held: bool)
    requires QueueOk(q, [], held) && !q.failed && q.pending == []
    ensures q.retired == Newest(q, []).at
  {
    hide Low;
    FlightSucceeds(q, [], held);
  }

  lemma {:induction false} SettlingNewest(s: State, run: seq<Step>, x: bool)
    requires Inv(s) && Settling(run, x) && After(s, run).Some? && !On(After(s, run).value, x).failed
    ensures var s' := After(s, run).value;
            Newest(On(s', x), InFlight(s', x)) == Newest(On(s, x), InFlight(s, x))
  {
    hide Inv, InFlight, Newest, Enabled, Apply;
    if run != [] {
      var k := |run| - 1;
      RunKeeps(s, run[..k]);
      StepNewest(After(s, run[..k]).value, run[k], x);
      SettlingNewest(s, run[..k], x);
    }
  }

  /** Once the queue is at rest, the thread that holds the id posts it. */
  lemma MissedByUnposted(s: State, x: bool, t: nat, u: nat) returns (run: seq<Step>)
    requires Inv(s) && Of(On(s, x), t).Spinning? && InWindow(On(s, x), Of(On(s, x), t).serial)
    requires !On(s, x).failed && On(s, x).posted < Newest(On(s, x), InFlight(s, x)).at + MAX_WR
    requires Unposted(On(s, x), Of(On(s, x), t).serial, u)
    ensures MissesWakeup(s, run, x, t)
  {
    hide Inv, InFlight, Ends, Newest, AllSucceeded, SpinEnds, After, CmpCounters, Low, QueueOk;
    var run1, s1 := Settle(s, x);
    SettlingKeeps(s, run1, x);
    AfterStep(s, run1, Post(x, u));
    StepKeeps(s1, Post(x, u));
    var run2, s2 := run1 + [Post(x, u)], Apply(s1, Post(x, u));
    InvQueue(s1, x);
    WaitingIds(On(s1, x), InFlight(s1, x), HeldHere(s1, x), t);
    var run3 := MissedByPending(s2, x, t, 0);
    AfterJoined(s, run2, run3);
    run := run2 + run3;
  }

  // ---- a synchronous post can always be made and come back

  /** Nothing has failed on the queue, and behind its newest signaled request there is room: then a thread
      that makes a synchronous post gets the next id and the next place in posting order, and some
      continuation carries the request out, records it and lets the thread go. */
  lemma SyncPostCompletes(s: State, x: bool, t: nat) returns (run: seq<Step>, s': State)
    requires Reachable(s) && Of(On(s, x), t).Idle? && !On(s, x).failed
    requires On(s, x).posted < Newest(On(s, x), InFlight(s, x)).at + 1024
    ensures After(s, run) == Some(s')
    ensures var q, q' := On(s, x), On(s', x);
            && Of(q', t).Idle? && !q'.failed && q'.issued == q.issued + 1 && q'.posted == q.posted + 1
            && q'.posted in q'.succeeded && q'.lastCompl == Low(q.issued + 1) && q'.completedAt == q'.posted
  {
    hide Inv, InFlight, Low, CmpCounters, After, QueueOk, Newest, Ends, AllSucceeded, SpinEnds, Enabled, Apply;
    ReachableInv(s);
    var s1 := Allocated(s, x, t);
    var alloc := Alloc(x, t, true, true);
    StepAndRun(s, alloc, []);
    var run2, s2 := Settle(s1, x);
    SettlingKeeps(s1, run2, x);
    StepAndRun(s, alloc, run2);
    var s3 := Made(s2, x, t);
    AfterStep(s, [alloc] + run2, Post(x, t));
    var run4, s4 := CarriedAlone(s3, x, t);
    AfterJoined(s, [alloc] + run2 + [Post(x, t)], run4);
    AfterStep(s, [alloc] + run2 + [Post(x, t)] + run4, Return(x, t));
    run := [alloc] + run2 + [Post(x, t)] + run4 + [Return(x, t)];
    s' := Apply(s4, Return(x, t));
    Left(s4, x, t);
  }

  /** An asynchronous post on an idle, unfailed queue: it gets the next id and place, the thread goes on at
      once, and when the adapter has carried it out there is one more completion if it was signaled, and
      none otherwise. */
  lemma AsyncPost(s: State, x: bool, t: nat, signaled: bool) returns (s': State)
    requires Reachable(s) && Of(On(s, x), t).Idle? && (!x ==> signaled)
    requires On(s, x).pending == [] && !On(s, x).failed && On(s, x).posted < On(s, x).retired + 1024
    ensures After(s, [Alloc(x, t, signaled, false), Post(x, t), Process(x, true)]) == Some(s')
    ensures var q, q' := On(s, x), On(s', x);
            && Of(q', t).Idle? && q'.issued == q.issued + 1 && q'.posted == q.posted + 1
            && q'.posted in q'.succeeded && q'.pending == [] && s'.held == s.held
            && s'.cq == s.cq + if signaled then [Wc(x, Low(q.issued + 1), q.issued + 1, q.posted + 1, true)] else []
  {
    hide Inv, InFlight, CmpCounters, After, QueueOk, Low;
    ReachableInv(s);
    InvQueue(s, x);
    LastIssued(On(s, x), InFlight(s, x), HeldHere(s, x));
    NextId(On(s, x).issued);
    var alloc := Alloc(x, t, signaled, false);
    var s1 := Apply(s, alloc);
    var s2 := Apply(s1, Post(x, t));
    s' := Apply(s2, Process(x, true));
    var none: seq<Step> := [];
    StepAndRun(s2, Process(x, true), none);
    StepAndRun(s1, Post(x, t), [Process(x, true)]);
    StepAndRun(s, alloc, [Post(x, t), Process(x, true)]);
    assert [Process(x, true)] + none == [Process(x, true)];
    assert [Post(x, t)] + [Process(x, true)] == [Post(x, t), Process(x, true)];
    assert [alloc] + [Post(x, t), Process(x, true)] == [alloc, Post(x, t), Process(x, true)];
    NoStepsLeft(s');
  }

  lemma NoStepsLeft(s: State)
    ensures After(s, []) == Some(s)
  {
  }

  lemma Allocated(s: State, x: bool, t: nat) returns (s1: State)
    requires Inv(s) && Of(On(s, x), t).Idle? && !On(s, x).failed
    ensures Enabled(s, Alloc(x, t, true, true)) && s1 == Apply(s, Alloc(x, t, true, true)) && Inv(s1)
    ensures var q, q1 := On(s, x), On(s1, x);
            && Of(q1, t) == HasId(Low(q.issued + 1), q.issued + 1, true, true)
            && !q1.failed && q1.issued == q.issued + 1 && q1.posted == q.posted
            && Newest(q1, InFlight(s1, x)) == Newest(q, InFlight(s, x))
  {
    hide Inv, InFlight, Low, CmpCounters, QueueOk, Newest;
    s1 := Apply(s, Alloc(x, t, true, true));
    StepKeeps(s, Alloc(x, t, true, true));
    StepNewest(s, Alloc(x, t, true, true), x);
    InvQueue(s, x);
    LastIssued(On(s, x), InFlight(s, x), HeldHere(s, x));
    NextId(On(s, x).issued);
  }

  lemma LastIssued(q: Queue, flight: seq<Wc>, held: bool)
    requires QueueOk(q, flight, held)
    ensures q.last == Low(q.issued)
  {
    hide Low;
  }

  lemma Made(s: State, x: bool, t: nat) returns (s1: State)
    requires Inv(s) && Of(On(s, x), t).HasId? && Of(On(s, x), t).sync && Of(On(s, x), t).signaled
    requires On(s, x).pending == [] && !On(s, x).failed && On(s, x).posted < On(s, x).retired + MAX_WR
    ensures Enabled(s, Post(x, t)) && s1 == Apply(s, Post(x, t)) && Inv(s1)
    ensures var q, q1 := On(s, x), On(s1, x);
            && Of(q1, t) == Spinning(Of(q, t).wrId, Of(q, t).serial, q.posted + 1)
            && !q1.failed && q1.issued == q.issued && q1.posted == q.posted + 1
            && q1.pending == [Request(Of(q, t).wrId, Of(q, t).serial, q.posted + 1, true)]
  {
    hide Inv, Low, CmpCounters;
    s1 := Apply(s, Post(x, t));
    StepKeeps(s, Post(x, t));
  }

  /** The one pending request is carried out and recorded. */
  lemma CarriedAlone(s: State, x: bool, t: nat) returns (run: seq<Step>, s1: State)
    requires Inv(s) && !On(s, x).failed && Of(On(s, x), t).Spinning?
    requires var p := Of(On(s, x), t); On(s, x).pending == [Request(p.wrId, p.serial, p.at, true)]
    requires Of(On(s, x), t).at == On(s, x).posted
    ensures After(s, run) == Some(s1) && Inv(s1) && Enabled(s1, Return(x, t))
    ensures var q, q1 := On(s, x), On(s1, x);
            && !q1.failed && q1.issued == q.issued && q1.posted == q.posted && Of(q1, t) == Of(q, t)
            && q.posted in q1.succeeded && q1.lastCompl == Of(q, t).wrId && q1.completedAt == q.posted
  {
    hide Inv, InFlight, Low, CmpCounters, After, QueueOk, Last, Ends, Apply;
    var step := Process(x, true);
    var s2 := Apply(s, step);
    Processing(s, x);
    StepKeeps(s, step);
    StepLast(s, step, x);
    StepAndRun(s, step, []);
    var run2;
    run2, s1 := RecordAll(s2, x);
    StepAndRun(s, step, run2);
    run := [step] + run2;
    SettlingKeeps(s, run, x);
    WaitAtRest(s1, x, t);
    LaterIdEnds(Of(On(s, x), t).serial, Of(On(s, x), t).serial);
    InvQueue(s1, x);
    WaitingIds(On(s1, x), [], HeldHere(s1, x), t);
    LastAtRest(On(s1, x));
    CarriedOut(On(s1, x), [], HeldHere(s1, x), t);
  }

  lemma Processing(s: State, x: bool)
    requires On(s, x).pending != [] && !On(s, x).failed
    ensures Enabled(s, Process(x, true))
    ensures var q := On(Apply(s, Process(x, true)), x);
            q.pending == On(s, x).pending[1..] && !q.failed
  {
    hide Low, CmpCounters;
  }

  lemma LastAtRest(q: Queue)
    ensures Last(q, []) == Mark(q.completed, q.completedAt)
  {
  }

  lemma Left(s: State, x: bool, t: nat)
    requires Enabled(s, Return(x, t))
    ensures var q, q' := On(s, x), On(Apply(s, Return(x, t)), x);
            && Of(q', t).Idle? && q'.failed == q.failed && q'.issued == q.issued && q'.posted == q.posted
            && q'.succeeded == q.succeeded && q'.lastCompl == q.lastCompl && q'.completedAt == q.completedAt
  {
    hide CmpCounters;
  }

  // ---- the exact conditions

  /** In every reachable state, failures before and after it included: thread `t` may miss its wake-up if
      and only if the success recorded last can be one that does not end its wait. */
  lemma WakeupMissedExactly(s: State, x: bool, t: nat)
    requires Reachable(s) && Of(On(s, x), t).Spinning?
    ensures MayMissWakeup(s, x, t) <==>
            InWindow(On(s, x), Of(On(s, x), t).serial) && Missable(On(s, x), InFlight(s, x), t)
  {
    hide Inv, InFlight, AllSucceeded, SpinEnds, Newest, Ends, Last;
    ReachableInv(s);
    if InWindow(On(s, x), Of(On(s, x), t).serial) && Missable(On(s, x), InFlight(s, x), t) {
      var run := MissableMisses(s, x, t);
    } else if run :| MissesWakeup(s, run, x, t) {
      RunIdsGrow(s, run, x);
      RunKeeps(s, run);
      RunKeepsWakeup(s, run, x, t);
      WaitAtRest(After(s, run).value, x, t);
    }
  }

  lemma MissableMisses(s: State, x: bool, t: nat) returns (run: seq<Step>)
    requires Inv(s) && Missable(On(s, x), InFlight(s, x), t) && InWindow(On(s, x), Of(On(s, x), t).serial)
    ensures MissesWakeup(s, run, x, t)
  {
    hide Inv, InFlight, Newest, Ends, Last, MissesWakeup, Unposted;
    var q, p, at := On(s, x), Of(On(s, x), t).serial, Of(On(s, x), t).at;
    if at in q.succeeded && !Ends(p, Last(q, InFlight(s, x)).serial) {
      run := MissedByLast(s, x, t);
    } else if !q.failed && Behind(q, p, at) {
      var r :| r in q.pending && r.signaled && at <= r.at && !Ends(p, r.serial);
      var i :| 0 <= i < |q.pending| && q.pending[i] == r;
      run := MissedByPending(s, x, t, i);
    } else {
      var u: nat :| Unposted(q, p, u);
      run := MissedByUnposted(s, x, t, u);
    }
  }

  /** Seen just before the post: a synchronous post can miss its wake-up if and only if another thread
      has taken an id for a signaled request, not posted it yet, and its success does not end the wait
      (inside the compare's window, a smaller id); and nothing has failed on the queue, so that it can
      succeed. */
  lemma MissedWakeupAtPost(s: State, x: bool, t: nat)
    requires Reachable(s) && Enabled(s, Post(x, t)) && Of(On(s, x), t).sync
    ensures MayMissWakeup(Apply(s, Post(x, t)), x, t) <==>
            var q, p := On(s, x), Of(On(s, x), t).serial;
            !q.failed && InWindow(q, p) && exists u: nat :: u != t && Unposted(q, p, u)
  {
    hide Inv, InFlight, MayMissWakeup, Newest, Last, Low, CmpCounters, Unposted, Behind, QueueOk, Ends;
    var s' := Apply(s, Post(x, t));
    AfterStep(s, [], Post(x, t));
    Continued(s, s', [] + [Post(x, t)]);
    WakeupMissedExactly(s', x, t);
    JustPosted(s, x, t);
  }

  /** Just posted, the own request is the last one pending, signaled, and not carried out. */
  lemma JustPosted(s: State, x: bool, t: nat)
    requires Reachable(s) && Enabled(s, Post(x, t)) && Of(On(s, x), t).sync
    ensures var q, p := On(s, x), Of(On(s, x), t).serial;
            var q' := On(Apply(s, Post(x, t)), x);
            && Of(q', t) == Spinning(Of(q, t).wrId, p, q.posted + 1) && q.posted + 1 !in q'.succeeded
            && !Behind(q', p, q.posted + 1) && q'.failed == q.failed && q'.posted == q.posted + 1
            && (!q.failed ==> Newest(q', InFlight(Apply(s, Post(x, t)), x)).at == q'.posted)
            && forall u: nat :: Unposted(q', p, u) <==> u != t && Unposted(q, p, u)
  {
    hide Inv, InFlight, Newest, Low, CmpCounters, QueueOk;
    var q, p := On(s, x), Of(On(s, x), t).serial;
    ReachableInv(s);
    InvQueue(s, x);
    SyncIsSignaled(s, x, t);
    LaterIdEnds(p, p);
    PostedLast(q, InFlight(s, x), HeldHere(s, x));
    if !q.failed {
      StepNewest(s, Post(x, t), x);
    }
  }

  lemma PostedLast(q: Queue, flight: seq<Wc>, held: bool)
    requires QueueOk(q, flight, held)
    ensures forall r | r in q.pending :: r.at <= q.posted
    ensures q.posted + 1 !in q.succeeded
  {
    hide Low, PostersOk;
    var carried :| Carried(q, flight, carried);
  }

  lemma SyncIsSignaled(s: State, x: bool, t: nat)
    requires Inv(s) && Of(On(s, x), t).HasId? && Of(On(s, x), t).sync
    ensures Of(On(s, x), t).signaled
  {
    hide Low, InFlight;
    InvQueue(s, x);
    assert PosterOk(On(s, x), t);
  }
}
