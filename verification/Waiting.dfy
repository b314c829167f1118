/** The wait of a synchronous post, with any number of posters and any failures: exactly when it can
    end before the request has been carried out. */
module Waiting {
  import opened Counters
  import opened Options
  import opened Completion

  /** Does recording the success of serial `c` end the wait for serial `p`? */
  predicate Ends(p: nat, c: nat) {
    CmpCounters(Low(p), Low(c)) <= 0
  }

  /** The waiting request and every one posted before it on the queue have been carried out. */
  ghost predicate AllSucceeded(q: Queue, t: nat) {
    Of(q, t).Spinning? && forall n: nat | 1 <= n <= Of(q, t).at :: n in q.succeeded
  }

  // ---- returning early

  /** The serials of the requests posted before place `at` whose success is the last one recorded, is
      on its way, or may still be reported. */
  function Ahead(q: Queue, flight: seq<Wc>, at: nat): set<nat> {
    (if q.completedAt < at then {q.completed} else {})
    + (set wc | wc in flight && wc.ok && wc.at < at :: wc.serial)
    + (if q.failed then {} else set r | r in q.pending && r.signaled && r.at < at :: r.serial)
  }

  /** The same for the request posted next. */
  function AheadOfNext(q: Queue, flight: seq<Wc>): set<nat> {
    Ahead(q, flight, q.posted + 1)
  }

  /** A success ahead of the waiting request ends its wait. */
  ghost predicate Misled(q: Queue, flight: seq<Wc>, t: nat) {
    Of(q, t).Spinning? && exists c | c in Ahead(q, flight, Of(q, t).at) :: Ends(Of(q, t).serial, c)
  }

  /** Some continuation lets thread `t` return before its request has been carried out. */
  ghost predicate MayReturnEarly(s: State, x: bool, t: nat) {
    exists run :: ReturnsEarly(s, run, x, t)
  }

  ghost predicate ReturnsEarly(s: State, run: seq<Step>, x: bool, t: nat) {
    && Return(x, t) !in run && After(s, run).Some?
    && SpinEnds(On(After(s, run).value, x), t) && !AllSucceeded(On(After(s, run).value, x), t)
  }

  lemma FinishAhead(q: Queue, flight: seq<Wc>, send: bool, ok: bool, at: nat)
    requires q.pending != [] && (q.failed ==> !ok)
    ensures Ahead(Finish(q, ok), flight + Report(q, send, ok), at) <= Ahead(q, flight, at)
  {
    assert q.pending[0] in q.pending;
  }

  lemma RecordAhead(q: Queue, flight: seq<Wc>, at: nat)
    requires flight != []
    ensures Ahead(Record(q, flight[0]), flight[1..], at) <= Ahead(q, flight, at)
  {
    assert flight[0] in flight;
  }

  /** Later posts come behind a waiting request, so what is ahead of it only shrinks. */
  lemma StepKeepsAhead(s: State, step: Step, x: bool, t: nat)
    requires Inv(s) && Enabled(s, step) && Of(On(s, x), t).Spinning? && step != Return(x, t)
    ensures var s', at := Apply(s, step), Of(On(s, x), t).at;
            && Of(On(s', x), t) == Of(On(s, x), t)
            && Ahead(On(s', x), InFlight(s', x), at) <= Ahead(On(s, x), InFlight(s, x), at)
            && On(s, x).succeeded <= On(s', x).succeeded
  {
    hide Low, InFlight, CmpCounters, Ahead, Report, QueueOk, Inv;
    var q, flight, at := On(s, x), InFlight(s, x), Of(On(s, x), t).at;
    FlightAfter(s, step, x);
    match step
    case Alloc(_, _, _, _) => SameAhead(q, flight, On(Apply(s, step), x), at);
    case Post(_, u) => if step.onSend == x { PostingAhead(s, x, u, t); }
    case Process(_, ok) => if step.onSend == x { FinishAhead(q, flight, x, ok, at); }
    case Poll => SameAhead(q, flight, On(Apply(s, step), x), at);
    case Update => if s.held.value.send == x { RecordAhead(q, flight, at); }
    case Return(_, _) => SameAhead(q, flight, On(Apply(s, step), x), at);
  }

  lemma SameAhead(q: Queue, flight: seq<Wc>, q': Queue, at: nat)
    requires q'.completed == q.completed && q'.completedAt == q.completedAt
    requires q'.failed == q.failed && q'.pending == q.pending
    ensures Ahead(q', flight, at) == Ahead(q, flight, at)
  {
  }

  lemma PostingAhead(s: State, x: bool, u: nat, t: nat)
    requires Inv(s) && Of(On(s, x), u).HasId? && Of(On(s, x), t).Spinning?
    ensures var q, flight, at := On(s, x), InFlight(s, x), Of(On(s, x), t).at;
            Ahead(Posting(q, u), flight, at) == Ahead(q, flight, at)
  {
    hide Low, InFlight, CmpCounters;
    assert QueueOk(On(s, x), InFlight(s, x), HeldHere(s, x)) && PosterOk(On(s, x), t);
  }

  lemma {:induction false} RunKeepsAhead(s: State, run: seq<Step>, x: bool, t: nat)
    requires Inv(s) && After(s, run).Some? && Of(On(s, x), t).Spinning? && Return(x, t) !in run
    ensures var s', at := After(s, run).value, Of(On(s, x), t).at;
            && Of(On(s', x), t) == Of(On(s, x), t)
            && Ahead(On(s', x), InFlight(s', x), at) <= Ahead(On(s, x), InFlight(s, x), at)
            && On(s, x).succeeded <= On(s', x).succeeded
  {
    hide Inv, Ahead, Enabled, Apply, InFlight;
    if run != [] {
      var k := |run| - 1;
      RunKeepsAhead(s, run[..k], x, t);
      RunKeeps(s, run[..k]);
      StepKeepsAhead(After(s, run[..k]).value, run[k], x, t);
    }
  }

  lemma NotMisled(s: State, x: bool, t: nat)
    requires Inv(s) && SpinEnds(On(s, x), t) && !Misled(On(s, x), InFlight(s, x), t)
    ensures AllSucceeded(On(s, x), t)
  {
    hide Low, InFlight, CmpCounters;
    var q, flight := On(s, x), InFlight(s, x);
    assert QueueOk(q, flight, HeldHere(s, x)) && PosterOk(q, t);
    var carried :| Carried(q, flight, carried);
    assert Ends(Of(q, t).serial, q.completed);
    assert q.completed !in Ahead(q, flight, Of(q, t).at);
  }

  // ---- letting the adapter and the poller finish

  /** Only the poller works, or the adapter on queue `x`. */
  predicate Settling(run: seq<Step>, x: bool) {
    forall i | 0 <= i < |run| :: run[i].Poll? || run[i].Update? || (run[i].Process? && run[i].onSend == x)
  }

  /** The successful report of a request. */
  function Success(x: bool, r: Request): Wc {
    Wc(x, r.wrId, r.serial, r.at, true)
  }

  /** The adapter carries out the next `k` requests. */
  lemma {:induction false} CarryOut(s: State, x: bool, k: nat) returns (run: seq<Step>, s': State)
    requires Inv(s) && !On(s, x).failed && k <= |On(s, x).pending|
    ensures Settling(run, x) && After(s, run) == Some(s') && Inv(s')
    ensures !On(s', x).failed && On(s', x).pending == On(s, x).pending[k..]
    ensures forall i | 0 <= i < k && On(s, x).pending[i].signaled ::
              Success(x, On(s, x).pending[i]) in InFlight(s', x)
  {
    hide Inv, InFlight;
    if k == 0 {
      run, s' := [], s;
    } else {
      var before;
      run, before := CarryOut(s, x, k - 1);
      AfterStep(s, run, Process(x, true));
      FlightAfter(before, Process(x, true), x);
      StepKeeps(before, Process(x, true));
      run, s' := run + [Process(x, true)], Apply(before, Process(x, true));
    }
  }

  /** The step with which the poller goes on. */
  function PollerStep(s: State): Step {
    if s.held.Some? then Update else Poll
  }

  function PollerWork(s: State): nat {
    2 * |s.cq| + if s.held.Some? then 1 else 0
  }

  /** Putting a step in front of a run. */
  lemma StepAndRun(s: State, step: Step, run: seq<Step>)
    requires Enabled(s, step)
    ensures After(s, [step] + run) == After(Apply(s, step), run)
  {
    assert [] + [step] == [step];
    AfterStep(s, [], step);
    AfterJoined(s, [step], run);
  }

  /** The poller works on until it has recorded a success on its way. */
  lemma {:induction false} RecordNext(s: State, x: bool, wc: Wc) returns (run: seq<Step>, s': State)
    requires Inv(s) && wc in InFlight(s, x) && wc.ok
    ensures Settling(run, x) && After(s, run) == Some(s')
    ensures On(s', x).lastCompl == wc.wrId && On(s', x).posters == On(s, x).posters
    ensures On(s', x).succeeded == On(s, x).succeeded
    decreases PollerWork(s)
  {
    hide Inv, Enabled, Apply, InFlight, After;
    var step := PollerStep(s);
    OnItsWay(s, x, wc);
    StepKeeps(s, step);
    StepAndRun(s, step, []);
    if step.Update? && s.held.value == wc {
      run, s' := [step] + [], Apply(s, step);
    } else {
      run, s' := RecordNext(Apply(s, step), x, wc);
      StepAndRun(s, step, run);
      run := [step] + run;
    }
  }

  /** The poller brings a success on its way nearer, or records it. */
  lemma OnItsWay(s: State, x: bool, wc: Wc)
    requires wc in InFlight(s, x) && wc.ok
    ensures wc.send == x && Enabled(s, PollerStep(s))
    ensures var s' := Apply(s, PollerStep(s));
            && PollerWork(s') < PollerWork(s)
            && On(s', x).posters == On(s, x).posters && On(s', x).succeeded == On(s, x).succeeded
            && After(s', []) == Some(s')
            && if PollerStep(s).Update? && s.held.value == wc then On(s', x).lastCompl == wc.wrId
               else wc in InFlight(s', x)
  {
    hide CmpCounters, Low;
    InMine(s.cq, x, wc);
    FlightAfter(s, PollerStep(s), x);
  }

  lemma {:induction false} InMine(cq: seq<Wc>, x: bool, wc: Wc)
    ensures wc in Mine(cq, x) ==> wc.send == x && wc in cq
  {
    if cq != [] {
      InMine(cq[1..], x, wc);
    }
  }

  // ---- exactly when a return can be early

  lemma NotCarriedOut(q: Queue, flight: seq<Wc>, held: bool, t: nat)
    requires QueueOk(q, flight, held) && Of(q, t).Spinning? && Processed(q) < Of(q, t).at
    ensures !AllSucceeded(q, t)
  {
    hide Low, PostersOk;
    assert Of(q, t).at !in q.succeeded;
  }

  lemma WaitingIds(q: Queue, flight: seq<Wc>, held: bool, t: nat)
    requires QueueOk(q, flight, held) && Of(q, t).Spinning?
    ensures Of(q, t).wrId == Low(Of(q, t).serial) && q.lastCompl == Low(q.completed)
    ensures Of(q, t).serial <= q.issued && Of(q, t).at <= q.posted
    ensures forall wc | wc in flight :: wc.wrId == Low(wc.serial)
  {
    hide Low;
    assert PosterOk(q, t);
  }

  /** A success on its way ends the wait when it is recorded. */
  lemma MisledByFlight(s: State, x: bool, t: nat, wc: Wc) returns (run: seq<Step>)
    requires Inv(s) && Of(On(s, x), t).Spinning? && !AllSucceeded(On(s, x), t)
    requires wc in InFlight(s, x) && wc.ok && Ends(Of(On(s, x), t).serial, wc.serial)
    ensures ReturnsEarly(s, run, x, t) && Settling(run, x)
  {
    hide Low, CmpCounters, InFlight, QueueOk;
    WaitingIds(On(s, x), InFlight(s, x), HeldHere(s, x), t);
    var s';
    run, s' := RecordNext(s, x, wc);
  }

  /** A request ahead is carried out and its success recorded before the own request is begun. */
  lemma MisledByPending(s: State, x: bool, t: nat, i: nat) returns (run: seq<Step>)
    requires Inv(s) && Of(On(s, x), t).Spinning? && !On(s, x).failed
    requires i < |On(s, x).pending| && On(s, x).pending[i].signaled && On(s, x).pending[i].at < Of(On(s, x), t).at
    requires Ends(Of(On(s, x), t).serial, On(s, x).pending[i].serial)
    ensures ReturnsEarly(s, run, x, t)
  {
    hide Low, CmpCounters, InFlight, QueueOk, Ends, Inv, After;
    var q := On(s, x);
    var run1, s1 := CarryOut(s, x, i + 1);
    SettlingKeeps(s, run1, x);
    var q1 := On(s1, x);
    PlaceOf(s, x, i);
    InvQueue(s1, x);
    NotCarriedOut(q1, InFlight(s1, x), HeldHere(s1, x), t);
    var run2 := MisledByFlight(s1, x, t, Success(x, q.pending[i]));
    run := run1 + run2;
    AfterJoined(s, run1, run2);
  }

  lemma InvQueue(s: State, x: bool)
    requires Inv(s)
    ensures QueueOk(On(s, x), InFlight(s, x), HeldHere(s, x))
  {
  }

  lemma PlaceOf(s: State, x: bool, i: nat)
    requires Inv(s) && i < |On(s, x).pending|
    ensures On(s, x).pending[i].at == Processed(On(s, x)) + 1 + i
  {
    hide Low, InFlight;
    InvQueue(s, x);
  }

  lemma {:induction false} SettlingKeeps(s: State, run: seq<Step>, x: bool)
    requires Settling(run, x) && After(s, run).Some?
    ensures var q, q' := On(s, x), On(After(s, run).value, x);
            && q'.posters == q.posters && q'.issued == q.issued && q'.posted == q.posted
            && q.succeeded <= q'.succeeded
  {
    hide CmpCounters, Low;
    if run != [] {
      SettlingKeeps(s, run[..|run| - 1], x);
    }
  }

  /** If a success ahead can mislead the thread, this is how. */
  lemma MisledReturns(s: State, x: bool, t: nat) returns (run: seq<Step>)
    requires Inv(s) && Misled(On(s, x), InFlight(s, x), t) && !AllSucceeded(On(s, x), t)
    ensures ReturnsEarly(s, run, x, t)
  {
    hide Low, CmpCounters, InFlight, QueueOk, Inv, AllSucceeded;
    var q, flight := On(s, x), InFlight(s, x);
    InvQueue(s, x);
    WaitingIds(q, flight, HeldHere(s, x), t);
    var c :| c in Ahead(q, flight, Of(q, t).at) && Ends(Of(q, t).serial, c);
    if q.completed == c {
      run := [];
    } else if wc :| wc in flight && wc.ok && wc.serial == c {
      run := MisledByFlight(s, x, t, wc);
    } else {
      var i :| 0 <= i < |q.pending| && q.pending[i].signaled
               && q.pending[i].serial == c && q.pending[i].at < Of(q, t).at;
      run := MisledByPending(s, x, t, i);
    }
  }

  /** In every reachable state: thread `t` may yet return before its request is carried out if and
      only if it has not been, and a success ahead ends the wait. */
  lemma EarlyReturnExactly(s: State, x: bool, t: nat)
    requires Reachable(s) && Of(On(s, x), t).Spinning?
    ensures MayReturnEarly(s, x, t) <==> Misled(On(s, x), InFlight(s, x), t) && !AllSucceeded(On(s, x), t)
  {
    hide Inv, InFlight, Misled, AllSucceeded, SpinEnds;
    ReachableInv(s);
    if Misled(On(s, x), InFlight(s, x), t) && !AllSucceeded(On(s, x), t) {
      var run := MisledReturns(s, x, t);
    } else if run :| ReturnsEarly(s, run, x, t) {
      RunKeeps(s, run);
      RunKeepsWaiting(s, run, x, t);
      NotMisled(After(s, run).value, x, t);
    }
  }

  /** Neither of the two ways to be safe is ever lost. */
  lemma RunKeepsWaiting(s: State, run: seq<Step>, x: bool, t: nat)
    requires Inv(s) && After(s, run).Some? && Of(On(s, x), t).Spinning? && Return(x, t) !in run
    ensures var s' := After(s, run).value;
            && (!Misled(On(s, x), InFlight(s, x), t) ==> !Misled(On(s', x), InFlight(s', x), t))
            && (AllSucceeded(On(s, x), t) ==> AllSucceeded(On(s', x), t))
  {
    hide Inv, InFlight, Ahead, Ends;
    RunKeepsAhead(s, run, x, t);
  }

  /** Seen just before the post: a synchronous post can return early if and only if some success that
      is recorded, on its way, or to be expected from a signaled request on the queue ends its wait. */
  lemma EarlyReturnAtPost(s: State, x: bool, t: nat)
    requires Reachable(s) && Enabled(s, Post(x, t)) && Of(On(s, x), t).sync
    ensures var q := On(s, x);
            MayReturnEarly(Apply(s, Post(x, t)), x, t) <==>
            exists c | c in AheadOfNext(q, InFlight(s, x)) :: Ends(Of(q, t).serial, c)
  {
    hide Inv, InFlight, AllSucceeded, Ends, Ahead;
    var s' := Apply(s, Post(x, t));
    AfterStep(s, [], Post(x, t));
    Continued(s, s', [] + [Post(x, t)]);
    EarlyReturnExactly(s', x, t);
    FlightAfter(s, Post(x, t), x);
    ReachableInv(s);
    ReachableInv(s');
    PostedAhead(s, x, t);
    InvQueue(s', x);
    PlaceOf(s', x, |On(s, x).pending|);
    NotCarriedOut(On(s', x), InFlight(s', x), HeldHere(s', x), t);
  }

  lemma PostedAhead(s: State, x: bool, t: nat)
    requires Inv(s) && Of(On(s, x), t).HasId?
    ensures var q, flight := On(s, x), InFlight(s, x);
            Ahead(Posting(q, t), flight, q.posted + 1) == Ahead(q, flight, q.posted + 1)
  {
    hide Low, InFlight;
    InvQueue(s, x);
  }

  /** With all serials ahead inside the compare's window, this says: a signaled request with a larger
      id is, or has been, ahead. */
  lemma OvertakenExactly(s: State, x: bool, t: nat)
    requires Reachable(s) && Enabled(s, Post(x, t)) && Of(On(s, x), t).sync
    requires forall c | c in AheadOfNext(On(s, x), InFlight(s, x)) ::
               -(HALF + 1) <= Of(On(s, x), t).serial - c <= HALF - 2
    ensures var q := On(s, x);
            MayReturnEarly(Apply(s, Post(x, t)), x, t) <==>
            exists c | c in AheadOfNext(q, InFlight(s, x)) :: c >= Of(q, t).serial
  {
    hide Inv, InFlight, AllSucceeded, MayReturnEarly, Ahead, Low, CmpCounters;
    EarlyReturnAtPost(s, x, t);
    var q := On(s, x);
    forall c | c in AheadOfNext(q, InFlight(s, x))
      ensures Ends(Of(q, t).serial, c) <==> c >= Of(q, t).serial
    {
      CmpInWindow(Of(q, t).serial, c);
    }
  }
}
