/** Work requests and completions on one connection, as a state machine over all interleavings.

    Any number of threads allocate 32-bit request ids and post; the adapter completes each queue in
    posting order and, after a failure, flushes everything behind it; one poller moves completions
    into `last_send_compl` and `last_recv_compl`; a synchronous post spins on a wraparound compare.
    Beside every 32-bit id the model carries the unbounded serial number it stands for, and beside
    every posted request its place `at` in posting order. */
module Completion {
  import opened Counters
  import opened Options

  const MAX_WR := 1024

  /** A request on the adapter's queue. */
  datatype Request = Request(wrId: Uint32, serial: nat, at: nat, signaled: bool)

  /** A work completion; `send` tells the queue, `ok` is IBV_WC_SUCCESS. */
  datatype Wc = Wc(send: bool, wrId: Uint32, serial: nat, at: nat, ok: bool)

  /** What a thread is doing on a queue. */
  datatype Poster =
    | Idle
    | HasId(wrId: Uint32, serial: nat, signaled: bool, sync: bool)
    | Spinning(wrId: Uint32, serial: nat, at: nat)

  datatype Queue = Queue(
    last: Uint32,              // last_send or last_recv
    lastCompl: Uint32,         // last_send_compl or last_recv_compl
    posters: map<nat, Poster>, // by thread
    pending: seq<Request>,     // posted and not yet processed by the adapter
    issued: nat,               // serial of the last id handed out
    posted: nat,               // number of requests posted
    completed: nat,            // serial behind lastCompl
    completedAt: nat,          // and its place in posting order
    retired: nat,              // place of the last completion polled; frees queue slots
    succeeded: set<nat>,       // places of the requests the adapter has carried out
    failed: bool,              // the adapter has failed a request and flushes what follows
    errorPolled: bool,         // a failed completion of this queue has been polled
    inOrder: bool,             // so far every request was posted in the order of the ids
    users: set<nat>            // threads that have allocated ids on this queue
  )

  datatype State = State(send: Queue, recv: Queue, cq: seq<Wc>, held: Option<Wc>)

  datatype Step =
    | Alloc(onSend: bool, t: nat, signaled: bool, sync: bool) // next_wr_id
    | Post(onSend: bool, t: nat)                              // ibv_post_send, ibv_post_recv
    | Process(onSend: bool, ok: bool)                         // the adapter finishes the oldest request
    | Poll                                                    // ibv_poll_cq
    | Update                                                  // update_completions, or the failure warning
    | Return(onSend: bool, t: nat)                            // spin_till_completion leaves its loop

  const FRESH_QUEUE := Queue(0, 0, map[], [], 0, 0, 0, 0, 0, {}, false, false, true, {})
  const START := State(FRESH_QUEUE, FRESH_QUEUE, [], None)

  function On(s: State, send: bool): Queue {
    if send then s.send else s.recv
  }

  function With(s: State, send: bool, q: Queue): State {
    if send then s.(send := q) else s.(recv := q)
  }

  function Of(q: Queue, t: nat): Poster {
    if t in q.posters then q.posters[t] else Idle
  }

  /** The loop of spin_till_completion ends for thread `t`. */
  predicate SpinEnds(q: Queue, t: nat) {
    Of(q, t).Spinning? && CmpCounters(Of(q, t).wrId, q.lastCompl) <= 0
  }

  predicate Enabled(s: State, step: Step) {
    match step
    case Alloc(x, t, signaled, sync) =>
      // receives always complete; a synchronous unsignaled post is refused
      Of(On(s, x), t).Idle? && (sync || !x ==> signaled)
    case Post(x, t) =>
      // a full queue makes the post fail and ends the process
      Of(On(s, x), t).HasId? && On(s, x).posted < On(s, x).retired + MAX_WR
    case Process(x, ok) => On(s, x).pending != [] && (On(s, x).failed ==> !ok)
    case Poll => s.held.None? && s.cq != []
    case Update => s.held.Some?
    case Return(x, t) => SpinEnds(On(s, x), t)
  }

  function Issue(q: Queue, t: nat, signaled: bool, sync: bool): Queue {
    var id := Low(q.last + 1);
    q.(last := id, issued := q.issued + 1, users := q.users + {t},
       posters := q.posters[t := HasId(id, q.issued + 1, signaled, sync)])
  }

  function Posting(q: Queue, t: nat): Queue
    requires Of(q, t).HasId?
  {
    var p, at := Of(q, t), q.posted + 1;
    q.(pending := q.pending + [Request(p.wrId, p.serial, at, p.signaled)], posted := at,
       inOrder := q.inOrder && p.serial == at,
       posters := q.posters[t := if p.sync then Spinning(p.wrId, p.serial, at) else Idle])
  }

  function Finish(q: Queue, ok: bool): Queue
    requires q.pending != []
  {
    q.(pending := q.pending[1..], failed := q.failed || !ok,
       succeeded := if ok then q.succeeded + {q.pending[0].at} else q.succeeded)
  }

  /** A success is reported only if signaled, a failure always. */
  function Report(q: Queue, send: bool, ok: bool): seq<Wc>
    requires q.pending != []
  {
    var r := q.pending[0];
    if r.signaled || !ok then [Wc(send, r.wrId, r.serial, r.at, ok)] else []
  }

  function Retire(q: Queue, wc: Wc): Queue {
    q.(retired := wc.at, errorPolled := q.errorPolled || !wc.ok)
  }

  function Record(q: Queue, wc: Wc): Queue {
    if wc.ok then q.(lastCompl := wc.wrId, completed := wc.serial, completedAt := wc.at) else q
  }

  function Leave(q: Queue, t: nat): Queue {
    q.(posters := q.posters[t := Idle])
  }

  function Apply(s: State, step: Step): State
    requires Enabled(s, step)
  {
    match step
    case Alloc(x, t, signaled, sync) => With(s, x, Issue(On(s, x), t, signaled, sync))
    case Post(x, t) => With(s, x, Posting(On(s, x), t))
    case Process(x, ok) =>
      With(s, x, Finish(On(s, x), ok)).(cq := s.cq + Report(On(s, x), x, ok))
    case Poll =>
      var wc := s.cq[0];
      With(s, wc.send, Retire(On(s, wc.send), wc)).(cq := s.cq[1..], held := Some(wc))
    case Update =>
      var wc := s.held.value;
      With(s, wc.send, Record(On(s, wc.send), wc)).(held := None)
    case Return(x, t) => With(s, x, Leave(On(s, x), t))
  }

  /** The state after a run from `s`, if every step of it was possible. */
  function After(s: State, run: seq<Step>): Option<State> {
    if run == [] then Some(s)
    else
      match After(s, run[..|run| - 1])
      case None => None
      case Some(s') => if Enabled(s', run[|run| - 1]) then Some(Apply(s', run[|run| - 1])) else None
  }

  ghost predicate Reachable(s: State) {
    exists run :: After(START, run) == Some(s)
  }

  // ---- the invariant, queue by queue

  /** The completions of one queue on their way to the poller, oldest first. */
  function InFlight(s: State, send: bool): seq<Wc> {
    (if s.held.Some? && s.held.value.send == send then [s.held.value] else []) + Mine(s.cq, send)
  }

  function Mine(cq: seq<Wc>, send: bool): seq<Wc> {
    if cq == [] then []
    else (if cq[0].send == send then [cq[0]] else []) + Mine(cq[1..], send)
  }

  lemma {:induction false} MineAppend(cq: seq<Wc>, wc: Wc, send: bool)
    ensures Mine(cq + [wc], send) == Mine(cq, send) + if wc.send == send then [wc] else []
  {
    if cq == [] {
      assert [wc][1..] == [];
    } else {
      MineAppend(cq[1..], wc, send);
      assert (cq + [wc])[1..] == cq[1..] + [wc];
    }
  }

  /** Number of requests the adapter has processed. */
  function Processed(q: Queue): int {
    q.posted - |q.pending|
  }

  /** The 32-bit values are the images of the serials. */
  ghost predicate IdsOk(q: Queue, flight: seq<Wc>) {
    && q.last == Low(q.issued)
    && q.lastCompl == Low(q.completed)
    && (forall i | 0 <= i < |q.pending| :: q.pending[i].wrId == Low(q.pending[i].serial))
    && (forall i | 0 <= i < |flight| :: flight[i].wrId == Low(flight[i].serial))
  }

  ghost predicate PosterOk(q: Queue, t: nat) {
    match Of(q, t)
    case Idle => true
    case HasId(wrId, serial, signaled, sync) =>
      t in q.users && serial <= q.issued && wrId == Low(serial) && (sync ==> signaled)
    case Spinning(wrId, serial, at) =>
      t in q.users && serial <= q.issued && 1 <= at <= q.posted && wrId == Low(serial) && SignaledAt(q, at)
  }

  ghost predicate SignaledAt(q: Queue, at: nat) {
    forall r | r in q.pending && r.at == at :: r.signaled
  }

  /** While posts follow the ids, a request's serial is its place, and ids not yet posted are larger
      than all places so far and held by one thread each. */
  ghost predicate OrderOk(q: Queue, flight: seq<Wc>) {
    && q.posted <= q.issued && q.completed == q.completedAt
    && (forall i | 0 <= i < |q.pending| :: q.pending[i].serial == q.pending[i].at)
    && (forall i | 0 <= i < |flight| :: flight[i].serial == flight[i].at)
    && (forall t: nat | Of(q, t).Spinning? :: Of(q, t).serial == Of(q, t).at)
    && (forall t: nat | Of(q, t).HasId? :: q.posted < Of(q, t).serial)
    && (forall t: nat, u: nat | t != u && Of(q, t).HasId? && Of(q, u).HasId? :: Of(q, t).serial != Of(q, u).serial)
  }

  /** A single user posts each id before it allocates the next. */
  ghost predicate SingleOk(q: Queue, t: nat) {
    q.users == {t} ==> q.inOrder && q.posted == if Of(q, t).HasId? then q.issued - 1 else q.issued
  }

  /** The adapter holds exactly the requests posted after the processed ones, in order. */
  ghost predicate PendingOk(q: Queue) {
    && Processed(q) >= 0
    && forall i | 0 <= i < |q.pending| :: q.pending[i].at == Processed(q) + 1 + i
  }

  /** The requests carried out are an initial stretch of the posted ones; it is all processed ones
      unless something has failed. */
  ghost predicate SucceededOk(q: Queue, carried: int) {
    && 0 <= carried <= Processed(q)
    && (!q.failed ==> carried == Processed(q))
    && forall n: nat :: n in q.succeeded <==> 1 <= n <= carried
  }

  /** Completions on their way are in posting order; exactly the successful ones were carried out. */
  ghost predicate FlightOk(q: Queue, flight: seq<Wc>, carried: int) {
    && q.completedAt <= q.retired <= Processed(q) && q.completedAt <= carried
    && (forall i | 0 <= i < |flight| ::
          q.completedAt < flight[i].at <= Processed(q) && (flight[i].ok <==> flight[i].at <= carried))
    && (forall i, j | 0 <= i < j < |flight| :: flight[i].at < flight[j].at)
  }

  /** A failure stops the queue for good. */
  ghost predicate ErrorsOk(q: Queue, flight: seq<Wc>, carried: int) {
    && ((exists wc | wc in flight :: !wc.ok) ==> q.failed)
    && (q.errorPolled ==> q.failed && carried < q.retired && carried <= q.completedAt + MAX_WR)
  }

  ghost predicate Carried(q: Queue, flight: seq<Wc>, carried: int) {
    SucceededOk(q, carried) && FlightOk(q, flight, carried) && ErrorsOk(q, flight, carried)
  }

  /** How far the last successful completion can lag behind, as long as no failure was polled.
      `heldHere` says that the first completion in flight has been polled already. */
  ghost predicate LagOk(q: Queue, flight: seq<Wc>, heldHere: bool) {
    && q.posted <= q.retired + MAX_WR
    && (heldHere ==> flight != [] && q.retired == flight[0].at)
    && (forall i | (if heldHere then 1 else 0) <= i < |flight| :: q.retired < flight[i].at)
    && (!q.errorPolled ==> q.retired <= q.completedAt + MAX_WR && (!heldHere ==> q.retired == q.completedAt))
    && (heldHere && !q.errorPolled ==> flight[0].ok)
  }

  ghost predicate PostersOk(q: Queue, flight: seq<Wc>) {
    && IdsOk(q, flight)
    && (forall t: nat :: PosterOk(q, t))
    && (q.inOrder ==> OrderOk(q, flight))
    && (forall t: nat :: SingleOk(q, t))
    && (q.users == {} ==> q == FRESH_QUEUE)
  }

  ghost predicate AdapterOk(q: Queue, flight: seq<Wc>, heldHere: bool) {
    && PendingOk(q)
    && LagOk(q, flight, heldHere)
    && exists carried :: Carried(q, flight, carried)
  }

  ghost predicate QueueOk(q: Queue, flight: seq<Wc>, heldHere: bool) {
    PostersOk(q, flight) && AdapterOk(q, flight, heldHere)
  }

  function HeldHere(s: State, send: bool): bool {
    s.held.Some? && s.held.value.send == send
  }

  ghost predicate Inv(s: State) {
    forall send :: QueueOk(On(s, send), InFlight(s, send), HeldHere(s, send))
  }

  // ---- every step keeps it

  lemma NextId(n: nat)
    ensures Low(Low(n) + 1) == Low(n + 1)
  {
    var k := n / MODULUS;
    assert n + 1 == k * MODULUS + Low(n) + 1;
  }

  lemma IssueKeepsPosters(q: Queue, flight: seq<Wc>, t: nat, signaled: bool, sync: bool)
    requires PostersOk(q, flight) && Of(q, t).Idle? && (sync ==> signaled)
    ensures PostersOk(Issue(q, t, signaled, sync), flight)
  {
    NextId(q.issued);
    var q' := Issue(q, t, signaled, sync);
    forall u: nat
      ensures PosterOk(q', u) && SingleOk(q', u)
    {
      assert PosterOk(q, u) && PosterOk(q, t) && SingleOk(q, u) && SingleOk(q, t);
      if q'.users == {u} {
        assert t in q'.users;
        assert q.users == {} || q.users == {u};
      }
    }
    assert forall u: nat :: Of(q', u) == if u == t then HasId(q'.last, q.issued + 1, signaled, sync) else Of(q, u);
    forall u: nat | Of(q, u).HasId?
      ensures Of(q, u).serial <= q.issued
    {
      assert PosterOk(q, u);
    }
  }

  /** Posting changes what thread `t` does, and nothing about the others. */
  lemma PostingOf(q: Queue, t: nat, u: nat)
    requires Of(q, t).HasId?
    ensures var p := Of(q, t);
            Of(Posting(q, t), u) ==
            if u != t then Of(q, u) else if p.sync then Spinning(p.wrId, p.serial, q.posted + 1) else Idle
  {
  }

  lemma PostingKeepsPoster(q: Queue, t: nat, u: nat)
    requires PosterOk(q, t) && PosterOk(q, u) && SingleOk(q, t) && SingleOk(q, u) && Of(q, t).HasId?
    requires PendingOk(q) && (q.inOrder ==> q.posted < Of(q, t).serial)
    ensures PosterOk(Posting(q, t), u) && SingleOk(Posting(q, t), u)
  {
    hide Low;
    PostingOf(q, t, u);
    var q' := Posting(q, t);
    var r := q'.pending[|q.pending|];
    assert q'.pending == q.pending + [r];
  }

  /** If the post is in order, the others' ids are still to come. */
  lemma PostingKeepsOrder(q: Queue, flight: seq<Wc>, t: nat)
    requires OrderOk(q, flight) && Of(q, t).HasId? && Of(q, t).serial == q.posted + 1 <= q.issued
    ensures OrderOk(Posting(q, t), flight)
  {
    hide Low;
    var q' := Posting(q, t);
    forall i | 0 <= i < |q'.pending|
      ensures q'.pending[i].serial == q'.pending[i].at
    {
    }
    forall u: nat
      ensures Of(q', u).Spinning? ==> Of(q', u).serial == Of(q', u).at
      ensures Of(q', u).HasId? ==> u != t && Of(q', u) == Of(q, u) && q'.posted < Of(q', u).serial
    {
      PostingOf(q, t, u);
    }
  }

  lemma PostingKeepsPosters(q: Queue, flight: seq<Wc>, held: bool, t: nat)
    requires PostersOk(q, flight) && AdapterOk(q, flight, held) && Of(q, t).HasId?
    ensures PostersOk(Posting(q, t), flight)
  {
    hide Low, OrderOk, PosterOk, SingleOk, IdsOk;
    var q' := Posting(q, t);
    assert PosterOk(q, t) && SingleOk(q, t);
    PostingOrder(q, flight, t);
    forall u: nat
      ensures PosterOk(q', u) && SingleOk(q', u)
    {
      assert PosterOk(q, u) && SingleOk(q, u);
      PostingKeepsPoster(q, t, u);
    }
    if q'.inOrder {
      PostingKeepsOrder(q, flight, t);
    }
    PostingKeepsIds(q, flight, t);
  }

  lemma PostingOrder(q: Queue, flight: seq<Wc>, t: nat)
    requires (q.inOrder ==> OrderOk(q, flight)) && PosterOk(q, t) && Of(q, t).HasId?
    ensures q.inOrder ==> q.posted < Of(q, t).serial <= q.issued
  {
    hide Low;
  }

  lemma PostingKeepsIds(q: Queue, flight: seq<Wc>, t: nat)
    requires IdsOk(q, flight) && PosterOk(q, t) && Of(q, t).HasId?
    ensures IdsOk(Posting(q, t), flight) && Posting(q, t).users != {}
  {
    hide Low;
  }

  ghost predicate ReportOf(wc: Wc, r: Request) {
    wc.wrId == r.wrId && wc.serial == r.serial && wc.at == r.at
  }

  /** Steps that leave ids and posting alone. */
  lemma RestKeepsPosters(q: Queue, flight: seq<Wc>, q': Queue, flight': seq<Wc>)
    requires PostersOk(q, flight)
    requires q == q'.(pending := q.pending, retired := q.retired, succeeded := q.succeeded,
                      failed := q.failed, errorPolled := q.errorPolled)
    requires forall r | r in q'.pending :: r in q.pending
    requires forall wc | wc in flight' :: wc in flight || exists r | r in q.pending :: ReportOf(wc, r)
    requires q.users != {}
    ensures PostersOk(q', flight')
  {
    hide Low;
    forall u: nat
      ensures PosterOk(q', u) && SingleOk(q', u) && Of(q', u) == Of(q, u)
    {
      assert PosterOk(q, u) && SingleOk(q, u);
    }
    forall i | 0 <= i < |q'.pending|
      ensures q'.pending[i].wrId == Low(q'.pending[i].serial)
      ensures q.inOrder ==> q'.pending[i].serial == q'.pending[i].at
    {
      assert q'.pending[i] in q.pending;
    }
    forall i | 0 <= i < |flight'|
      ensures flight'[i].wrId == Low(flight'[i].serial)
      ensures q.inOrder ==> flight'[i].serial == flight'[i].at
    {
      assert flight'[i] in flight';
    }
  }

  lemma RecordKeepsPosters(q: Queue, flight: seq<Wc>)
    requires PostersOk(q, flight) && flight != [] && q.users != {}
    ensures PostersOk(Record(q, flight[0]), flight[1..])
  {
    hide Low;
    var q' := Record(q, flight[0]);
    forall u: nat
      ensures PosterOk(q', u) && SingleOk(q', u) && Of(q', u) == Of(q, u)
    {
      assert PosterOk(q, u) && SingleOk(q, u);
    }
  }

  lemma LeaveKeepsPosters(q: Queue, flight: seq<Wc>, t: nat)
    requires PostersOk(q, flight) && Of(q, t).Spinning?
    ensures PostersOk(Leave(q, t), flight)
  {
    hide Low;
    var q' := Leave(q, t);
    forall u: nat
      ensures PosterOk(q', u) && SingleOk(q', u)
    {
      assert PosterOk(q, u) && PosterOk(q, t) && SingleOk(q, u);
    }
    assert forall u: nat | u != t :: Of(q', u) == Of(q, u);
  }

  lemma PostingKeepsAdapter(q: Queue, flight: seq<Wc>, held: bool, t: nat)
    requires AdapterOk(q, flight, held) && Of(q, t).HasId? && q.posted < q.retired + MAX_WR
    ensures AdapterOk(Posting(q, t), flight, held)
  {
    hide Low;
    var carried :| Carried(q, flight, carried);
    var q' := Posting(q, t);
    assert Processed(q') == Processed(q);
    assert Carried(q', flight, carried);
  }

  /** Steps that touch ids and posters only. */
  lemma RestKeepsAdapter(q: Queue, flight: seq<Wc>, held: bool, q': Queue)
    requires AdapterOk(q, flight, held)
    requires q'.(last := q.last, issued := q.issued, users := q.users, posters := q.posters) == q
    ensures AdapterOk(q', flight, held)
  {
    hide Low;
    var carried :| Carried(q, flight, carried);
    assert Carried(q', flight, carried);
  }

  lemma FinishKeepsAdapter(q: Queue, flight: seq<Wc>, held: bool, send: bool, ok: bool)
    requires AdapterOk(q, flight, held) && q.pending != [] && (q.failed ==> !ok)
    ensures AdapterOk(Finish(q, ok), flight + Report(q, send, ok), held)
  {
    hide Low;
    var carried :| Carried(q, flight, carried);
    var q', flight' := Finish(q, ok), flight + Report(q, send, ok);
    assert q.pending[0].at == Processed(q) + 1 == Processed(q');
    var carried' := if ok then carried + 1 else carried;
    assert Carried(q', flight', carried');
    assert PendingOk(q');
    assert LagOk(q', flight', held);
  }

  lemma RetireKeepsAdapter(q: Queue, flight: seq<Wc>)
    requires AdapterOk(q, flight, false) && flight != []
    ensures AdapterOk(Retire(q, flight[0]), flight, true)
  {
    hide Low;
    var carried :| Carried(q, flight, carried);
    var q' := Retire(q, flight[0]);
    assert Carried(q', flight, carried);
    assert LagOk(q', flight, true);
  }

  lemma RecordKeepsAdapter(q: Queue, flight: seq<Wc>)
    requires AdapterOk(q, flight, true)
    ensures AdapterOk(Record(q, flight[0]), flight[1..], false)
  {
    hide Low;
    var carried :| Carried(q, flight, carried);
    var q' := Record(q, flight[0]);
    assert Carried(q', flight[1..], carried);
    assert LagOk(q', flight[1..], false);
  }

  lemma FlightProcess(s: State, report: seq<Wc>, x: bool)
    requires |report| <= 1
    ensures Mine(s.cq + report, x) == Mine(s.cq, x) + if report != [] && report[0].send == x then report else []
  {
    if report == [] {
      assert s.cq + report == s.cq;
    } else {
      MineAppend(s.cq, report[0], x);
      assert report == [report[0]];
    }
  }

  lemma FlightAfter(s: State, step: Step, x: bool)
    requires Enabled(s, step)
    ensures var s' := Apply(s, step);
            && (step.Alloc? || step.Post? || step.Return? ==> InFlight(s', x) == InFlight(s, x))
            && (step.Process? && step.onSend == x ==>
                InFlight(s', x) == InFlight(s, x) + Report(On(s, x), x, step.ok))
            && (step.Process? && step.onSend != x ==> InFlight(s', x) == InFlight(s, x))
            && (step.Poll? ==> InFlight(s', x) == InFlight(s, x))
            && (step.Poll? && s.cq[0].send == x ==> [s.cq[0]] <= InFlight(s, x))
            && (step.Update? && s.held.value.send == x ==> InFlight(s, x) == [s.held.value] + InFlight(s', x))
            && (step.Update? && s.held.value.send != x ==> InFlight(s', x) == InFlight(s, x))
  {
    hide Low, Issue, Posting, Finish, Retire, Record, Leave, CmpCounters, Mine, Of;
    match step
    case Process(_, _) => FlightProcess(s, Report(On(s, step.onSend), step.onSend, step.ok), x);
    case Poll => MineHead(s.cq, x);
    case _ =>
  }

  lemma MineHead(cq: seq<Wc>, x: bool)
    requires cq != []
    ensures Mine(cq, x) == (if cq[0].send == x then [cq[0]] else []) + Mine(cq[1..], x)
  {
  }

  /** A queue nobody has used has nothing pending and nothing in flight. */
  lemma Used(q: Queue, flight: seq<Wc>, held: bool)
    requires QueueOk(q, flight, held) && (q.pending != [] || flight != [])
    ensures q.users != {}
  {
    hide Low;
    var carried :| Carried(q, flight, carried);
    assert flight != [] ==> 0 <= q.completedAt < flight[0].at <= Processed(q);
  }

  lemma FinishKeeps(q: Queue, flight: seq<Wc>, held: bool, send: bool, ok: bool)
    requires QueueOk(q, flight, held) && q.pending != [] && (q.failed ==> !ok)
    ensures QueueOk(Finish(q, ok), flight + Report(q, send, ok), held)
  {
    hide PostersOk, AdapterOk;
    Used(q, flight, held);
    FinishKeepsAdapter(q, flight, held, send, ok);
    var q', flight' := Finish(q, ok), flight + Report(q, send, ok);
    assert q.pending[0] in q.pending;
    RestKeepsPosters(q, flight, q', flight');
  }

  lemma RetireKeeps(q: Queue, flight: seq<Wc>)
    requires QueueOk(q, flight, false) && flight != []
    ensures QueueOk(Retire(q, flight[0]), flight, true)
  {
    hide PostersOk, AdapterOk;
    Used(q, flight, false);
    RetireKeepsAdapter(q, flight);
    RestKeepsPosters(q, flight, Retire(q, flight[0]), flight);
  }

  lemma RecordKeeps(q: Queue, flight: seq<Wc>)
    requires QueueOk(q, flight, true) && flight != []
    ensures QueueOk(Record(q, flight[0]), flight[1..], false)
  {
    hide PostersOk, AdapterOk;
    Used(q, flight, true);
    RecordKeepsAdapter(q, flight);
    RecordKeepsPosters(q, flight);
  }

  /** What each step does to queue `x`. */
  lemma StepKeepsQueue(s: State, step: Step, x: bool)
    requires Inv(s) && Enabled(s, step)
    ensures var s' := Apply(s, step); QueueOk(On(s', x), InFlight(s', x), HeldHere(s', x))
  {
    hide Low, PostersOk, AdapterOk, InFlight, Finish, Report, Retire, Record;
    var q, flight, held := On(s, x), InFlight(s, x), HeldHere(s, x);
    assert QueueOk(q, flight, held);
    FlightAfter(s, step, x);
    match step
    case Alloc(y, t, signaled, sync) =>
      if y == x {
        IssueKeepsPosters(q, flight, t, signaled, sync);
        RestKeepsAdapter(q, flight, held, Issue(q, t, signaled, sync));
      }
    case Post(y, t) =>
      if y == x {
        PostingKeepsPosters(q, flight, held, t);
        PostingKeepsAdapter(q, flight, held, t);
      }
    case Process(y, ok) => if y == x { FinishKeeps(q, flight, held, x, ok); }
    case Poll => if s.cq[0].send == x { RetireKeeps(q, flight); }
    case Update => if s.held.value.send == x { RecordKeeps(q, flight); }
    case Return(y, t) =>
      if y == x {
        LeaveKeepsPosters(q, flight, t);
        RestKeepsAdapter(q, flight, held, Leave(q, t));
      }
  }

  lemma StepKeeps(s: State, step: Step)
    requires Inv(s) && Enabled(s, step)
    ensures Inv(Apply(s, step))
  {
    hide QueueOk, Enabled, Apply, InFlight;
    forall x
      ensures var s' := Apply(s, step); QueueOk(On(s', x), InFlight(s', x), HeldHere(s', x))
    {
      StepKeepsQueue(s, step, x);
    }
  }

  lemma StartOk()
    ensures Inv(START)
  {
    hide QueueOk;
    FreshOk();
    forall send
      ensures QueueOk(On(START, send), InFlight(START, send), HeldHere(START, send))
    {
      assert InFlight(START, send) == [] && On(START, send) == FRESH_QUEUE;
    }
  }

  lemma FreshOk()
    ensures QueueOk(FRESH_QUEUE, [], false)
  {
    assert Carried(FRESH_QUEUE, [], 0);
  }

  lemma {:induction false} RunKeeps(s: State, run: seq<Step>)
    requires Inv(s)
    ensures After(s, run).Some? ==> Inv(After(s, run).value)
  {
    hide Inv, Enabled, Apply;
    if run != [] {
      RunKeeps(s, run[..|run| - 1]);
      var before := After(s, run[..|run| - 1]);
      if before.Some? && Enabled(before.value, run[|run| - 1]) {
        StepKeeps(before.value, run[|run| - 1]);
      }
    }
  }

  lemma ReachableInv(s: State)
    requires Reachable(s)
    ensures Inv(s)
  {
    hide Inv;
    StartOk();
    var run :| After(START, run) == Some(s);
    RunKeeps(START, run);
  }

  lemma ReachableQueue(s: State, x: bool)
    requires Reachable(s)
    ensures QueueOk(On(s, x), InFlight(s, x), HeldHere(s, x))
  {
    ReachableInv(s);
  }

  lemma AfterStep(s: State, run: seq<Step>, step: Step)
    requires After(s, run).Some? && Enabled(After(s, run).value, step)
    ensures After(s, run + [step]) == Some(Apply(After(s, run).value, step))
  {
    assert (run + [step])[..|run|] == run;
  }

  /** Running on from where a run has led. */
  lemma {:induction false} AfterJoined(s: State, run: seq<Step>, more: seq<Step>)
    requires After(s, run).Some?
    ensures After(s, run + more) == After(After(s, run).value, more)
  {
    hide Enabled, Apply;
    if more == [] {
      assert run + more == run;
    } else {
      var k := |more| - 1;
      AfterJoined(s, run, more[..k]);
      assert (run + more)[..|run| + k] == run + more[..k];
    }
  }

  lemma Continued(s: State, s': State, run: seq<Step>)
    requires Reachable(s) && After(s, run) == Some(s')
    ensures Reachable(s')
  {
    var run0 :| After(START, run0) == Some(s);
    AfterJoined(START, run0, run);
  }

  /** One poster per queue posts in the order of its ids. */
  lemma OnePosterInOrder(s: State, x: bool, t: nat)
    requires Reachable(s) && On(s, x).users <= {t}
    ensures On(s, x).inOrder
  {
    hide QueueOk;
    ReachableQueue(s, x);
    SingleInOrder(On(s, x), InFlight(s, x), HeldHere(s, x), t);
  }

  lemma SingleInOrder(q: Queue, flight: seq<Wc>, held: bool, t: nat)
    requires QueueOk(q, flight, held) && q.users <= {t}
    ensures q.inOrder
  {
    assert q.users == {} || q.users == {t};
    assert SingleOk(q, t);
  }
}
