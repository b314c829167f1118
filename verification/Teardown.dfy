/** Tearing a polled connection down while its completion poller is still running.

    The poller is `poll_cq_loop`, the destroyer is `destroy_connection` on another thread; they meet
    only in the fields `running` and `stopped`.  Safety holds in every interleaving; whether the
    destroyer ever finishes depends on one race, and the last theorem says exactly how. */
module Teardown {

  datatype Poller =
    | Starting        // created; about to store running = 1
    | ClearingStopped // about to store stopped = 0
    | Polling         // in poll_cq_once, about to poll the completion queue
    | Handling        // a completion has been taken and is being recorded in the context
    | Checking        // about to read running
    | Stopping        // about to store stopped = 1
    | Exited

  datatype Destroyer =
    | Alive           // the connection is in use
    | ClearingRunning // about to store running = 0
    | DestroyingQp
    | Waiting         // in the loop on stopped
    | DestroyingCq
    | Freeing         // about to free the context
    | Finished

  /** `cq` completions are queued, `coming` more will arrive and `handled` have been recorded; `late`
      says that running was cleared before the poller had set it. */
  datatype State = State(poller: Poller, destroyer: Destroyer, running: bool, stopped: bool,
                         cq: nat, coming: nat, handled: nat, cqAlive: bool, ctxAlive: bool, late: bool)

  datatype Action = ByPoller | ByDestroyer | Arrival | Nothing

  /** calloc leaves `running` and `stopped` at 0. */
  function Start(coming: nat): State {
    State(Starting, Alive, false, false, 0, coming, 0, true, true, false)
  }

  function PollerStep(s: State): State {
    match s.poller
    case Starting => s.(poller := ClearingStopped, running := true)
    case ClearingStopped => s.(poller := Polling, stopped := false)
    case Polling => if s.cq > 0 then s.(poller := Handling, cq := s.cq - 1) else s.(poller := Checking)
    case Handling => s.(poller := Polling, handled := s.handled + 1)
    case Checking => s.(poller := if s.running then Polling else Stopping)
    case Stopping => s.(poller := Exited, stopped := true)
    case Exited => s
  }

  function DestroyerStep(s: State): State {
    match s.destroyer
    case Alive => s.(destroyer := ClearingRunning)
    case ClearingRunning => s.(destroyer := DestroyingQp, running := false, late := s.poller.Starting?)
    case DestroyingQp => s.(destroyer := Waiting)
    case Waiting => if s.stopped then s.(destroyer := DestroyingCq) else s
    case DestroyingCq => s.(destroyer := Freeing, cqAlive := false)
    case Freeing => s.(destroyer := Finished, ctxAlive := false)
    case Finished => s
  }

  function Apply(s: State, a: Action): State {
    match a
    case ByPoller => PollerStep(s)
    case ByDestroyer => DestroyerStep(s)
    case Arrival => if s.coming > 0 && s.cqAlive then s.(cq := s.cq + 1, coming := s.coming - 1) else s
    case Nothing => s
  }

  /** Does the poller touch the context, or the completion queue, in its next step? */
  predicate TouchesContext(s: State) {
    !s.poller.Exited?
  }

  /** An infinite run under some schedule. */
  ghost predicate IsRun(tr: nat -> State, act: nat -> Action, coming: nat) {
    tr(0) == Start(coming) && forall i: nat :: tr(i + 1) == Apply(tr(i), act(i))
  }

  // ---- safety

  ghost predicate Cleared(s: State) {
    !s.destroyer.Alive? && !s.destroyer.ClearingRunning?
  }

  ghost predicate Inv(s: State) {
    && (s.stopped <==> s.poller.Exited?)
    && (s.destroyer.DestroyingCq? || s.destroyer.Freeing? || s.destroyer.Finished? ==> s.stopped)
    && (s.cqAlive <==> !s.destroyer.Freeing? && !s.destroyer.Finished?)
    && (s.ctxAlive <==> !s.destroyer.Finished?)
    && (s.late ==> Cleared(s))
    && (Cleared(s) && !s.late ==> !s.poller.Starting? && !s.running)
    && (!Cleared(s) && !s.poller.Starting? ==> s.running && !s.poller.Stopping? && !s.poller.Exited?)
    && (s.late ==> (if s.poller.Starting? then !s.running else s.running) && !s.poller.Stopping? && !s.poller.Exited?)
  }

  lemma {:induction false} RunKeeps(tr: nat -> State, act: nat -> Action, coming: nat, i: nat)
    requires IsRun(tr, act, coming)
    ensures Inv(tr(i))
  {
    if i != 0 {
      RunKeeps(tr, act, coming, i - 1);
      assert tr(i - 1 + 1) == Apply(tr(i - 1), act(i - 1));
    }
  }

  /** In every interleaving: as long as the poller will still touch the context, neither the
      completion queue nor the context has been released. */
  lemma NoUseAfterFree(tr: nat -> State, act: nat -> Action, coming: nat, i: nat)
    requires IsRun(tr, act, coming)
    ensures TouchesContext(tr(i)) ==> tr(i).cqAlive && tr(i).ctxAlive
    ensures !tr(i).cqAlive || !tr(i).ctxAlive ==> forall j: nat | j >= i :: !TouchesContext(tr(j))
  {
    RunKeeps(tr, act, coming, i);
    if tr(i).poller.Exited? {
      forall j: nat | j >= i
        ensures tr(j).poller.Exited?
      {
        ExitIsFinal(tr, act, coming, i, j);
      }
    }
  }

  lemma {:induction false} ExitIsFinal(tr: nat -> State, act: nat -> Action, coming: nat, i: nat, j: nat)
    requires IsRun(tr, act, coming) && i <= j && tr(i).poller.Exited?
    ensures tr(j).poller.Exited?
  {
    if i < j {
      ExitIsFinal(tr, act, coming, i, j - 1);
      assert tr(j - 1 + 1) == Apply(tr(j - 1), act(j - 1));
    }
  }

  /** When the teardown has finished, the poller is gone, and queue and context have been released. */
  lemma FinishedReleases(tr: nat -> State, act: nat -> Action, coming: nat, i: nat)
    requires IsRun(tr, act, coming) && tr(i).destroyer.Finished?
    ensures tr(i).poller.Exited? && !tr(i).cqAlive && !tr(i).ctxAlive
  {
    RunKeeps(tr, act, coming, i);
  }

  // ---- what is handled before the poller exits

  /** Completions that have reached the queue. */
  function Arrived(s: State, coming: nat): int {
    coming - s.coming
  }

  /** Every completion that has arrived is queued, in hand, or handled. */
  lemma {:induction false} NoneLost(tr: nat -> State, act: nat -> Action, coming: nat, i: nat)
    requires IsRun(tr, act, coming)
    ensures Taken(tr(i)) + tr(i).cq == Arrived(tr(i), coming)
  {
    hide Apply, Taken;
    if i != 0 {
      NoneLost(tr, act, coming, i - 1);
      assert tr(i - 1 + 1) == Apply(tr(i - 1), act(i - 1));
      StepLosesNone(tr(i - 1), act(i - 1));
    } else {
      assert Taken(Start(coming)) == 0 by { NoneTaken(coming); }
    }
  }

  lemma NoneTaken(coming: nat)
    ensures Taken(Start(coming)) == 0
  {
  }

  lemma StepLosesNone(s: State, a: Action)
    ensures var s' := Apply(s, a); Taken(s') + s'.cq + s'.coming == Taken(s) + s.cq + s.coming
  {
    hide PollerStep, DestroyerStep;
    PollerLosesNone(s);
    DestroyerTakesNone(s);
  }

  lemma PollerLosesNone(s: State)
    ensures var s' := PollerStep(s); Taken(s') + s'.cq == Taken(s) + s.cq && s'.coming == s.coming
  {
  }

  lemma DestroyerTakesNone(s: State)
    ensures var s' := DestroyerStep(s); Taken(s') == Taken(s) && s'.cq == s.cq && s'.coming == s.coming
  {
  }

  /** Completions handled or in hand. */
  function Taken(s: State): nat {
    s.handled + if s.poller.Handling? then 1 else 0
  }

  /** The poller will look at the queue again before it reads `running`. */
  predicate WillDrain(p: Poller) {
    p.ClearingStopped? || p.Polling? || p.Handling?
  }

  /** With `running` cleared, `n` completions are handled, or will be before the poller stops. */
  ghost predicate Draining(s: State, n: int) {
    && OnTime(s) && !s.running
    && if WillDrain(s.poller) then Taken(s) + s.cq >= n else s.handled >= n
  }

  /** The poller that has found the queue empty and is to read the cleared `running` handles nothing more. */
  ghost predicate Leaving(s: State, n: int) {
    OnTime(s) && !s.running && !s.poller.Starting? && !WillDrain(s.poller) && s.handled == n
  }

  lemma {:induction false} DrainingStays(tr: nat -> State, act: nat -> Action, coming: nat, n: int, i: nat, j: nat)
    requires IsRun(tr, act, coming) && i <= j
    ensures Draining(tr(i), n) ==> Draining(tr(j), n)
    ensures Leaving(tr(i), n) ==> Leaving(tr(j), n)
  {
    if i < j {
      DrainingStays(tr, act, coming, n, i, j - 1);
      RunKeeps(tr, act, coming, j - 1);
      assert tr(j - 1 + 1) == Apply(tr(j - 1), act(j - 1));
    }
  }

  /** Teardown clears `running` on time at step `c`, and the poller has exited at `e`.  Every completion that
      had arrived at the clear has been handled, unless the poller stood between finding the queue empty
      and reading `running`, and one had arrived in between. */
  lemma DrainedExactly(tr: nat -> State, act: nat -> Action, coming: nat, c: nat, e: nat)
    requires IsRun(tr, act, coming) && c < e && tr(e).poller.Exited?
    requires tr(c).destroyer.ClearingRunning? && act(c).ByDestroyer? && !tr(c).poller.Starting?
    ensures tr(e).handled >= Arrived(tr(c), coming) <==> !(tr(c).poller.Checking? && tr(c).cq > 0)
  {
    RunKeeps(tr, act, coming, c);
    NoneLost(tr, act, coming, c);
    assert tr(c + 1) == Apply(tr(c), act(c));
    if tr(c).poller.Checking? && tr(c).cq > 0 {
      DrainingStays(tr, act, coming, tr(c).handled, c + 1, e);
    } else {
      DrainingStays(tr, act, coming, Arrived(tr(c), coming), c + 1, e);
    }
  }

  // ---- liveness

  /** Both threads keep being scheduled, until they are done. */
  ghost predicate Fair(tr: nat -> State, act: nat -> Action) {
    forall i: nat :: PollerGetsTurn(tr, act, i) && DestroyerGetsTurn(tr, act, i)
  }

  ghost predicate PollerGetsTurn(tr: nat -> State, act: nat -> Action, i: nat) {
    exists j: nat :: PollerTurn(tr, act, i, j)
  }

  ghost predicate DestroyerGetsTurn(tr: nat -> State, act: nat -> Action, i: nat) {
    exists j: nat :: DestroyerTurn(tr, act, i, j)
  }

  ghost predicate PollerTurn(tr: nat -> State, act: nat -> Action, i: nat, j: nat) {
    j >= i && (act(j).ByPoller? || tr(j).poller.Exited?)
  }

  ghost predicate DestroyerTurn(tr: nat -> State, act: nat -> Action, i: nat, j: nat) {
    j >= i && (act(j).ByDestroyer? || tr(j).destroyer.Finished?)
  }

  /** Poller steps left once `running` has been cleared for good. */
  function PollerRank(s: State): nat {
    2 * (s.cq + s.coming) +
    match s.poller
    case Starting => 5
    case ClearingStopped => 4
    case Polling => 3
    case Handling => 4
    case Checking => 2
    case Stopping => 1
    case Exited => 0
  }

  /** Destroyer steps left, waiting aside. */
  function DestroyerRank(s: State): nat {
    match s.destroyer
    case Alive => 6
    case ClearingRunning => 5
    case DestroyingQp => 4
    case Waiting => 3
    case DestroyingCq => 2
    case Freeing => 1
    case Finished => 0
  }

  ghost predicate OnTime(s: State) {
    Cleared(s) && !s.late
  }

  /** One step, whoever takes it: ranks never grow, and a thread's own turn lowers its rank unless
      it is done or, for the destroyer, waiting. */
  lemma StepRanks(s: State, a: Action)
    requires Inv(s)
    ensures var s' := Apply(s, a);
            && (OnTime(s) ==> OnTime(s') && PollerRank(s') <= PollerRank(s))
            && (OnTime(s) && a.ByPoller? && !s.poller.Exited? ==> PollerRank(s') < PollerRank(s))
            && (Cleared(s) ==> Cleared(s') && s'.late == s.late)
            && DestroyerRank(s') <= DestroyerRank(s)
            && (a.ByDestroyer? && DestroyerRank(s) != 0 && (s.destroyer.Waiting? ==> s.stopped) ==>
                DestroyerRank(s') < DestroyerRank(s))
            && (s.stopped ==> s'.stopped)
  {
  }

  lemma {:induction false} BetweenRanks(tr: nat -> State, act: nat -> Action, coming: nat, i: nat, j: nat)
    requires IsRun(tr, act, coming) && i <= j
    ensures OnTime(tr(i)) ==> OnTime(tr(j)) && PollerRank(tr(j)) <= PollerRank(tr(i))
    ensures Cleared(tr(i)) ==> Cleared(tr(j)) && tr(j).late == tr(i).late
    ensures DestroyerRank(tr(j)) <= DestroyerRank(tr(i))
    ensures tr(i).stopped ==> tr(j).stopped
  {
    if i < j {
      BetweenRanks(tr, act, coming, i, j - 1);
      RunKeeps(tr, act, coming, j - 1);
      StepRanks(tr(j - 1), act(j - 1));
      assert tr(j - 1 + 1) == Apply(tr(j - 1), act(j - 1));
    }
  }

  /** Once `running` has been cleared on time, the poller exits. */
  lemma {:induction false} PollerExits(tr: nat -> State, act: nat -> Action, coming: nat, i: nat) returns (k: nat)
    requires IsRun(tr, act, coming) && Fair(tr, act) && OnTime(tr(i))
    ensures k >= i && tr(k).poller.Exited?
    decreases PollerRank(tr(i))
  {
    assert PollerGetsTurn(tr, act, i);
    var j: nat :| PollerTurn(tr, act, i, j);
    BetweenRanks(tr, act, coming, i, j);
    if tr(j).poller.Exited? {
      k := j;
    } else {
      RunKeeps(tr, act, coming, j);
      StepRanks(tr(j), act(j));
      assert tr(j + 1) == Apply(tr(j), act(j));
      k := PollerExits(tr, act, coming, j + 1);
    }
  }

  /** Starting anywhere, the destroyer gets as far as the wait loop, or through it if the poller has
      stopped. */
  lemma {:induction false} DestroyerAdvances(tr: nat -> State, act: nat -> Action, coming: nat, i: nat) returns (k: nat)
    requires IsRun(tr, act, coming) && Fair(tr, act)
    ensures k >= i && (tr(k).destroyer.Finished? || (tr(k).destroyer.Waiting? && !tr(i).stopped))
    decreases DestroyerRank(tr(i))
  {
    assert DestroyerGetsTurn(tr, act, i);
    var j: nat :| DestroyerTurn(tr, act, i, j);
    BetweenRanks(tr, act, coming, i, j);
    RunKeeps(tr, act, coming, j);
    if tr(j).destroyer.Finished? || (tr(j).destroyer.Waiting? && !tr(i).stopped) {
      k := j;
    } else {
      StepRanks(tr(j), act(j));
      assert tr(j + 1) == Apply(tr(j), act(j));
      BetweenRanks(tr, act, coming, i, j + 1);
      k := DestroyerAdvances(tr, act, coming, j + 1);
    }
  }

  /** A poller that starts late never stops, so the destroyer never leaves its wait loop. */
  lemma LateNeverFinishes(tr: nat -> State, act: nat -> Action, coming: nat, i: nat, k: nat)
    requires IsRun(tr, act, coming) && Cleared(tr(i)) && tr(i).late
    ensures !tr(k).destroyer.Finished?
  {
    RunKeeps(tr, act, coming, k);
    if i <= k {
      BetweenRanks(tr, act, coming, i, k);
    } else {
      BetweenRanks(tr, act, coming, k, i);
      RunKeeps(tr, act, coming, i);
    }
  }

  /** A schedule in which both threads take turns, after teardown has been quicker than the poller. */
  function Quick(i: nat): Action {
    if i < 2 || i % 2 == 0 then ByDestroyer else ByPoller
  }

  function Late(i: nat): State {
    if i == 0 then Start(0) else Apply(Late(i - 1), Quick(i - 1))
  }

  lemma QuickTurns(i: nat)
    ensures Quick(2 * i).ByDestroyer? && Quick(2 * i + 3).ByPoller?
  {
    assert (2 * i + 3) % 2 == 1;
  }

  lemma QuickIsFair(tr: nat -> State)
    ensures Fair(tr, Quick)
  {
    hide Quick;
    forall i: nat
      ensures PollerGetsTurn(tr, Quick, i) && DestroyerGetsTurn(tr, Quick, i)
    {
      QuickTurns(i);
      assert DestroyerTurn(tr, Quick, i, 2 * i) && PollerTurn(tr, Quick, i, 2 * i + 3);
    }
  }

  lemma LateIsRun()
    ensures IsRun(Late, Quick, 0)
    ensures Late(1) == Start(0).(destroyer := ClearingRunning)
    ensures Late(2) == Start(0).(destroyer := DestroyingQp, late := true)
  {
    hide Quick;
    assert Quick(0) == Quick(1) == ByDestroyer by { FirstTurns(); }
    assert Late(1) == Apply(Late(0), Quick(0)) && Late(2) == Apply(Late(1), Quick(1));
  }

  lemma FirstTurns()
    ensures Quick(0) == Quick(1) == ByDestroyer
  {
  }

  /** It can happen: a fair run in which `running` is cleared while the poller is still starting, and
      which never finishes. */
  lemma LateRun()
    ensures IsRun(Late, Quick, 0) && Fair(Late, Quick)
    ensures Late(1).poller.Starting? && Late(1).destroyer.ClearingRunning? && Cleared(Late(2))
    ensures forall k: nat :: !Late(k).destroyer.Finished?
  {
    hide Late, Quick, Fair, IsRun;
    LateIsRun();
    QuickIsFair(Late);
    forall k: nat
      ensures !Late(k).destroyer.Finished?
    {
      LateNeverFinishes(Late, Quick, 0, 2, k);
    }
  }

  /** Under fair scheduling and with finitely many completions the teardown finishes exactly in the
      runs in which the poller stored `running = 1` before teardown cleared it. */
  lemma TeardownFinishesExactly(tr: nat -> State, act: nat -> Action, coming: nat)
    requires IsRun(tr, act, coming) && Fair(tr, act)
    ensures (exists k: nat :: tr(k).destroyer.Finished?)
       <==> (exists i: nat :: !Cleared(tr(i)) && !tr(i).poller.Starting?)
  {
    if i: nat :| !Cleared(tr(i)) && !tr(i).poller.Starting? {
      StartedStaysOnTime(tr, act, coming, i);
      var c := Clears(tr, act, coming, i);
      var e := PollerExits(tr, act, coming, c);
      RunKeeps(tr, act, coming, e);
      var k := DestroyerAdvances(tr, act, coming, e);
      assert tr(k).destroyer.Finished?;
    }
    if k: nat :| tr(k).destroyer.Finished? {
      RunKeeps(tr, act, coming, k);
      var i := FirstStart(tr, act, coming, k);
    }
  }

  lemma {:induction false} StartedStaysOnTime(tr: nat -> State, act: nat -> Action, coming: nat, i: nat)
    requires IsRun(tr, act, coming) && !Cleared(tr(i)) && !tr(i).poller.Starting?
    ensures forall j: nat | j >= i :: !tr(j).poller.Starting? && !tr(j).late
  {
    forall j: nat | j >= i
      ensures !tr(j).poller.Starting? && !tr(j).late
    {
      StartedAt(tr, act, coming, i, j);
    }
  }

  lemma {:induction false} StartedAt(tr: nat -> State, act: nat -> Action, coming: nat, i: nat, j: nat)
    requires IsRun(tr, act, coming) && !Cleared(tr(i)) && !tr(i).poller.Starting? && i <= j
    ensures !tr(j).poller.Starting? && !tr(j).late
  {
    RunKeeps(tr, act, coming, i);
    if i < j {
      StartedAt(tr, act, coming, i, j - 1);
      assert tr(j - 1 + 1) == Apply(tr(j - 1), act(j - 1));
    }
  }

  lemma Clears(tr: nat -> State, act: nat -> Action, coming: nat, i: nat) returns (c: nat)
    requires IsRun(tr, act, coming) && Fair(tr, act) && !Cleared(tr(i)) && !tr(i).poller.Starting?
    ensures c >= i && OnTime(tr(c))
  {
    c := DestroyerAdvances(tr, act, coming, i);
    StartedStaysOnTime(tr, act, coming, i);
  }

  /** If the teardown finishes, there was a moment before the clear at which the poller had started. */
  lemma {:induction false} FirstStart(tr: nat -> State, act: nat -> Action, coming: nat, k: nat) returns (i: nat)
    requires IsRun(tr, act, coming) && Cleared(tr(k)) && !tr(k).late
    ensures i <= k && !Cleared(tr(i)) && !tr(i).poller.Starting?
  {
    assert tr(k - 1 + 1) == Apply(tr(k - 1), act(k - 1));
    RunKeeps(tr, act, coming, k - 1);
    if Cleared(tr(k - 1)) {
      i := FirstStart(tr, act, coming, k - 1);
    } else {
      i := k - 1;
    }
  }
}
