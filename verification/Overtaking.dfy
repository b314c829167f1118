/** Runs that show the conditions of `Waiting`, `Wakeup` and `InOrder` are needed. */
module Overtaking {
  import opened Counters
  import opened Options
  import opened Completion
  import opened Waiting

  /** Thread 0's queue when it has taken `issued` ids, all its sends processed so far have failed, and
      it has not been told of the failure of those behind `retired`. */
  function Failing(issued: nat, p: Poster, pending: seq<Request>, posted: nat, retired: nat, failed: bool): Queue {
    Queue(Low(issued), 0, map[0 := p], pending, issued, posted, 0, 0, retired, {}, failed, retired > 0, true, {0})
  }

  function WithQueue(q: Queue, cq: seq<Wc>, held: Option<Wc>): State {
    State(q, FRESH_QUEUE, cq, held)
  }

  /** Behind `n` failed sends one more has been posted. */
  function Posted(n: nat): State {
    WithQueue(Failing(n + 1, Idle, [Request(Low(n + 1), n + 1, n + 1, true)], n + 1, n, n > 0), [], None)
  }

  /** A queue on which thread 0 has posted `n` asynchronous sends that have all failed. */
  function AllFailed(n: nat): State {
    if n == 0 then START else WithQueue(Failing(n, Idle, [], n, n, true), [], None)
  }

  lemma {:induction false} FailingRun(n: nat) returns (run: seq<Step>)
    ensures After(START, run) == Some(AllFailed(n))
  {
    if n == 0 {
      run := [];
    } else {
      run := FailingRun(n - 1);
      NextId(n - 1);
      run := PostOne(run, n - 1);
      run := FailOne(run, n - 1);
    }
  }

  lemma PostOne(before: seq<Step>, n: nat) returns (run: seq<Step>)
    requires After(START, before) == Some(AllFailed(n)) && Low(Low(n) + 1) == Low(n + 1)
    ensures After(START, run) == Some(Posted(n))
  {
    hide Low, After;
    var hasId := HasId(Low(n + 1), n + 1, true, false);
    assert AllFailed(n).send.posters[0 := hasId] == map[0 := hasId] && AllFailed(n).send.users + {0} == {0};
    AfterStep(START, before, Alloc(true, 0, true, false));
    run := before + [Alloc(true, 0, true, false)];
    assert After(START, run) == Some(WithQueue(Failing(n + 1, hasId, [], n, n, n > 0), [], None));
    var request := Request(Low(n + 1), n + 1, n + 1, true);
    assert map[0 := hasId][0 := Idle] == map[0 := Idle] && [] + [request] == [request];
    AfterStep(START, run, Post(true, 0));
    run := run + [Post(true, 0)];
  }

  lemma FailOne(before: seq<Step>, n: nat) returns (run: seq<Step>)
    requires After(START, before) == Some(Posted(n))
    ensures After(START, run) == Some(AllFailed(n + 1))
  {
    hide Low, After;
    var id := Low(n + 1);
    var wc := Wc(true, id, n + 1, n + 1, false);
    assert [Request(id, n + 1, n + 1, true)][1..] == [] && [wc][1..] == [] && [] + [wc] == [wc];
    AfterStep(START, before, Process(true, false));
    run := before + [Process(true, false)];
    assert After(START, run) == Some(WithQueue(Failing(n + 1, Idle, [], n + 1, n, true), [wc], None));
    AfterStep(START, run, Poll);
    run := run + [Poll];
    assert After(START, run) == Some(WithQueue(Failing(n + 1, Idle, [], n + 1, n + 1, true), [], Some(wc)));
    AfterStep(START, run, Update);
    run := run + [Update];
  }

  /** The condition of `SyncReturnExactly` can fail with a single poster: after 2^31 - 2 failed
      asynchronous sends the next synchronous send returns although no request has ever been carried
      out. */
  lemma SyncReturnsAfterFailures() returns (s: State)
    ensures Reachable(s) && s.send.users == {0}
    ensures SpinEnds(s.send, 0) && s.send.succeeded == {} && Of(s.send, 0).serial == HALF - 1
  {
    hide After;
    var n := HALF - 2;
    var run := FailingRun(n);
    AfterStep(START, run, Alloc(true, 0, true, true));
    run := run + [Alloc(true, 0, true, true)];
    AfterStep(START, run, Post(true, 0));
    run := run + [Post(true, 0)];
    s := After(START, run).value;
  }

  const FIRST := HasId(1, 1, true, true)
  const SECOND := HasId(2, 2, true, true)
  const SPIN := Spinning(2, 2, 1)
  const SECOND_DONE := Wc(true, 2, 2, 1, true)

  /** Threads 0 and 1 have taken an id each. */
  const BOTH_TAKEN :=
    State(Queue(2, 0, map[0 := FIRST, 1 := SECOND], [], 2, 0, 0, 0, 0, {}, false, false, true, {0, 1}),
          FRESH_QUEUE, [], None)

  /** Thread 1 has posted first, and its send has been carried out. */
  const OVERTOOK :=
    State(Queue(2, 0, map[0 := FIRST, 1 := SPIN], [], 2, 1, 0, 0, 0, {1}, false, false, false, {0, 1}),
          FRESH_QUEUE, [SECOND_DONE], None)

  /** And its success has been recorded. */
  const RECORDED :=
    State(Queue(2, 2, map[0 := FIRST, 1 := SPIN], [], 2, 1, 2, 1, 1, {1}, false, false, false, {0, 1}),
          FRESH_QUEUE, [], None)

  lemma FirstTakes() returns (run: seq<Step>)
    ensures After(START, run) == Some(State(
              Queue(1, 0, map[0 := FIRST], [], 1, 0, 0, 0, 0, {}, false, false, true, {0}), FRESH_QUEUE, [], None))
  {
    hide Low, CmpCounters;
    assert Low(1) == 1 by { LowSmall(1); }
    assert map[][0 := FIRST] == map[0 := FIRST] && {} + {0} == {0};
    StepAndRun(START, Alloc(true, 0, true, true), []);
    run := [Alloc(true, 0, true, true)] + [];
  }

  lemma LowSmall(n: nat)
    requires n < MODULUS
    ensures Low(n) == n
  {
  }

  lemma BothTake() returns (run: seq<Step>)
    ensures After(START, run) == Some(BOTH_TAKEN)
  {
    hide After;
    assert map[0 := FIRST][1 := SECOND] == map[0 := FIRST, 1 := SECOND] && {0} + {1} == {0, 1};
    run := FirstTakes();
    AfterStep(START, run, Alloc(true, 1, true, true));
    run := run + [Alloc(true, 1, true, true)];
  }

  lemma SecondPosts() returns (run: seq<Step>)
    ensures After(START, run) == Some(OVERTOOK)
  {
    hide After;
    run := BothTake();
    assert OVERTOOK.send.posters == BOTH_TAKEN.send.posters[1 := SPIN];
    var request := Request(2, 2, 1, true);
    assert [request][1..] == [] && [] + [request] == [request];
    assert [] + [SECOND_DONE] == [SECOND_DONE] && {} + {1} == {1};
    AfterStep(START, run, Post(true, 1));
    run := run + [Post(true, 1)];
    assert After(START, run) == Some(State(
      Queue(2, 0, map[0 := FIRST, 1 := SPIN], [request], 2, 1, 0, 0, 0, {}, false, false, false, {0, 1}),
      FRESH_QUEUE, [], None));
    AfterStep(START, run, Process(true, true));
    run := run + [Process(true, true)];
  }

  lemma OvertakingRun() returns (run: seq<Step>)
    ensures After(START, run) == Some(RECORDED)
  {
    hide After;
    run := SecondPosts();
    AfterStep(START, run, Poll);
    run := run + [Poll];
    assert [SECOND_DONE][1..] == [];
    AfterStep(START, run, Update);
    run := run + [Update];
  }

  /** Without posts in id order the law fails even when nothing goes wrong: an overtaken synchronous
      send returns at once, before the adapter has touched its request. */
  lemma OvertakenReturnsEarly() returns (s: State)
    ensures Reachable(s) && !s.send.failed
    ensures SpinEnds(s.send, 0) && !AllSucceeded(s.send, 0) && |s.send.pending| == 1
  {
    hide After;
    var run := OvertakingRun();
    AfterStep(START, run, Post(true, 0));
    run := run + [Post(true, 0)];
    s := After(START, run).value;
    assert 2 !in s.send.succeeded;
  }

  /** And the overtaking one can miss its own completion: it keeps waiting although its request has
      succeeded, and nothing is left that could wake it. */
  lemma OvertakerMissesCompletion() returns (s: State)
    ensures Reachable(s) && !s.send.failed
    ensures AllSucceeded(s.send, 1) && !SpinEnds(s.send, 1)
    ensures s.send.pending == [] && s.cq == [] && s.held.None?
  {
    hide After;
    var run := OvertakingRun();
    AfterStep(START, run, Post(true, 0));
    run := run + [Post(true, 0)];
    AfterStep(START, run, Process(true, true));
    run := run + [Process(true, true)];
    AfterStep(START, run, Poll);
    run := run + [Poll];
    AfterStep(START, run, Update);
    run := run + [Update];
    s := After(START, run).value;
  }
}
