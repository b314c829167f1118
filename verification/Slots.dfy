/** The connection slots of an agent, shared by any number of threads.

    `get_sockfd` and `free_sockfd` run under the agent's mutex; publishing a context and looking one
    up do not.  The state machine interleaves all of them at the granularity of single memory
    accesses.  Which thread or context a slot belongs to is recorded beside the program's state. */
module Slots {
  import opened Options

  /** A connection context; its socket number never changes. */
  datatype Context = Context(id: nat, sockfd: nat)

  datatype Thread =
    | Idle
    // get_sockfd and the publishing that follows it
    | Scanning(i: nat)            // holds the mutex; next: compare-and-swap cell i
    | Claimed(slot: nat)          // holds the mutex; next: unlock
    | Reserved(slot: nat)         // next: init_connection
    | Created(ctx: Context)       // next: conn_bitmap[sockfd] = 1
    | Marked(ctx: Context)        // next: conn_fd_map[sockfd] = ctx
    // free_sockfd
    | WantsFree(ctx: Context)     // next: lock
    | ClearingBit(ctx: Context)   // holds the mutex
    | ClearingMap(ctx: Context)   // holds the mutex
    | Unlocking                   // holds the mutex
    // get_connection
    | ReadingBit(arg: int)
    | ReadingMap(arg: int)
    | Result(arg: int, found: Option<Context>)
    | Exiting                     // "invalid sockfd": the process ends

  datatype Owner = ByThread(t: nat) | ByContext(c: Context)

  datatype State = State(
    mutex: Option<nat>,
    bitmap: seq<bool>,
    fdMap: seq<Option<Context>>,
    threads: map<nat, Thread>,
    nextId: nat,
    live: set<Context>,          // published and not being destroyed
    owner: seq<Option<Owner>>    // who has the slot
  )

  function Of(s: State, t: nat): Thread {
    if t in s.threads then s.threads[t] else Idle
  }

  function Goes(s: State, t: nat, p: Thread): State {
    s.(threads := s.threads[t := p])
  }

  datatype Call = Open | Close(c: Context) | Lookup(arg: int) | Continue

  ghost predicate Start(s: State, n: nat) {
    && s.mutex.None? && |s.bitmap| == |s.fdMap| == |s.owner| == n
    && (forall i | 0 <= i < n :: !s.bitmap[i] && s.fdMap[i].None? && s.owner[i].None?)
    && s.threads == map[] && s.live == {}
  }

  /** Can thread `t` make this move now?  A full table ends the process, so nothing follows it; nor does
      anything follow a read outside the arrays. */
  predicate Enabled(s: State, t: nat, call: Call) {
    match call
    case Open => Of(s, t).Idle? && s.mutex.None?
    case Close(c) => Of(s, t).Idle? && c in s.live
    case Lookup(_) => Of(s, t).Idle?
    case Continue =>
      match Of(s, t)
      case Idle => false
      case Scanning(i) => i < |s.bitmap|
      case WantsFree(_) => s.mutex.None?
      case ReadingBit(arg) => arg < |s.bitmap|
      case Exiting => false
      case _ => true
  }

  function Move(s: State, t: nat, call: Call): State
    requires Enabled(s, t, call) && Shaped(s)
  {
    match call
    case Open => Goes(s, t, Scanning(0)).(mutex := Some(t))
    case Close(c) => Goes(s, t, WantsFree(c)).(live := s.live - {c}, owner := s.owner[c.sockfd := Some(ByThread(t))])
    case Lookup(arg) =>
      // the guard lets MAX_CONNECTIONS itself pass
      Goes(s, t, if arg < 0 then Result(arg, None) else if arg > |s.bitmap| then Exiting else ReadingBit(arg))
    case Continue =>
      match Of(s, t)
      case Idle => s
      case Scanning(i) =>
        if s.bitmap[i] then Goes(s, t, Scanning(i + 1))
        else Goes(s, t, Claimed(i)).(bitmap := s.bitmap[i := true], owner := s.owner[i := Some(ByThread(t))])
      case Claimed(slot) => Goes(s, t, Reserved(slot)).(mutex := None)
      case Reserved(slot) => Goes(s, t, Created(Context(s.nextId, slot))).(nextId := s.nextId + 1)
      case Created(c) => Goes(s, t, Marked(c)).(bitmap := s.bitmap[c.sockfd := true])
      case Marked(c) =>
        Goes(s, t, Idle).(fdMap := s.fdMap[c.sockfd := Some(c)], live := s.live + {c},
                          owner := s.owner[c.sockfd := Some(ByContext(c))])
      case WantsFree(c) => Goes(s, t, ClearingBit(c)).(mutex := Some(t))
      case ClearingBit(c) =>
        Goes(s, t, ClearingMap(c)).(bitmap := s.bitmap[c.sockfd := false], owner := s.owner[c.sockfd := None])
      case ClearingMap(c) => Goes(s, t, Unlocking).(fdMap := s.fdMap[c.sockfd := None])
      case Unlocking => Goes(s, t, Idle).(mutex := None)
      case ReadingBit(arg) => Goes(s, t, if s.bitmap[arg] then ReadingMap(arg) else Result(arg, None))
      case ReadingMap(arg) => Goes(s, t, Result(arg, s.fdMap[arg]))
      case Result(_, _) => Goes(s, t, Idle)
      case Exiting => s
  }

  // ---- the invariant

  /** Slot numbers held anywhere are in range. */
  ghost predicate Shaped(s: State) {
    && |s.bitmap| == |s.fdMap| == |s.owner|
    && (forall c | c in s.live :: c.sockfd < |s.bitmap|)
    && (forall t :: SlotInRange(Of(s, t), |s.bitmap|))
  }

  ghost predicate SlotInRange(p: Thread, n: nat) {
    match p
    case Idle => true
    case Scanning(i) => i <= n
    case Claimed(slot) => slot < n
    case Reserved(slot) => slot < n
    case Created(c) => c.sockfd < n
    case Marked(c) => c.sockfd < n
    case WantsFree(c) => c.sockfd < n
    case ClearingBit(c) => c.sockfd < n
    case ClearingMap(c) => c.sockfd < n
    case Unlocking => true
    case ReadingBit(arg) => 0 <= arg <= n
    case ReadingMap(arg) => 0 <= arg < n
    case Result(arg, found) => found.Some? ==> 0 <= arg < n
    case Exiting => true
  }

  predicate Critical(p: Thread) {
    p.Scanning? || p.Claimed? || p.ClearingBit? || p.ClearingMap? || p.Unlocking?
  }

  /** The slot a thread has for itself at this point, if any. */
  function Holding(p: Thread): Option<nat> {
    match p
    case Claimed(slot) => Some(slot)
    case Reserved(slot) => Some(slot)
    case Created(c) => Some(c.sockfd)
    case Marked(c) => Some(c.sockfd)
    case WantsFree(c) => Some(c.sockfd)
    case ClearingBit(c) => Some(c.sockfd)
    case _ => None
  }

  /** The context a thread has in hand, if any. */
  function InHand(p: Thread): Option<Context> {
    match p
    case Created(c) => Some(c)
    case Marked(c) => Some(c)
    case WantsFree(c) => Some(c)
    case ClearingBit(c) => Some(c)
    case ClearingMap(c) => Some(c)
    case Result(_, found) => found
    case _ => None
  }

  ghost predicate ThreadOk(s: State, t: nat)
    requires Shaped(s)
  {
    var p := Of(s, t);
    && (InHand(p).Some? ==> InHand(p).value.id < s.nextId)
    && (Critical(p) ==> s.mutex == Some(t))
    && (Holding(p).Some? ==> Holding(p).value < |s.owner| && s.owner[Holding(p).value] == Some(ByThread(t)))
    && (p.ClearingMap? ==> s.owner[p.ctx.sockfd].None?)
    && (p.Scanning? ==> forall j | 0 <= j < p.i :: s.bitmap[j])
    && (p.Result? && p.found.Some? ==> p.found.value.sockfd == p.arg)
  }

  ghost predicate SlotOk(s: State, i: nat)
    requires Shaped(s) && i < |s.bitmap|
  {
    && (s.bitmap[i] <==> s.owner[i].Some?)
    && (s.fdMap[i].Some? ==> s.fdMap[i].value.sockfd == i && s.fdMap[i].value.id < s.nextId)
    && (s.fdMap[i].Some? ==> Around(s, s.fdMap[i].value))
  }

  /** A context that is live, or that a thread is closing and has not yet taken off the map. */
  ghost predicate Around(s: State, c: Context) {
    c in s.live || exists u :: Closes(Of(s, u), c)
  }

  predicate Closes(p: Thread, c: Context) {
    p == WantsFree(c) || p == ClearingBit(c) || p == ClearingMap(c)
  }

  /** A live context owns its slot, and a lookup of the slot finds it. */
  ghost predicate LiveOk(s: State, c: Context)
    requires Shaped(s) && c in s.live
  {
    s.owner[c.sockfd] == Some(ByContext(c)) && s.fdMap[c.sockfd] == Some(c) && c.id < s.nextId
  }

  ghost predicate Inv(s: State) {
    && Shaped(s)
    && (forall t :: ThreadOk(s, t))
    && (forall i: nat | i < |s.bitmap| :: SlotOk(s, i))
    && (forall c | c in s.live :: LiveOk(s, c))
    && MutexOk(s)
  }

  /** The mutex is held only by a thread in its critical section. */
  ghost predicate MutexOk(s: State) {
    s.mutex.Some? ==> Critical(Of(s, s.mutex.value))
  }

  lemma StartOk(s: State, n: nat)
    requires Start(s, n)
    ensures Inv(s)
  {
  }

  lemma MoveShaped(s: State, t: nat, call: Call)
    requires Inv(s) && Enabled(s, t, call)
    ensures Shaped(Move(s, t, call))
  {
    var s' := Move(s, t, call);
    forall u
      ensures SlotInRange(Of(s', u), |s'.bitmap|)
    {
      assert SlotInRange(Of(s, u), |s.bitmap|) && SlotInRange(Of(s, t), |s.bitmap|);
    }
  }

  lemma MoveOwnThread(s: State, t: nat, call: Call)
    requires Inv(s) && Enabled(s, t, call) && Shaped(Move(s, t, call))
    ensures ThreadOk(Move(s, t, call), t)
  {
    assert ThreadOk(s, t) && SlotInRange(Of(s, t), |s.bitmap|);
    match call
    case Open =>
    case Close(c) => assert LiveOk(s, c);
    case Lookup(_) =>
    case Continue => if Of(s, t).ReadingMap? { assert SlotOk(s, Of(s, t).arg); }
  }

  lemma MoveOtherThread(s: State, t: nat, call: Call, u: nat)
    requires Inv(s) && Enabled(s, t, call) && Shaped(Move(s, t, call)) && u != t
    ensures ThreadOk(Move(s, t, call), u)
  {
    assert ThreadOk(s, u) && ThreadOk(s, t);
    assert SlotInRange(Of(s, t), |s.bitmap|) && SlotInRange(Of(s, u), |s.bitmap|);
    match call
    case Open =>
    case Close(c) => assert LiveOk(s, c);
    case Lookup(_) =>
    case Continue => if Of(s, t).Scanning? { assert SlotOk(s, Of(s, t).i); }
  }

  lemma MoveSlot(s: State, t: nat, call: Call, i: nat)
    requires Inv(s) && Enabled(s, t, call) && Shaped(Move(s, t, call)) && i < |s.bitmap|
    ensures SlotOk(Move(s, t, call), i)
  {
    assert ThreadOk(s, t) && SlotOk(s, i);
    MoveAround(s, t, call, i);
  }

  lemma MoveAround(s: State, t: nat, call: Call, i: nat)
    requires Enabled(s, t, call) && Shaped(s) && Shaped(Move(s, t, call)) && i < |s.bitmap| && SlotOk(s, i)
    ensures var s' := Move(s, t, call); s'.fdMap[i].Some? ==> Around(s', s'.fdMap[i].value)
  {
    var s' := Move(s, t, call);
    assert SlotInRange(Of(s, t), |s.bitmap|);
    if s'.fdMap[i].Some? && s'.fdMap[i].value !in s'.live {
      var c := s'.fdMap[i].value;
      assert s.fdMap[i] == Some(c);
      if c in s.live {
        assert Closes(Of(s', t), c);
      } else {
        var u :| Closes(Of(s, u), c);
        assert Closes(Of(s', u), c);
      }
    }
  }

  lemma MoveLive(s: State, t: nat, call: Call, c: Context)
    requires Inv(s) && Enabled(s, t, call) && Shaped(Move(s, t, call)) && c in Move(s, t, call).live
    ensures LiveOk(Move(s, t, call), c)
  {
    assert ThreadOk(s, t) && SlotInRange(Of(s, t), |s.bitmap|);
    if c in s.live {
      assert LiveOk(s, c) && SlotOk(s, c.sockfd);
      if call.Close? {
        assert LiveOk(s, call.c);
      }
    }
  }

  lemma MoveMutex(s: State, t: nat, call: Call)
    requires Inv(s) && Enabled(s, t, call)
    ensures MutexOk(Move(s, t, call))
  {
    assert ThreadOk(s, t);
    if s.mutex.Some? && s.mutex.value != t {
      assert Of(Move(s, t, call), s.mutex.value) == Of(s, s.mutex.value);
    }
  }

  lemma MoveKeeps(s: State, t: nat, call: Call)
    requires Inv(s) && Enabled(s, t, call)
    ensures Inv(Move(s, t, call))
  {
    MoveMutex(s, t, call);
    MoveShaped(s, t, call);
    forall u
      ensures ThreadOk(Move(s, t, call), u)
    {
      if u == t {
        MoveOwnThread(s, t, call);
      } else {
        MoveOtherThread(s, t, call, u);
      }
    }
    forall i: nat | i < |s.bitmap|
      ensures SlotOk(Move(s, t, call), i)
    {
      MoveSlot(s, t, call, i);
    }
    forall c | c in Move(s, t, call).live
      ensures LiveOk(Move(s, t, call), c)
    {
      MoveLive(s, t, call, c);
    }
  }

  /** The state after a run of moves by any threads, if every move was possible. */
  ghost function After(s: State, moves: seq<(nat, Call)>): Option<State>
    requires Inv(s)
    ensures After(s, moves).Some? ==> Inv(After(s, moves).value) && |After(s, moves).value.bitmap| == |s.bitmap|
  {
    if moves == [] then Some(s)
    else
      var before := After(s, moves[..|moves| - 1]);
      var (t, call) := moves[|moves| - 1];
      if before.Some? && Enabled(before.value, t, call) then
        MoveKeeps(before.value, t, call);
        Some(Move(before.value, t, call))
      else None
  }

  ghost predicate Reachable(s: State, n: nat) {
    exists s0, moves :: Start(s0, n) && Inv(s0) && After(s0, moves) == Some(s)
  }

  /** In every interleaving no slot is had twice: not by two threads, not by two live contexts, and
      not by a thread and a live context. */
  lemma SlotsExclusive(s: State, n: nat)
    requires Reachable(s, n)
    ensures forall c, d | c in s.live && d in s.live && c != d :: c.sockfd != d.sockfd
    ensures forall t, u | t != u && Holding(Of(s, t)).Some? && Holding(Of(s, u)).Some? ::
              Holding(Of(s, t)) != Holding(Of(s, u))
    ensures forall t, c | c in s.live :: Holding(Of(s, t)) != Some(c.sockfd)
  {
    forall c, d | c in s.live && d in s.live && c != d
      ensures c.sockfd != d.sockfd
    {
      assert LiveOk(s, c) && LiveOk(s, d);
    }
    forall t, u | t != u && Holding(Of(s, t)).Some? && Holding(Of(s, u)).Some?
      ensures Holding(Of(s, t)) != Holding(Of(s, u))
    {
      assert ThreadOk(s, t) && ThreadOk(s, u);
    }
    forall t, c | c in s.live
      ensures Holding(Of(s, t)) != Some(c.sockfd)
    {
      assert ThreadOk(s, t) && LiveOk(s, c);
    }
  }

  /** An unlocked lookup returns null or a context whose socket number is its argument, whatever happened
      to the slot between its two reads; for a negative argument it returns null. */
  lemma LookupSound(s: State, n: nat, t: nat)
    requires Reachable(s, n) && Of(s, t).Result?
    ensures Of(s, t).found.Some? ==> 0 <= Of(s, t).arg < n && Of(s, t).found.value.sockfd == Of(s, t).arg
  {
    assert ThreadOk(s, t) && SlotInRange(Of(s, t), |s.bitmap|);
  }

  /** Some live context has this socket number. */
  ghost predicate Taken(s: State, arg: int) {
    exists c | c in s.live :: c.sockfd == arg
  }

  /** Thread `t` is in the middle of its lookup, or has just found `c`. */
  predicate Finding(p: Thread, c: Context) {
    p == ReadingBit(c.sockfd) || p == ReadingMap(c.sockfd) || p == Result(c.sockfd, Some(c))
  }

  /** The moves of a run that belong to one lookup of thread `t`: it goes on, and stops at its result. */
  ghost predicate OneLookup(s: State, moves: seq<(nat, Call)>, t: nat)
    requires Inv(s)
  {
    forall i | 0 <= i < |moves| && moves[i].0 == t ::
      moves[i].1.Continue? && After(s, moves[..i]).Some? && !Of(After(s, moves[..i]).value, t).Result?
  }

  /** A condition on every state a run passes through. */
  ghost predicate TakenThroughout(s: State, moves: seq<(nat, Call)>, arg: int)
    requires Inv(s)
  {
    forall i | 0 <= i <= |moves| && After(s, moves[..i]).Some? :: Taken(After(s, moves[..i]).value, arg)
  }

  lemma MoveFinds(s: State, t: nat, c: Context, u: nat, call: Call)
    requires Inv(s) && Enabled(s, u, call) && c in s.live && Finding(Of(s, t), c)
    requires u == t ==> call.Continue? && !Of(s, t).Result?
    ensures Finding(Of(Move(s, u, call), t), c)
  {
    assert LiveOk(s, c) && SlotOk(s, c.sockfd);
  }

  /** One move cannot put another context in the place of a live one. */
  lemma MoveKeepsLive(s: State, c: Context, u: nat, call: Call)
    requires Inv(s) && Enabled(s, u, call) && c in s.live && Taken(Move(s, u, call), c.sockfd)
    ensures c in Move(s, u, call).live
  {
    var d :| d in Move(s, u, call).live && d.sockfd == c.sockfd;
    assert LiveOk(s, c) && ThreadOk(s, u);
    if d in s.live {
      assert LiveOk(s, d);
    }
  }

  lemma {:induction false} RunFinds(s: State, t: nat, c: Context, moves: seq<(nat, Call)>)
    requires Inv(s) && After(s, moves).Some? && OneLookup(s, moves, t)
    requires c in s.live && Finding(Of(s, t), c) && TakenThroughout(s, moves, c.sockfd)
    ensures c in After(s, moves).value.live && Finding(Of(After(s, moves).value, t), c)
  {
    hide Finding, Taken;
    if moves != [] {
      var k := |moves| - 1;
      var before := After(s, moves[..k]).value;
      var (u, call) := moves[k];
      assert forall i | 0 <= i <= k :: moves[..k][..i] == moves[..i];
      assert moves[..|moves|] == moves;
      RunFinds(s, t, c, moves[..k]);
      MoveFinds(before, t, c, u, call);
      MoveKeepsLive(before, c, u, call);
    }
  }

  /** From the call of a lookup to its result, with other threads doing what they like: if all the while
      some live context has the socket number, it is one and the same, and the lookup finds it.  So a
      lookup in range that yields null passed a state in which no live context had that number. */
  lemma LookupFinds(s: State, n: nat, t: nat, arg: int, moves: seq<(nat, Call)>)
    requires Reachable(s, n) && Enabled(s, t, Lookup(arg)) && Inv(Move(s, t, Lookup(arg)))
    requires var s1 := Move(s, t, Lookup(arg));
             && After(s1, moves).Some? && Of(After(s1, moves).value, t).Result? && OneLookup(s1, moves, t)
             && TakenThroughout(s1, moves, arg)
    ensures var s' := After(Move(s, t, Lookup(arg)), moves).value;
            var found := Of(s', t).found;
            && Of(s', t).arg == arg && found.Some? && found.value in s.live && found.value in s'.live
            && found.value.sockfd == arg
  {
    var s1 := Move(s, t, Lookup(arg));
    assert moves[..0] == [] && Taken(s1, arg);
    var c :| c in s1.live && c.sockfd == arg;
    assert LiveOk(s1, c) && Finding(Of(s1, t), c);
    RunFinds(s1, t, c, moves);
  }

  /** A lookup never waits for anyone. */
  lemma LookupNeverWaits(s: State, n: nat, t: nat)
    requires Reachable(s, n) && (Of(s, t).ReadingBit? || Of(s, t).ReadingMap?) && Of(s, t).arg != n
    ensures Enabled(s, t, Continue)
    ensures Of(s, t).ReadingMap? ==> Of(Move(s, t, Continue), t).Result?
    ensures Of(s, t).ReadingBit? ==> !Of(Move(s, t, Continue), t).ReadingBit?
  {
    assert SlotInRange(Of(s, t), |s.bitmap|);
  }

  /** A context that is being made is a new one: nobody has it, it is not live, and no lookup can find it. */
  lemma ContextIsNew(s: State, n: nat, t: nat)
    requires Reachable(s, n) && Of(s, t).Reserved?
    ensures Enabled(s, t, Continue) && Of(Move(s, t, Continue), t).Created?
    ensures var c := Of(Move(s, t, Continue), t).ctx;
            && c !in s.live && Some(c) !in s.fdMap && forall u :: InHand(Of(s, u)) != Some(c)
  {
    var c := Context(s.nextId, Of(s, t).slot);
    forall d | d in s.live
      ensures d != c
    {
      assert LiveOk(s, d);
    }
    forall i: nat | i < |s.fdMap|
      ensures s.fdMap[i] != Some(c)
    {
      assert SlotOk(s, i);
    }
    forall u
      ensures InHand(Of(s, u)) != Some(c)
    {
      assert ThreadOk(s, u);
    }
  }

  /** Whenever nobody is in a critical section the mutex is free. */
  lemma MutexIsReleased(s: State, n: nat, t: nat)
    requires Reachable(s, n) && Of(s, t).Idle? && forall u :: !Critical(Of(s, u))
    ensures s.mutex.None? && Enabled(s, t, Open)
  {
  }

  // ---- what a thread achieves when left alone

  lemma AfterMove(s: State, moves: seq<(nat, Call)>, t: nat, call: Call)
    requires Inv(s) && After(s, moves).Some? && Enabled(After(s, moves).value, t, call)
    ensures After(s, moves + [(t, call)]) == Some(Move(After(s, moves).value, t, call))
  {
    var all := moves + [(t, call)];
    assert all[..|all| - 1] == moves;
  }

  /** All moves are those of thread `t`. */
  predicate Alone(moves: seq<(nat, Call)>, t: nat) {
    forall m | m in moves :: m.0 == t
  }

  /** The scan of get_sockfd from `j` on claims slot `i`, the lowest free one. */
  lemma {:induction false} Scan(s: State, moves: seq<(nat, Call)>, t: nat, j: nat, i: nat)
    returns (moves': seq<(nat, Call)>)
    requires Inv(s) && After(s, moves).Some? && Alone(moves, t)
    requires var s1 := After(s, moves).value;
             j <= i < |s1.bitmap| && !s1.bitmap[i] && Of(s1, t) == Scanning(j) && forall k | j <= k < i :: s1.bitmap[k]
    ensures Alone(moves', t)
    ensures var s1 := After(s, moves).value;
            After(s, moves') == Some(Goes(s1, t, Claimed(i)).(bitmap := s1.bitmap[i := true],
                                                             owner := s1.owner[i := Some(ByThread(t))]))
    decreases i - j
  {
    hide After, LiveOk, SlotOk, ThreadOk, SlotInRange, Around, MutexOk;
    AfterMove(s, moves, t, Continue);
    moves' := moves + [(t, Continue)];
    if j < i {
      assert Goes(Goes(After(s, moves).value, t, Scanning(j + 1)), t, Claimed(i))
          == Goes(After(s, moves).value, t, Claimed(i));
      moves' := Scan(s, moves', t, j + 1, i);
    }
  }

  /** From the claim of slot `i` to the published context. */
  lemma Publish(s: State, moves: seq<(nat, Call)>, t: nat, i: nat) returns (moves': seq<(nat, Call)>, c: Context)
    requires Inv(s) && After(s, moves).Some? && Alone(moves, t) && Of(After(s, moves).value, t) == Claimed(i)
    ensures Alone(moves', t) && After(s, moves').Some? && c.sockfd == i
    ensures var s1, s' := After(s, moves).value, After(s, moves').value;
            && Of(s', t).Idle? && s'.mutex.None? && s'.live == s1.live + {c}
            && i < |s1.bitmap| && s'.bitmap == s1.bitmap[i := true] && s'.fdMap == s1.fdMap[i := Some(c)]
  {
    hide After, LiveOk, SlotOk, ThreadOk, Around, MutexOk;
    var s1 := After(s, moves).value;
    assert SlotInRange(Of(s1, t), |s1.bitmap|);
    c := Context(s1.nextId, i);
    AfterMove(s, moves, t, Continue);
    moves' := moves + [(t, Continue)];
    AfterMove(s, moves', t, Continue);
    moves' := moves' + [(t, Continue)];
    AfterMove(s, moves', t, Continue);
    moves' := moves' + [(t, Continue)];
    AfterMove(s, moves', t, Continue);
    moves' := moves' + [(t, Continue)];
  }

  /** An open that is left alone takes the lowest free slot, publishes a new context there, changes
      nothing else and gives the mutex back. */
  lemma OpenTakesLowest(s: State, n: nat, t: nat, i: nat) returns (moves: seq<(nat, Call)>, c: Context)
    requires Reachable(s, n) && Of(s, t).Idle? && s.mutex.None?
    requires i < |s.bitmap| && !s.bitmap[i] && forall k | 0 <= k < i :: s.bitmap[k]
    ensures Inv(s) && Alone(moves, t) && After(s, moves).Some?
    ensures var s' := After(s, moves).value;
            && Of(s', t).Idle? && s'.mutex.None? && c !in s.live && s'.live == s.live + {c} && c.sockfd == i
            && s'.bitmap == s.bitmap[i := true] && s'.fdMap == s.fdMap[i := Some(c)]
  {
    hide Move, Enabled;
    OpenStarts(s, t);
    moves := Scan(s, [(t, Open)], t, 0, i);
    moves, c := Publish(s, moves, t, i);
    FreeIsNew(s, i);
  }

  lemma FreeIsNew(s: State, i: nat)
    requires Inv(s) && i < |s.bitmap| && !s.bitmap[i]
    ensures forall c | c in s.live :: c.sockfd != i
  {
    forall c | c in s.live
      ensures c.sockfd != i
    {
      assert LiveOk(s, c) && SlotOk(s, c.sockfd);
    }
  }

  lemma NoMoves(s: State)
    requires Inv(s)
    ensures After(s, []) == Some(s)
  {
  }

  lemma OpenStarts(s: State, t: nat)
    requires Inv(s) && Of(s, t).Idle? && s.mutex.None?
    ensures After(s, [(t, Open)]) == Some(Goes(s, t, Scanning(0)).(mutex := Some(t)))
  {
    assert [] + [(t, Open)] == [(t, Open)];
    AfterMove(s, [], t, Open);
  }

  /** A close that is left alone takes the context off its slot, changes nothing else and gives the mutex
      back. */
  lemma CloseFrees(s: State, n: nat, t: nat, c: Context) returns (moves: seq<(nat, Call)>)
    requires Reachable(s, n) && Of(s, t).Idle? && s.mutex.None? && c in s.live
    ensures Inv(s) && Alone(moves, t) && After(s, moves).Some? && c.sockfd < |s.bitmap|
    ensures var s' := After(s, moves).value;
            && Of(s', t).Idle? && s'.mutex.None? && s'.live == s.live - {c}
            && s'.bitmap == s.bitmap[c.sockfd := false] && s'.fdMap == s.fdMap[c.sockfd := None]
  {
    hide After, LiveOk, SlotOk, ThreadOk, SlotInRange, Around, MutexOk;
    NoMoves(s);
    AfterMove(s, [], t, Close(c));
    moves := [] + [(t, Close(c))];
    AfterMove(s, moves, t, Continue);
    moves := moves + [(t, Continue)];
    AfterMove(s, moves, t, Continue);
    moves := moves + [(t, Continue)];
    AfterMove(s, moves, t, Continue);
    moves := moves + [(t, Continue)];
    AfterMove(s, moves, t, Continue);
    moves := moves + [(t, Continue)];
  }

  /** At the second read, the context found is live, or is being closed and still on the map. */
  lemma FoundIsAround(s: State, n: nat, t: nat)
    requires Reachable(s, n) && Of(s, t).ReadingMap? && s.fdMap[Of(s, t).arg].Some?
    ensures var c := s.fdMap[Of(s, t).arg].value; c in s.live || exists u :: Closes(Of(s, u), c)
  {
    assert SlotOk(s, Of(s, t).arg) && Around(s, s.fdMap[Of(s, t).arg].value);
  }

  /** A lookup reads outside the arrays exactly if its argument is the size of the table: the guard
      admits that one, and turns away or answers all others. */
  lemma LookupInBounds(s: State, n: nat, t: nat)
    requires Reachable(s, n) && Of(s, t).ReadingBit?
    ensures Enabled(s, t, Continue) <==> Of(s, t).arg != n
    ensures 0 <= Of(s, t).arg <= n
  {
    assert SlotInRange(Of(s, t), |s.bitmap|);
  }

  /** It can happen: a lookup of the table size is let through and reads outside the arrays. */
  lemma ReadsOutside(n: nat, t: nat) returns (s: State)
    ensures Reachable(s, n) && Of(s, t) == ReadingBit(n) && |s.bitmap| == n
    ensures !Enabled(s, t, Continue)
  {
    var s0 := State(None, seq(n, _ => false), seq(n, _ => None), map[], 0, {}, seq(n, _ => None));
    StartOk(s0, n);
    var moves := [(t, Lookup(n))];
    assert moves[..0] == [];
    s := Move(s0, t, Lookup(n));
    assert After(s0, moves) == Some(s);
  }

  /** While a context is live, both reads of a lookup of its slot see it. */
  lemma LiveIsFound(s: State, n: nat, c: Context)
    requires Reachable(s, n) && c in s.live
    ensures c.sockfd < |s.bitmap| && s.bitmap[c.sockfd] && s.fdMap[c.sockfd] == Some(c)
  {
    assert LiveOk(s, c) && SlotOk(s, c.sockfd);
  }

  /** A claim takes the lowest free slot, and the scan runs off the end only if every slot is taken:
      the process exits for want of a slot only when there is none. */
  lemma ScanIsFair(s: State, n: nat, t: nat)
    requires Reachable(s, n) && Of(s, t).Scanning?
    ensures forall j | 0 <= j < Of(s, t).i :: j < |s.bitmap| && s.bitmap[j] && s.owner[j].Some?
  {
    assert ThreadOk(s, t) && SlotInRange(Of(s, t), |s.bitmap|);
    forall j | 0 <= j < Of(s, t).i
      ensures j < |s.bitmap| && s.bitmap[j] && s.owner[j].Some?
    {
      assert SlotOk(s, j);
    }
  }
}
