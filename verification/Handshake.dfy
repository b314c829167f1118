/** Connections from set-up to destruction, as a state machine over all interleavings of any number
    of clients of one server, and of multicast members.

    An event of the connection manager, or a call of the application, starts a handler on an endpoint:
    a branch of `rdma_event_loop`, `disconnect` or `leave_multicast_group`.  A handler runs one action
    at a time, interleaved with those of other endpoints and with the application, which may register
    regions at any moment.  All events of the server's endpoints are handled by one thread, one after
    the other, and it builds every accept's private data in one buffer that it reuses.  The environment
    delivers the events of one connection in their legal order, each at most once, and the application
    does not disconnect a connection whose disconnection the loop handles.  Every endpoint keeps a log
    of what was done to it. */
module Handshake {

  import opened Counters
  import opened Options
  import opened Regions

  datatype Action =
    | CreateCq | CreateQp | PreConnectCb
    | Connect    // rdma_connect, or rdma_join_multicast
    | BuildData  // build_private_data
    | Accept     // rdma_accept, which copies the buffer
    | ReadData   // setup_rc_param, on the client
    | SetReady | ConnectCb
    | SetTerminated | DisconnectCb
    | Destroy
    | Refused    // destroy_connection found the connection not terminated: the process exits

  /** The handler an endpoint runs, or has run last. */
  datatype Phase =
    | Resolving  // none yet; address resolution under way
    | Routing    // the request for the route; route resolution under way
    | Connecting // up to rdma_connect, rdma_join_multicast or rdma_accept
    | Open       // established, or joined
    | Gone       // disconnected

  /** `pc` actions of the handler are done. */
  datatype Endpoint =
    Endpoint(phase: Phase, pc: nat, ready: bool, local: seq<Mr>, remote: seq<MrContext>, log: seq<Action>)

  /** Endpoints of connection `k` on the client and on the server, and of multicast member `k`. */
  datatype Id = Client(k: nat) | Server(k: nat) | Member(k: nat)

  datatype State = State(
    ends: map<Id, Endpoint>,
    serving: Option<nat>,       // the connection whose event the server's loop is handling
    data: Message,              // the server loop's buffer
    accepts: map<nat, Message>, // private data of accepts sent to clients
    sent: map<nat, seq<Mr>>     // the server's regions when it built that data
  )

  datatype Step =
    | Add(id: Id)                        // add_connection_rc, add_connection_ud
    | AddrResolved(id: Id)
    | RouteResolved(k: nat)
    | ConnectRequest(k: nat)
    | Established(id: Id)                // for a member, the multicast join
    | Disconnected(id: Id)
    | Disconnect(id: Id)                 // a call of disconnect or leave_multicast_group
    | Continue(id: Id)                   // the handler's next action
    | Change(id: Id, regions: seq<Mr>)   // the application registers regions

  // ---- handlers

  function Handler(id: Id, phase: Phase): seq<Action> {
    match phase
    case Resolving => []
    case Routing => []
    case Connecting => [CreateCq, CreateQp, PreConnectCb] + if id.Server? then [BuildData, Accept] else [Connect]
    case Open => (if id.Client? then [ReadData] else []) + [SetReady, ConnectCb]
    case Gone => [SetTerminated, DisconnectCb, Destroy]
  }

  predicate Finished(id: Id, e: Endpoint) {
    e.pc >= |Handler(id, e.phase)|
  }

  /** What an action does to the endpoint itself.  set_conn_state does nothing when the state is already
      the new one; TERMINATED is 0, so a fresh context is terminated. */
  function Done(e: Endpoint, a: Action): Endpoint {
    match a
    case SetReady => if e.ready then e else e.(ready := true, log := e.log + [SetReady])
    case SetTerminated => if e.ready then e.(ready := false, log := e.log + [SetTerminated]) else e
    case Destroy => e.(log := e.log + [if e.ready then Refused else Destroy])
    case _ => e.(log := e.log + [a])
  }

  // ---- steps

  predicate In(s: State, id: Id, phase: Phase) {
    id in s.ends && s.ends[id].phase == phase && Finished(id, s.ends[id])
  }

  /** The server's loop takes up an event only when it has handled the last one. */
  predicate Free(s: State, id: Id) {
    id.Server? ==> s.serving.None?
  }

  predicate Enabled(s: State, step: Step) {
    match step
    case Add(id) => !id.Server? && id !in s.ends
    case AddrResolved(id) => !id.Server? && In(s, id, Resolving)
    case RouteResolved(k) => In(s, Client(k), Routing)
    case ConnectRequest(k) => In(s, Client(k), Connecting) && Server(k) !in s.ends && Free(s, Server(k))
    case Established(id) => In(s, id, Connecting) && Free(s, id) && (id.Client? ==> id.k in s.accepts)
    case Disconnected(id) => !id.Member? && In(s, id, Open) && Free(s, id)
    case Disconnect(id) => In(s, id, Open)
    case Continue(id) => id in s.ends && !Finished(id, s.ends[id]) && Fits(s, id)
    case Change(id, regions) => id in s.ends && !s.ends[id].phase.Gone? && Short(regions)
  }

  function Next(s: State, id: Id): Action
    requires id in s.ends && !Finished(id, s.ends[id])
  {
    Handler(id, s.ends[id].phase)[s.ends[id].pc]
  }

  /** Regions are sent and read only as many as the message has room for. */
  predicate Fits(s: State, id: Id)
    requires id in s.ends && !Finished(id, s.ends[id])
  {
    && (Next(s, id).BuildData? ==> |s.ends[id].local| <= MAX_SENT)
    && (Next(s, id).ReadData? ==> id.k in s.accepts && s.accepts[id.k].numMrs <= MAX_SENT)
  }

  function Put(s: State, id: Id, e: Endpoint): State {
    s.(ends := s.ends[id := e])
  }

  function Begin(s: State, id: Id, phase: Phase): State
    requires id in s.ends
  {
    Put(s, id, s.ends[id].(phase := phase, pc := 0))
  }

  /** The server's loop begins a handler. */
  function Serve(s: State, id: Id): State {
    if id.Server? then s.(serving := Some(id.k)) else s
  }

  function Fresh(): Endpoint {
    Endpoint(Resolving, 0, false, [], [], [])
  }

  function Act(s: State, id: Id): State
    requires id in s.ends && !Finished(id, s.ends[id]) && Fits(s, id)
  {
    var e, a := s.ends[id], Next(s, id);
    var read := if a.ReadData? then Decode(s.accepts[id.k]) else e.remote;
    var e' := Done(e.(pc := e.pc + 1, remote := read), a);
    s.(ends := s.ends[id := e'],
       data := if a.BuildData? then Build(s.data, e.local) else s.data,
       sent := if a.BuildData? then s.sent[id.k := e.local] else s.sent,
       accepts := if a.Accept? then s.accepts[id.k := s.data] else s.accepts,
       serving := if id.Server? && s.serving == Some(id.k) && Finished(id, e') then None else s.serving)
  }

  function Apply(s: State, step: Step): State
    requires Enabled(s, step)
  {
    match step
    case Add(id) => Put(s, id, Fresh())
    case AddrResolved(id) => Begin(s, id, if id.Member? then Connecting else Routing)
    case RouteResolved(k) => Begin(s, Client(k), Connecting)
    case ConnectRequest(k) => Serve(Begin(Put(s, Server(k), Fresh()), Server(k), Connecting), Server(k))
    case Established(id) => Serve(Begin(s, id, Open), id)
    case Disconnected(id) => Serve(Begin(s, id, Gone), id)
    case Disconnect(id) => Begin(s, id, Gone)
    case Continue(id) => Act(s, id)
    case Change(id, regions) => Put(s, id, s.ends[id].(local := regions))
  }

  ghost predicate Start(s: State) {
    s.ends == map[] && s.serving.None? && s.accepts == map[] && s.sent == map[]
  }

  /** The state after a run from `s`, if every step of it was possible. */
  function After(s: State, steps: seq<Step>): Option<State> {
    if steps == [] then Some(s)
    else
      match After(s, steps[..|steps| - 1])
      case None => None
      case Some(s') => if Enabled(s', steps[|steps| - 1]) then Some(Apply(s', steps[|steps| - 1])) else None
  }

  ghost predicate Reachable(s: State) {
    exists s0, steps :: Start(s0) && After(s0, steps) == Some(s)
  }

  // ---- the life of an endpoint

  /** Everything that may ever happen to an endpoint, in order. */
  function Script(id: Id): seq<Action> {
    match id
    case Client(_) =>
      [CreateCq, CreateQp, PreConnectCb, Connect, ReadData, SetReady, ConnectCb, SetTerminated, DisconnectCb, Destroy]
    case Server(_) =>
      [CreateCq, CreateQp, PreConnectCb, BuildData, Accept, SetReady, ConnectCb, SetTerminated, DisconnectCb, Destroy]
    case Member(_) =>
      [CreateCq, CreateQp, PreConnectCb, Connect, SetReady, ConnectCb, SetTerminated, DisconnectCb, Destroy]
  }

  /** What has happened before a phase. */
  function Before(id: Id, phase: Phase): seq<Action> {
    match phase
    case Resolving => []
    case Routing => []
    case Connecting => []
    case Open => Handler(id, Connecting)
    case Gone => Handler(id, Connecting) + Handler(id, Open)
  }

  /** The state is READY from the one action to the other. */
  predicate Up(id: Id, e: Endpoint) {
    (e.phase.Open? && e.pc > (if id.Client? then 1 else 0)) || (e.phase.Gone? && e.pc == 0)
  }

  /** The log is as far as the handlers are. */
  ghost predicate LifeOk(id: Id, e: Endpoint) {
    && e.pc <= |Handler(id, e.phase)|
    && e.log == Before(id, e.phase) + Handler(id, e.phase)[..e.pc]
    && (e.ready <==> Up(id, e))
  }

  /** Is the server still busy with its answer to connection `k`? */
  predicate Answering(s: State, k: nat) {
    Server(k) in s.ends && s.ends[Server(k)].phase.Connecting? && !Finished(Server(k), s.ends[Server(k)])
  }

  /** Only the connection being served can be between its build and its accept, so the buffer is its
      own; accepts in flight and what clients have read describe the regions as they were built. */
  ghost predicate RegionsOk(s: State, k: nat) {
    && (s.serving == Some(k) ==> Server(k) in s.ends && !Finished(Server(k), s.ends[Server(k)]))
    && (Answering(s, k) ==> s.serving == Some(k) && k !in s.accepts)
    && (Answering(s, k) && s.ends[Server(k)].pc == 4 ==> k in s.sent && Describes(s.data, s.sent[k]))
    && (Server(k) in s.ends && !Answering(s, k) ==> k in s.accepts)
    && (k in s.accepts ==> k in s.sent && Server(k) in s.ends && Describes(s.accepts[k], s.sent[k]))
    && (Client(k) in s.ends && (s.ends[Client(k)].phase.Open? || s.ends[Client(k)].phase.Gone?) ==> k in s.accepts)
    && (Server(k) in s.ends ==> Short(s.ends[Server(k)].local))
    && (k in s.sent ==> Short(s.sent[k]))
    && (Client(k) in s.ends && ReadData in s.ends[Client(k)].log ==>
        k in s.accepts && s.ends[Client(k)].remote == Describe(s.sent[k]))
  }

  ghost predicate Describes(m: Message, local: seq<Mr>) {
    m.numMrs <= MAX_SENT && Decode(m) == Describe(local)
  }

  ghost predicate Inv(s: State) {
    (forall id | id in s.ends :: LifeOk(id, s.ends[id])) && (forall k :: RegionsOk(s, k))
  }

  /** Starting the next handler when the last one is finished. */
  lemma BeginLife(id: Id, e: Endpoint, phase: Phase)
    requires LifeOk(id, e) && Finished(id, e)
    requires Before(id, phase) == Before(id, e.phase) + Handler(id, e.phase)
    requires e.phase.Open? <==> phase.Gone?
    ensures LifeOk(id, e.(phase := phase, pc := 0))
  {
    assert Handler(id, phase)[..0] == [];
    assert Handler(id, e.phase)[..e.pc] == Handler(id, e.phase);
  }

  /** The next action goes as the script has it: a connection is made ready and terminated once, and is
      terminated when it is destroyed. */
  lemma DoneLife(id: Id, e: Endpoint, remote: seq<MrContext>)
    requires LifeOk(id, e) && !Finished(id, e)
    ensures var a := Handler(id, e.phase)[e.pc];
            var e' := Done(e.(pc := e.pc + 1, remote := remote), a);
            LifeOk(id, e') && e'.log == e.log + [a] && e'.pc == e.pc + 1 && e'.phase == e.phase
  {
    hide Handler, Before;
    var h := Handler(id, e.phase);
    ReadyWhenDue(id, e);
    assert h[..e.pc + 1] == h[..e.pc] + [h[e.pc]];
  }

  /** A connection is set ready and terminated once, and is terminated when it is destroyed. */
  lemma ReadyWhenDue(id: Id, e: Endpoint)
    requires e.pc < |Handler(id, e.phase)| && (e.ready <==> Up(id, e))
    ensures var a := Handler(id, e.phase)[e.pc];
            && (a.SetReady? ==> !e.ready) && (a.SetTerminated? ==> e.ready) && (a.Destroy? ==> !e.ready)
            && !a.Refused?
            && (Up(id, e.(pc := e.pc + 1)) <==> (a.SetReady? || (e.ready && !a.SetTerminated?)))
  {
  }

  lemma StepLife(s: State, step: Step, id: Id)
    requires Inv(s) && Enabled(s, step) && id in Apply(s, step).ends
    ensures LifeOk(id, Apply(s, step).ends[id])
  {
    hide Build, Decode, Describe, RegionsOk, LifeOk, Handler, Before, Done;
    match step
    case Continue(x) =>
      if x == id {
        DoneLife(id, s.ends[id], if Next(s, id).ReadData? then Decode(s.accepts[id.k]) else s.ends[id].remote);
      }
    case Change(x, regions) => if x == id { ChangeLife(id, s.ends[id], regions); }
    case Add(x) => FreshLife(id);
    case ConnectRequest(k) => if id == Server(k) { FreshLife(id); BeginNext(id, Fresh(), Connecting); }
    case AddrResolved(x) => if x == id { BeginNext(id, s.ends[id], if id.Member? then Connecting else Routing); }
    case RouteResolved(k) => if id == Client(k) { BeginNext(id, s.ends[id], Connecting); }
    case Established(x) => if x == id { BeginNext(id, s.ends[id], Open); }
    case Disconnected(x) => if x == id { BeginNext(id, s.ends[id], Gone); }
    case Disconnect(x) => if x == id { BeginNext(id, s.ends[id], Gone); }
  }

  lemma ChangeLife(id: Id, e: Endpoint, regions: seq<Mr>)
    requires LifeOk(id, e)
    ensures LifeOk(id, e.(local := regions))
  {
  }

  lemma FreshLife(id: Id)
    ensures LifeOk(id, Fresh()) && Finished(id, Fresh())
  {
    assert Handler(id, Resolving)[..0] == [];
  }

  lemma BeginNext(id: Id, e: Endpoint, phase: Phase)
    requires LifeOk(id, e) && Finished(id, e)
    requires match phase
             case Resolving => false
             case Routing => e.phase.Resolving?
             case Connecting => e.phase.Resolving? || e.phase.Routing?
             case Open => e.phase.Connecting?
             case Gone => e.phase.Open?
    ensures LifeOk(id, e.(phase := phase, pc := 0))
  {
    hide LifeOk;
    BeginLife(id, e, phase);
  }

  /** Where in the handlers the regions are dealt with. */
  lemma RegionActions(id: Id, phase: Phase, pc: nat)
    requires pc < |Handler(id, phase)|
    ensures var a := Handler(id, phase)[pc];
            && (a.BuildData? <==> id.Server? && phase.Connecting? && pc == 3)
            && (a.Accept? <==> id.Server? && phase.Connecting? && pc == 4)
            && (a.ReadData? <==> id.Client? && phase.Open? && pc == 0)
    ensures id.Server? && phase.Connecting? ==> |Handler(id, phase)| == 5
  {
  }

  lemma DoneKeeps(e: Endpoint, a: Action)
    ensures var e' := Done(e, a);
            && e'.phase == e.phase && e'.pc == e.pc && e'.remote == e.remote && e'.local == e.local
            && (ReadData in e'.log <==> ReadData in e.log || a.ReadData?)
  {
  }

  lemma ActRegions(s: State, id: Id, k: nat)
    requires Enabled(s, Continue(id)) && RegionsOk(s, k) && RegionsOk(s, id.k)
    ensures RegionsOk(Act(s, id), k)
  {
    hide Build, Decode, Describe, Handler, Done;
    var e := s.ends[id];
    RegionActions(id, e.phase, e.pc);
    var read := if Next(s, id).ReadData? then Decode(s.accepts[id.k]) else e.remote;
    DoneKeeps(e.(pc := e.pc + 1, remote := read), Next(s, id));
    if Next(s, id).BuildData? {
      BuiltDescribes(s.data, e.local);
    }
  }

  lemma BuiltDescribes(data: Message, local: seq<Mr>)
    requires |local| <= MAX_SENT
    ensures Describes(Build(data, local), local)
  {
    DecodeBuild(data, local);
  }

  lemma StepRegions(s: State, step: Step, k: nat)
    requires Inv(s) && Enabled(s, step)
    ensures RegionsOk(Apply(s, step), k)
  {
    hide Build, Decode, Describe, LifeOk, Act, Done;
    assert RegionsOk(s, k);
    if step.Continue? {
      assert RegionsOk(s, step.id.k);
      ActRegions(s, step.id, k);
    }
  }

  lemma StepKeeps(s: State, step: Step)
    requires Inv(s) && Enabled(s, step)
    ensures Inv(Apply(s, step))
  {
    hide LifeOk, RegionsOk, Apply, Enabled;
    forall id | id in Apply(s, step).ends
      ensures LifeOk(id, Apply(s, step).ends[id])
    {
      StepLife(s, step, id);
    }
    forall k
      ensures RegionsOk(Apply(s, step), k)
    {
      StepRegions(s, step, k);
    }
  }

  lemma {:induction false} RunKeeps(s: State, steps: seq<Step>)
    requires Inv(s)
    ensures After(s, steps).Some? ==> Inv(After(s, steps).value)
  {
    hide Apply, Enabled, Inv;
    if steps != [] {
      var i := |steps| - 1;
      RunKeeps(s, steps[..i]);
      var before := After(s, steps[..i]);
      if before.Some? && Enabled(before.value, steps[i]) {
        StepKeeps(before.value, steps[i]);
      }
    }
  }

  lemma ReachableInv(s: State)
    requires Reachable(s)
    ensures Inv(s)
  {
    var s0, steps :| Start(s0) && After(s0, steps) == Some(s);
    RunKeeps(s0, steps);
  }

  /** Where in the script the state changes; the callbacks and the destruction follow. */
  function ReadyAt(id: Id): nat {
    if id.Member? then 4 else 5
  }

  lemma LogIsStretch(id: Id, e: Endpoint)
    requires LifeOk(id, e)
    ensures e.log == Script(id)[..|e.log|] && |e.log| <= |Script(id)| == ReadyAt(id) + 5
    ensures Up(id, e) <==> ReadyAt(id) < |e.log| <= ReadyAt(id) + 2
  {
    hide Script, Handler;
    ScriptIsHandlers(id);
    var c, o, g := Handler(id, Connecting), Handler(id, Open), Handler(id, Gone);
    assert (c + o + g)[..|e.log|] == e.log;
  }

  lemma ScriptIsHandlers(id: Id)
    ensures Script(id) == Handler(id, Connecting) + Handler(id, Open) + Handler(id, Gone)
    ensures |Handler(id, Resolving)| == |Handler(id, Routing)| == 0 && |Handler(id, Gone)| == 3
    ensures |Handler(id, Connecting)| == (if id.Server? then 5 else 4)
    ensures |Handler(id, Open)| == (if id.Client? then 3 else 2)
  {
  }

  /** An action that stands in one place of the script is in the log if the log goes that far. */
  lemma InLog(script: seq<Action>, log: seq<Action>, i: nat)
    requires |log| <= |script| && log == script[..|log|] && i < |script|
    requires forall j | 0 <= j < |script| && j != i :: script[j] != script[i]
    ensures script[i] in log <==> i < |log|
  {
    if script[i] in log {
      var j :| 0 <= j < |log| && log[j] == script[i];
      assert script[j] == script[i];
    }
    if i < |log| {
      assert log[i] == script[i];
    }
  }

  lemma OnceInScript(id: Id)
    ensures var script, r := Script(id), ReadyAt(id);
            && |script| == r + 5 && Refused !in script
            && script[r] == SetReady && script[r + 1] == ConnectCb && script[r + 2] == SetTerminated
            && script[r + 3] == DisconnectCb && script[r + 4] == Destroy
            && forall i, j | 0 <= i < j < |script| :: script[i] != script[j]
  {
  }

  lemma LogTells(id: Id, e: Endpoint)
    requires LifeOk(id, e)
    ensures e.log <= Script(id) && Refused !in e.log
    ensures SetReady in e.log <==> ReadyAt(id) < |e.log|
    ensures ConnectCb in e.log <==> ReadyAt(id) + 1 < |e.log|
    ensures SetTerminated in e.log <==> ReadyAt(id) + 2 < |e.log|
    ensures DisconnectCb in e.log <==> ReadyAt(id) + 3 < |e.log|
    ensures Destroy in e.log <==> |e.log| == |Script(id)|
    ensures e.ready <==> ReadyAt(id) < |e.log| <= ReadyAt(id) + 2
  {
    LogIsStretch(id, e);
    OnceInScript(id);
    hide Script, LifeOk, Up, ReadyAt;
    var script, r := Script(id), ReadyAt(id);
    InLog(script, e.log, r);
    InLog(script, e.log, r + 1);
    InLog(script, e.log, r + 2);
    InLog(script, e.log, r + 3);
    InLog(script, e.log, r + 4);
  }

  /** Whatever else runs in between, every endpoint's log is an initial stretch of its script: completion
      queue before queue pair, then each callback at most once and in order, destruction at most once and
      last, and the guard of destroy_connection never fires.  The endpoint is READY exactly from set-up to
      termination, which includes its connect callback and excludes its disconnect callback. */
  lemma LifeFollowsScript(s: State, id: Id)
    requires Reachable(s) && id in s.ends
    ensures var e := s.ends[id];
            && e.log <= Script(id) && Refused !in e.log
            && (e.ready <==> SetReady in e.log && SetTerminated !in e.log)
            && (ConnectCb in e.log && SetTerminated !in e.log ==> e.ready)
            && (DisconnectCb in e.log ==> !e.ready)
            && (Destroy in e.log ==> e.log == Script(id))
  {
    hide LifeOk, Script;
    ReachableInv(s);
    LogTells(id, s.ends[id]);
  }

  /** Whenever the server is about to accept connection `k`, its one buffer describes the regions of that
      connection as they were when it built the data, however many clients are being served. */
  lemma BufferIsOwn(s: State, k: nat)
    requires Reachable(s) && Server(k) in s.ends
    requires !Finished(Server(k), s.ends[Server(k)]) && Next(s, Server(k)).Accept?
    ensures s.serving == Some(k) && k in s.sent && Describes(s.data, s.sent[k])
  {
    hide LifeOk, Describe, Decode;
    ReachableInv(s);
    assert RegionsOk(s, k);
    RegionActions(Server(k), s.ends[Server(k)].phase, s.ends[Server(k)].pc);
  }

  /** In every interleaving of any number of clients: a client that has reached its connect callback
      has exactly the regions, in number, order, address, length and key, that the server's endpoint of
      the same connection had when it built the private data of its accept. */
  lemma RegionsArrive(s: State, k: nat)
    requires Reachable(s) && Client(k) in s.ends && ConnectCb in s.ends[Client(k)].log
    ensures k in s.sent && |s.ends[Client(k)].remote| == |s.sent[k]|
    ensures forall i | 0 <= i < |s.sent[k]| ::
              var mr := s.sent[k][i];
              mr.length < MODULUS && s.ends[Client(k)].remote[i] == MrContext(mr.addr, mr.length, mr.rkey)
  {
    hide LifeOk;
    ReachableInv(s);
    ReadBeforeConnectCb(Client(k), s.ends[Client(k)]);
    assert RegionsOk(s, k);
    DescribedExactly(s.sent[k]);
    assert forall i | 0 <= i < |s.sent[k]| :: s.sent[k][i] in s.sent[k];
  }

  lemma ReadBeforeConnectCb(id: Id, e: Endpoint)
    requires LifeOk(id, e) && id.Client? && ConnectCb in e.log
    ensures ReadData in e.log && (e.phase.Open? || e.phase.Gone?)
  {
    LogTells(id, e);
    LogIsStretch(id, e);
    assert e.log[4] == ReadData;
  }

  // ---- a connection can always be made, used and ended

  lemma AfterStep(s: State, steps: seq<Step>, step: Step)
    requires After(s, steps).Some? && Enabled(After(s, steps).value, step)
    ensures After(s, steps + [step]) == Some(Apply(After(s, steps).value, step))
  {
    assert (steps + [step])[..|steps|] == steps;
  }

  /** What a handler leaves alone: other endpoints, accepts already sent, and, unless it is the server's
      answer, what has been sent. */
  ghost predicate OnlyOwn(s: State, id: Id, s': State) {
    && s'.ends.Keys == s.ends.Keys && id in s.ends && s'.ends[id].local == s.ends[id].local
    && s'.ends[id].phase == s.ends[id].phase
    && (forall other | other in s.ends && other != id :: s'.ends[other] == s.ends[other])
    && (forall k | k != id.k :: (k in s'.sent <==> k in s.sent) && (k in s.sent ==> s'.sent[k] == s.sent[k]))
    && (!(id.Server? && s.ends[id].phase.Connecting?) ==> s'.sent == s.sent && s'.accepts == s.accepts)
  }

  /** The regions of the server's answer that have been described so far. */
  ghost predicate AnswerSent(s: State, id: Id) {
    id in s.ends && (id.Server? && s.ends[id].phase.Connecting? && s.ends[id].pc > 3 ==>
      id.k in s.sent && s.sent[id.k] == s.ends[id].local)
  }

  lemma OnlyOwnTwice(s: State, id: Id, s1: State, s2: State)
    requires OnlyOwn(s, id, s1) && OnlyOwn(s1, id, s2)
    ensures OnlyOwn(s, id, s2)
  {
  }

  lemma ActOwn(s: State, id: Id)
    requires Enabled(s, Continue(id))
    ensures OnlyOwn(s, id, Act(s, id)) && Act(s, id).ends[id].pc == s.ends[id].pc + 1
    ensures AnswerSent(s, id) ==> AnswerSent(Act(s, id), id)
    ensures var done := Finished(id, Act(s, id).ends[id]);
            Act(s, id).serving == if done && id.Server? && s.serving == Some(id.k) then None else s.serving
  {
    hide Build, Decode, Describe, Handler, Done;
    var e := s.ends[id];
    RegionActions(id, e.phase, e.pc);
    var read := if Next(s, id).ReadData? then Decode(s.accepts[id.k]) else e.remote;
    DoneKeeps(e.(pc := e.pc + 1, remote := read), Next(s, id));
  }

  /** A handler that has been begun runs to its end. */
  lemma {:induction false} RunOut(s: State, id: Id) returns (steps: seq<Step>, s': State)
    requires Inv(s) && id in s.ends && AnswerSent(s, id)
    requires id.Server? && s.ends[id].phase.Connecting? ==> |s.ends[id].local| <= 3
    ensures After(s, steps) == Some(s') && Inv(s')
    ensures OnlyOwn(s, id, s') && Finished(id, s'.ends[id]) && AnswerSent(s', id)
    ensures if Finished(id, s.ends[id]) then s' == s
            else s'.serving == if id.Server? && s.serving == Some(id.k) then None else s.serving
    decreases |Handler(id, s.ends[id].phase)| - s.ends[id].pc
  {
    hide Inv, Apply, Handler, OnlyOwn, AnswerSent, Enabled;
    if Finished(id, s.ends[id]) {
      steps, s' := [], s;
      OwnOfNothing(s, id);
    } else {
      CanContinue(s, id);
      StepKeeps(s, Continue(id));
      ActOwn(s, id);
      ActIsApply(s, id);
      var s1 := Act(s, id);
      OwnLocal(s, id, s1);
      steps, s' := RunOut(s1, id);
      OnlyOwnTwice(s, id, s1, s');
      StepFirst(s, Continue(id), steps);
      steps := [Continue(id)] + steps;
    }
  }

  lemma OwnOfNothing(s: State, id: Id)
    requires id in s.ends
    ensures OnlyOwn(s, id, s)
  {
  }

  lemma OwnLocal(s: State, id: Id, s': State)
    requires OnlyOwn(s, id, s')
    ensures id in s.ends && id in s'.ends && s'.ends[id].local == s.ends[id].local
    ensures s'.ends[id].phase == s.ends[id].phase
  {
  }

  lemma ActIsApply(s: State, id: Id)
    requires Enabled(s, Continue(id))
    ensures Apply(s, Continue(id)) == Act(s, id)
  {
  }

  lemma {:induction false} AfterJoined(s: State, steps: seq<Step>, more: seq<Step>)
    requires After(s, steps).Some?
    ensures After(s, steps + more) == After(After(s, steps).value, more)
  {
    hide Enabled, Apply;
    if more == [] {
      assert steps + more == steps;
    } else {
      var k := |more| - 1;
      AfterJoined(s, steps, more[..k]);
      assert (steps + more)[..|steps| + k] == steps + more[..k];
    }
  }

  lemma StepFirst(s: State, step: Step, steps: seq<Step>)
    requires Enabled(s, step)
    ensures After(s, [step] + steps) == After(Apply(s, step), steps)
  {
    hide Enabled, Apply;
    assert [] + [step] == [step];
    AfterStep(s, [], step);
    AfterJoined(s, [step], steps);
  }

  lemma CanContinue(s: State, id: Id)
    requires Inv(s) && id in s.ends && !Finished(id, s.ends[id])
    requires id.Server? && s.ends[id].phase.Connecting? ==> |s.ends[id].local| <= 3
    ensures Enabled(s, Continue(id))
  {
    assert RegionsOk(s, id.k);
    RegionActions(id, s.ends[id].phase, s.ends[id].pc);
  }

  /** Beginning a handler, and running it out. */
  lemma Handle(s: State, step: Step, id: Id) returns (steps: seq<Step>, s': State)
    requires Inv(s) && Enabled(s, step)
    requires var s1 := Apply(s, step);
             && id in s1.ends && AnswerSent(s1, id)
             && (id.Server? && s1.ends[id].phase.Connecting? ==> |s1.ends[id].local| <= 3)
    ensures After(s, steps) == Some(s') && Inv(s')
    ensures OnlyOwn(Apply(s, step), id, s') && Finished(id, s'.ends[id]) && AnswerSent(s', id)
    ensures var s1 := Apply(s, step);
            if Finished(id, s1.ends[id]) then s' == s1
            else s'.serving == if id.Server? && s1.serving == Some(id.k) then None else s1.serving
  {
    hide Inv, Apply, Handler, OnlyOwn, AnswerSent, Enabled;
    StepKeeps(s, step);
    steps, s' := RunOut(Apply(s, step), id);
    StepFirst(s, step, steps);
    steps := [step] + steps;
  }

  /** An event brings its endpoint to a new phase, whose handler runs to its end. */
  lemma Advance(s0: State, steps0: seq<Step>, s: State, step: Step, id: Id, phase: Phase)
    returns (steps: seq<Step>, s': State)
    requires After(s0, steps0) == Some(s) && Inv(s) && Enabled(s, step)
    requires var s1 := Apply(s, step);
             && id in s1.ends && s1.ends[id].phase == phase && s1.ends[id].pc == 0
             && s1.ends[id].phase == phase && (id.Server? && phase.Connecting? ==> s1.ends[id].local == [])
             && (id.Server? ==> s1.serving == Some(id.k)) && (!id.Server? ==> s1.serving == s.serving)
    ensures After(s0, steps) == Some(s') && Inv(s') && In(s', id, phase)
    ensures OnlyOwn(Apply(s, step), id, s')
    ensures s'.serving == if id.Server? then None else s.serving
  {
    hide Inv, Apply, OnlyOwn, Enabled, Handler;
    var s1, more := Apply(s, step), [];
    more, s' := Handle(s, step, id);
    OwnLocal(s1, id, s');
    AfterJoined(s0, steps0, more);
    steps := steps0 + more;
    StepKeeps(s, step);
    if id.Server? {
      ServerActs(id, s1);
    }
  }

  lemma ServerActs(id: Id, s: State)
    requires Inv(s) && id.Server? && id in s.ends && s.serving == Some(id.k)
    ensures !Finished(id, s.ends[id])
  {
    assert RegionsOk(s, id.k);
  }

  /** A multicast member joins and leaves. */
  lemma MemberCompletes(s: State, k: nat) returns (steps: seq<Step>, s': State)
    requires Reachable(s) && Member(k) !in s.ends
    ensures After(s, steps) == Some(s') && Member(k) in s'.ends && s'.ends[Member(k)].log == Script(Member(k))
  {
    hide Inv, LifeOk, Script, After, OnlyOwn;
    ReachableInv(s);
    var id := Member(k);
    NoSteps(s);
    steps, s' := Advance(s, [], s, Add(id), id, Resolving);
    steps, s' := Advance(s, steps, s', AddrResolved(id), id, Connecting);
    steps, s' := Advance(s, steps, s', Established(id), id, Open);
    steps, s' := Advance(s, steps, s', Disconnect(id), id, Gone);
    EndsOk(s', id);
    GoneIsAll(id, s'.ends[id]);
  }

  /** The server answers a connection request; its callback registers these regions. */
  lemma ServerAnswers(s0: State, steps0: seq<Step>, s: State, k: nat, regions: seq<Mr>)
    returns (steps: seq<Step>, s': State)
    requires After(s0, steps0) == Some(s) && Inv(s) && Enabled(s, ConnectRequest(k))
    requires |regions| <= 3 && Short(regions)
    ensures After(s0, steps) == Some(s') && Inv(s') && In(s', Server(k), Connecting) && s'.serving.None?
    ensures In(s', Client(k), Connecting) && k in s'.accepts && k in s'.sent && s'.sent[k] == regions
  {
    hide Inv, After, Handler;
    var id := Server(k);
    var s1 := Apply(s, ConnectRequest(k));
    StepKeeps(s, ConnectRequest(k));
    AfterStep(s0, steps0, ConnectRequest(k));
    var s2 := Apply(s1, Change(id, regions));
    StepKeeps(s1, Change(id, regions));
    AfterStep(s0, steps0 + [ConnectRequest(k)], Change(id, regions));
    var run := steps0 + [ConnectRequest(k)] + [Change(id, regions)];
    var more;
    more, s' := RunOut(s2, id);
    AfterJoined(s0, run, more);
    steps := run + more;
    EndsOk(s', id);
    AnswerLength(k);
  }

  lemma AnswerLength(k: nat)
    ensures |Handler(Server(k), Connecting)| == 5
  {
  }

  /** From the client's first call to both endpoints waiting for the connection. */
  lemma Connects(s: State, k: nat, regions: seq<Mr>) returns (steps: seq<Step>, s': State)
    requires Inv(s) && Client(k) !in s.ends && Server(k) !in s.ends && s.serving.None?
    requires |regions| <= 3 && Short(regions)
    ensures After(s, steps) == Some(s') && Inv(s') && In(s', Server(k), Connecting) && s'.serving.None?
    ensures In(s', Client(k), Connecting) && k in s'.accepts && k in s'.sent && s'.sent[k] == regions
  {
    hide Inv, After, Handler, Finished;
    var c := Client(k);
    NoSteps(s);
    steps, s' := Advance(s, [], s, Add(c), c, Resolving);
    steps, s' := Advance(s, steps, s', AddrResolved(c), c, Routing);
    steps, s' := Advance(s, steps, s', RouteResolved(k), c, Connecting);
    steps, s' := ServerAnswers(s, steps, s', k, regions);
  }

  /** A connection, from the client's first call to the destruction of both endpoints: with at most three
      regions on the server, both go through their whole script, and the client ends up with exactly those
      regions. */
  lemma ConnectionCompletes(s: State, k: nat, regions: seq<Mr>) returns (steps: seq<Step>, s': State)
    requires Reachable(s) && Client(k) !in s.ends && Server(k) !in s.ends && s.serving.None?
    requires |regions| <= 3 && Short(regions)
    ensures After(s, steps) == Some(s') && Client(k) in s'.ends && Server(k) in s'.ends
    ensures s'.ends[Client(k)].log == Script(Client(k)) && s'.ends[Server(k)].log == Script(Server(k))
    ensures s'.ends[Client(k)].remote == Describe(regions)
  {
    hide Inv, LifeOk, Script, After, RegionsOk, Describe, Describes, Handler, Finished;
    ReachableInv(s);
    var c, v := Client(k), Server(k);
    steps, s' := Connects(s, k, regions);
    steps, s' := Advance(s, steps, s', Established(c), c, Open);
    steps, s' := Advance(s, steps, s', Established(v), v, Open);
    steps, s' := Advance(s, steps, s', Disconnected(c), c, Gone);
    steps, s' := Advance(s, steps, s', Disconnected(v), v, Gone);
    EndsOk(s', c);
    EndsOk(s', v);
    GoneIsAll(c, s'.ends[c]);
    GoneIsAll(v, s'.ends[v]);
    RegionsRead(s', k);
  }

  lemma RegionsRead(s: State, k: nat)
    requires RegionsOk(s, k) && Client(k) in s.ends && s.ends[Client(k)].log == Script(Client(k))
    ensures k in s.sent && s.ends[Client(k)].remote == Describe(s.sent[k])
  {
    assert s.ends[Client(k)].log[4] == ReadData;
  }

  lemma NoSteps(s: State)
    ensures After(s, []) == Some(s)
  {
  }

  lemma EndsOk(s: State, id: Id)
    requires Inv(s) && id in s.ends
    ensures LifeOk(id, s.ends[id]) && RegionsOk(s, id.k)
  {
  }

  lemma GoneIsAll(id: Id, e: Endpoint)
    requires LifeOk(id, e) && e.phase.Gone? && Finished(id, e)
    ensures e.log == Script(id)
  {
    LogIsStretch(id, e);
    ScriptIsHandlers(id);
  }
}
