/** Shutdown of a TCP server: the listening loop accepts, stops and forgets connections,
    worker loops attach them and tear them down, and another thread may ask for the stop.

    Every access to what another thread may change is a step of its own: accepting checks
    the status, then asserts it and posts the connection, then records it; stopping looks at
    each connection and closes it afterwards; a stop from another thread stores two values
    and queues a functor. */
module TcpServer {
  import opened Wrappers

  datatype Status = Running | Stopping | Stopped

  datatype SubStatus = NoSubStatus | StoppingListener | StoppingThreadPool

  /** Where a connection is on its worker loop. `Reclosed` is a torn-down connection whose
      status was overwritten by another `Close`, with that close queued. */
  datatype Phase = Attaching | Open | Closing | Torn | Reclosed

  /** What the listening loop is in the middle of. */
  datatype Pc = Idle | Checked | Posted(id: nat) | CloseLoop(todo: set<nat>, seen: Option<nat>)

  /** Functors queued on the listening loop, run first in, first out. */
  datatype Functor = Removal(id: nat) | StopFunctor

  /** How far the call of `Stop` is. */
  datatype Stopper = NotCalled | StatusStored | SubstatusStored | Called

  datatype Event = PoolStopped | DoneCalled | StatusStopped

  datatype Server = Server(
    hasCallback: bool,          // whether a done callback is given to Stop
    status: Status,
    substatus: SubStatus,
    listening: bool,
    connections: set<nat>,      // connections_
    phases: map<nat, Phase>,    // every connection ever created
    queue: seq<Functor>,
    pc: Pc,
    stopper: Stopper,
    storedCallback: bool,       // stopped_cb_ is set
    poolAlive: bool,            // tpool_ is set
    nextId: nat,
    log: seq<Event>)

  datatype Action =
    | NewConn
    | Post
    | Insert
    | Attach(id: nat)
    | CloseConn(id: nat)
    | Tear(id: nat)
    | RunRemoval
    | StopHere
    | Look(id: nat)
    | CloseSeen
    | EndClosing
    | StoreStatus
    | StoreSubstatus
    | QueueStop
    | RunStop

  function Init(hasCallback: bool): Server {
    Server(hasCallback, Running, NoSubStatus, true, {}, map[], [], Idle, NotCalled, false, true, 0, [])
  }

  predicate PhaseIs(s: Server, id: nat, p: Phase) {
    id in s.phases && s.phases[id] == p
  }

  predicate IsTorn(s: Server, id: nat) {
    PhaseIs(s, id, Torn) || PhaseIs(s, id, Reclosed)
  }

  predicate Enabled(s: Server, a: Action) {
    match a
    case NewConn => s.pc == Idle && s.listening
    case Post => s.pc == Checked
    case Insert => s.pc.Posted?
    case Attach(id) => PhaseIs(s, id, Attaching)
    case CloseConn(id) => PhaseIs(s, id, Open)
    case Tear(id) => PhaseIs(s, id, Open) || PhaseIs(s, id, Closing) || PhaseIs(s, id, Reclosed)
    case RunRemoval => s.pc == Idle && s.queue != [] && s.queue[0].Removal?
    case StopHere => s.pc == Idle && s.stopper == NotCalled && s.status == Running
    case Look(id) => s.pc.CloseLoop? && s.pc.seen == None && id in s.pc.todo
    case CloseSeen => s.pc.CloseLoop? && s.pc.seen.Some?
    case EndClosing => s.pc == CloseLoop({}, None)
    case StoreStatus => s.stopper == NotCalled && s.status == Running
    case StoreSubstatus => s.stopper == StatusStored
    case QueueStop => s.stopper == SubstatusStored
    case RunStop => s.pc == Idle && s.queue != [] && s.queue[0] == StopFunctor
  }

  /** What StopThreadPool asserts: the server is stopping and the pool still there. */
  predicate CanStopPool(s: Server) {
    s.status == Stopping && s.poolAlive
  }

  /** A removal runs into an assertion exactly when this fails. */
  predicate RemoveSafe(s: Server, id: nat) {
    s.status == Stopping && s.connections - {id} == {} ==> CanStopPool(s) && s.substatus == StoppingListener
  }

  predicate StopSafe(s: Server) {
    s.listening && (s.connections == {} ==> CanStopPool(s))
  }

  /** Every assertion of the program that the step would run into holds: that the server is
      running when a connection is made, that a channel is not closed twice, and those of
      the shutdown. */
  predicate Safe(s: Server, a: Action)
    requires Enabled(s, a)
  {
    match a
    case Post => s.status == Running
    case Tear(id) => !PhaseIs(s, id, Reclosed)
    case RunRemoval => RemoveSafe(s, s.queue[0].id)
    case StopHere => StopSafe(Marked(s))
    case RunStop => StopSafe(s)
    case _ => true
  }

  function Marked(s: Server): Server {
    s.(status := Stopping, substatus := StoppingListener, stopper := Called)
  }

  /** Stop the workers, call the callback given, record the final status. */
  function Finish(s: Server, callback: bool): Server {
    s.(poolAlive := false, substatus := NoSubStatus, storedCallback := false, status := Stopped,
       log := s.log + [PoolStopped] + (if callback then [DoneCalled] else []) + [StatusStopped])
  }

  function RemoveConnection(s: Server, id: nat): Server {
    var t := s.(connections := s.connections - {id});
    if t.status == Stopping && t.connections == {} then Finish(t, t.storedCallback) else t
  }

  /** The first part of StopInLoop; with connections left it goes on to close them. */
  function StopInLoop(s: Server): Server {
    var t := s.(listening := false);
    if t.connections == {} then Finish(t, t.hasCallback) else t.(pc := CloseLoop(t.connections, None))
  }

  /** The status after a `Close`, whatever it was. */
  function AfterClose(p: Phase): Phase {
    if p == Torn || p == Reclosed then Reclosed else Closing
  }

  function Next(s: Server, a: Action): Server
    requires Enabled(s, a) && Safe(s, a)
  {
    match a
    case NewConn => if s.status == Stopping then s else s.(pc := Checked)
    case Post =>
      var id := s.nextId + 1;
      s.(nextId := id, phases := s.phases[id := Attaching], pc := Posted(id))
    case Insert => s.(connections := s.connections + {s.pc.id}, pc := Idle)
    case Attach(id) => s.(phases := s.phases[id := Open])
    case CloseConn(id) => s.(phases := s.phases[id := Closing])
    case Tear(id) => s.(phases := s.phases[id := Torn], queue := s.queue + [Removal(id)])
    case RunRemoval => RemoveConnection(s.(queue := s.queue[1..]), s.queue[0].id)
    case StopHere => StopInLoop(Marked(s))
    case Look(id) =>
      if PhaseIs(s, id, Open) then s.(pc := CloseLoop(s.pc.todo, Some(id)))
      else s.(pc := CloseLoop(s.pc.todo - {id}, None))
    case CloseSeen =>
      var id := s.pc.seen.value;
      s.(phases := if id in s.phases then s.phases[id := AfterClose(s.phases[id])] else s.phases,
         pc := CloseLoop(s.pc.todo - {id}, None))
    case EndClosing => s.(pc := Idle, storedCallback := s.hasCallback)
    case StoreStatus => s.(status := Stopping, stopper := StatusStored)
    case StoreSubstatus => s.(substatus := StoppingListener, stopper := SubstatusStored)
    case QueueStop => s.(queue := s.queue + [StopFunctor], stopper := Called)
    case RunStop => StopInLoop(s.(queue := s.queue[1..]))
  }

  ghost predicate Path(s: Server, actions: seq<Action>)
    decreases |actions|
  {
    actions == [] || (Enabled(s, actions[0]) && Safe(s, actions[0]) && Path(Next(s, actions[0]), actions[1..]))
  }

  ghost function After(s: Server, actions: seq<Action>): Server
    requires Path(s, actions)
    decreases |actions|
  {
    if actions == [] then s else After(Next(s, actions[0]), actions[1..])
  }

  /** However the run goes on, no assertion fails. */
  ghost predicate Harmless(s: Server) {
    forall actions: seq<Action>, a: Action ::
      Path(s, actions) && Enabled(After(s, actions), a) ==> Safe(After(s, actions), a)
  }

  // ----- Invariant -----

  function Known(s: Server): set<nat> {
    s.connections + (if s.pc.Posted? then {s.pc.id} else {})
  }

  /** The removals queued are the torn connections still known, once each. */
  ghost predicate RemovalsInv(s: Server) {
    && NoRepeats(s.queue)
    && (forall id :: Removal(id) in s.queue <==> id in Known(s) && IsTorn(s, id))
    && (forall id :: id in s.phases ==> 1 <= id <= s.nextId && (id in Known(s) || IsTorn(s, id)))
    && (forall id :: id in Known(s) ==> id in s.phases)
  }

  predicate NoReclosed(s: Server) {
    forall id :: id in s.phases ==> s.phases[id] != Reclosed
  }

  /** With `Stop` called on the listening loop. */
  predicate StatusInv(s: Server) {
    && StopFunctor !in s.queue
    && match s.status
       case Running => s.listening && s.poolAlive && s.log == [] && !s.storedCallback && s.substatus == NoSubStatus
                       && s.stopper == NotCalled && !s.pc.CloseLoop? && NoReclosed(s)
       case Stopping => !s.listening && s.poolAlive && s.log == [] && s.connections != {} && s.stopper == Called
                        && s.substatus == StoppingListener
                        && (s.pc.CloseLoop? || (s.pc == Idle && s.storedCallback == s.hasCallback))
       case Stopped => !s.listening && !s.poolAlive && s.connections == {} && s.pc == Idle && s.stopper == Called
                       && s.log == [PoolStopped] + (if s.hasCallback then [DoneCalled] else []) + [StatusStopped]
  }

  predicate LoopInv(s: Server) {
    s.pc.CloseLoop? ==>
      && s.pc.todo <= s.connections
      && (s.pc.seen.Some? ==> s.pc.seen.value in s.pc.todo && !PhaseIs(s, s.pc.seen.value, Attaching))
  }

  ghost predicate Inv(s: Server) {
    RemovalsInv(s) && StatusInv(s) && LoopInv(s)
  }

  /** Not a step of a stop from another thread. */
  predicate OnLoop(a: Action) {
    !a.StoreStatus? && !a.StoreSubstatus? && !a.QueueStop?
  }

  /** A worker tears a connection down between the look at it and its close. */
  predicate Hits(s: Server, a: Action) {
    a.Tear? && s.pc.CloseLoop? && s.pc.seen == Some(a.id)
  }

  /** So far no connection was torn down between the two. */
  predicate Unhit(s: Server) {
    NoReclosed(s) && (s.pc.CloseLoop? && s.pc.seen.Some? ==> !IsTorn(s, s.pc.seen.value))
  }

  /** The step changes no queue of functors and no set of known connections, and tears
      nothing down or back up. */
  predicate KeepsRemovals(s: Server, t: Server) {
    && t.queue == s.queue && Known(t) == Known(s)
    && t.phases.Keys == s.phases.Keys && t.nextId == s.nextId
    && forall id :: id in s.phases ==> (IsTorn(s, id) <==> IsTorn(t, id))
  }

  lemma TearPreserved(s: Server, id: nat)
    requires RemovalsInv(s) && (PhaseIs(s, id, Open) || PhaseIs(s, id, Closing))
    ensures RemovalsInv(s.(phases := s.phases[id := Torn], queue := s.queue + [Removal(id)]))
  {
    assert Removal(id) !in s.queue && id in Known(s);
  }

  lemma RemovePreserved(s: Server, t: Server)
    requires RemovalsInv(s) && s.queue != [] && s.queue[0].Removal? && s.pc == Idle
    requires t.queue == s.queue[1..] && t.connections == s.connections - {s.queue[0].id} && t.pc == Idle
    requires t.phases == s.phases && t.nextId == s.nextId
    ensures RemovalsInv(t)
  {
    var r := s.queue[0];
    assert s.queue == [r] + t.queue;
    assert r in s.queue && r !in t.queue;
    assert Known(s) == s.connections && Known(t) == t.connections;
  }

  lemma PostPreserved(s: Server)
    requires RemovalsInv(s) && s.pc == Checked && s.status == Running
    ensures RemovalsInv(Next(s, Post))
  {
    assert s.nextId + 1 !in s.phases && s.nextId + 1 !in Known(s);
  }

  lemma KeptPreserved(s: Server, t: Server)
    requires RemovalsInv(s) && KeepsRemovals(s, t)
    ensures RemovalsInv(t)
  {
  }

  predicate NoRepeats(queue: seq<Functor>) {
    forall i, j :: 0 <= i < j < |queue| ==> queue[i] != queue[j]
  }

  predicate SameRemovals(p: seq<Functor>, q: seq<Functor>) {
    (forall f :: f in p && f.Removal? ==> f in q) && (forall f :: f in q && f.Removal? ==> f in p)
  }

  lemma StopTaken(queue: seq<Functor>)
    requires queue != [] && queue[0] == StopFunctor && NoRepeats(queue)
    ensures NoRepeats(queue[1..]) && SameRemovals(queue, queue[1..])
  {
    assert queue == [StopFunctor] + queue[1..];
  }

  lemma StopAdded(queue: seq<Functor>)
    requires StopFunctor !in queue && NoRepeats(queue)
    ensures NoRepeats(queue + [StopFunctor]) && SameRemovals(queue, queue + [StopFunctor])
  {
  }

  lemma QueuePreserved(s: Server, t: Server)
    requires RemovalsInv(s) && NoRepeats(t.queue) && SameRemovals(s.queue, t.queue)
    requires Known(t) == Known(s) && t.phases == s.phases && t.nextId == s.nextId
    ensures RemovalsInv(t)
  {
    forall id ensures Removal(id) in t.queue <==> Removal(id) in s.queue {
    }
  }

  /** Queueing or taking off the stop functor, and what follows. */
  lemma FunctorPreserved(s: Server, a: Action)
    requires RemovalsInv(s) && Enabled(s, a) && Safe(s, a)
    requires a.RunStop? || (a.QueueStop? && StopFunctor !in s.queue)
    ensures RemovalsInv(Next(s, a))
  {
    if a.RunStop? {
      StopTaken(s.queue);
    } else {
      StopAdded(s.queue);
    }
    QueuePreserved(s, Next(s, a));
  }

  lemma OtherSteps(s: Server, a: Action)
    requires Enabled(s, a) && Safe(s, a)
    requires !a.Tear? && !a.RunRemoval? && !a.Post? && !a.RunStop? && !a.QueueStop?
    ensures KeepsRemovals(s, Next(s, a))
  {
  }

  lemma RemovalsPreserved(s: Server, a: Action)
    requires RemovalsInv(s) && Enabled(s, a) && Safe(s, a) && (a.QueueStop? ==> StopFunctor !in s.queue)
    ensures RemovalsInv(Next(s, a))
  {
    match a
    case Tear(id) => TearPreserved(s, id);
    case RunRemoval => RemovePreserved(s, Next(s, a));
    case Post => PostPreserved(s);
    case RunStop => FunctorPreserved(s, a);
    case QueueStop => FunctorPreserved(s, a);
    case _ =>
      OtherSteps(s, a);
      KeptPreserved(s, Next(s, a));
  }

  lemma HeadIsQueued(s: Server)
    requires RemovalsInv(s) && s.queue != [] && s.queue[0].Removal?
    ensures s.queue[0].id in Known(s) && IsTorn(s, s.queue[0].id)
  {
    assert s.queue[0] in s.queue && s.queue[0] == Removal(s.queue[0].id);
  }

  lemma NoStopQueued(s: Server)
    requires StopFunctor !in s.queue
    ensures !Enabled(s, RunStop)
  {
    assert s.queue != [] ==> s.queue[0] in s.queue;
  }

  /** The one assertion that can fail is that of a second teardown. */
  lemma OnlySecondTeardownFails(s: Server, a: Action)
    requires Inv(s) && Enabled(s, a) && OnLoop(a)
    ensures Safe(s, a) || (a.Tear? && PhaseIs(s, a.id, Reclosed))
  {
    NoStopQueued(s);
  }

  lemma StepPreserves(s: Server, a: Action)
    requires Inv(s) && Enabled(s, a) && OnLoop(a) && Safe(s, a)
    ensures Inv(Next(s, a))
    ensures Unhit(s) && !Hits(s, a) ==> Unhit(Next(s, a))
    ensures s.status != Running ==> Next(s, a).status != Running && Next(s, a).connections <= s.connections
                                    && Next(s, a).nextId == s.nextId
  {
    NoStopQueued(s);
    RemovalsPreserved(s, a);
    StatusPreserved(s, a);
    LoopPreserved(s, a);
  }

  lemma StatusPreserved(s: Server, a: Action)
    requires Inv(s) && Enabled(s, a) && OnLoop(a) && Safe(s, a) && !a.RunStop?
    ensures StatusInv(Next(s, a))
  {
    var q := s.queue;
    assert forall f :: f in q[if q == [] then 0 else 1..] ==> f in q;
  }

  lemma LoopPreserved(s: Server, a: Action)
    requires Inv(s) && Enabled(s, a) && OnLoop(a) && Safe(s, a) && !a.RunStop?
    ensures LoopInv(Next(s, a))
    ensures Unhit(s) && !Hits(s, a) ==> Unhit(Next(s, a))
  {
  }

  // ----- Runs with `Stop` on the listening loop -----

  ghost predicate AllOnLoop(actions: seq<Action>) {
    forall i :: 0 <= i < |actions| ==> OnLoop(actions[i])
  }

  /** No worker tears a connection down between the stop's look at it and its close. */
  ghost predicate Undisturbed(s: Server, actions: seq<Action>)
    requires Path(s, actions)
    decreases |actions|
  {
    actions == [] || (!Hits(s, actions[0]) && Undisturbed(Next(s, actions[0]), actions[1..]))
  }

  lemma {:induction false} RunPreserves(s: Server, actions: seq<Action>)
    requires Inv(s) && Path(s, actions) && AllOnLoop(actions)
    ensures Inv(After(s, actions))
    ensures Unhit(s) && Undisturbed(s, actions) ==> Unhit(After(s, actions))
    ensures s.status != Running ==>
              var t := After(s, actions); t.status != Running && t.connections <= s.connections && t.nextId == s.nextId
    decreases |actions|
  {
    if actions != [] {
      StepPreserves(s, actions[0]);
      assert AllOnLoop(actions[1..]);
      RunPreserves(Next(s, actions[0]), actions[1..]);
    }
  }

  /** Shutdown safety, for every run in which `Stop` is called on the listening loop. The
      only assertion that can fail next is that of a second teardown, and it cannot in a run
      where no connection was torn down between the stop's look at it and its close. Every
      queued removal refers to a torn connection that is still known; the pool is stopped
      only when no connection is left; the done callback is made at most once, after the pool
      has stopped and before the server says it is stopped. */
  lemma ShutdownSafety(hasCallback: bool, actions: seq<Action>, a: Action)
    requires Path(Init(hasCallback), actions) && AllOnLoop(actions)
    ensures var s := After(Init(hasCallback), actions);
            && (Enabled(s, a) && OnLoop(a) ==> Safe(s, a) || (a.Tear? && PhaseIs(s, a.id, Reclosed)))
            && (Enabled(s, a) && OnLoop(a) && Undisturbed(Init(hasCallback), actions) ==> Safe(s, a))
            && (forall id :: Removal(id) in s.queue ==> id in Known(s) && IsTorn(s, id))
            && (!s.poolAlive ==> Known(s) == {})
            && (s.log == [] || s.log == [PoolStopped] + (if s.hasCallback then [DoneCalled] else []) + [StatusStopped])
            && (s.status == Stopped <==> s.log != [])
  {
    RunPreserves(Init(hasCallback), actions);
    var s := After(Init(hasCallback), actions);
    if Enabled(s, a) && OnLoop(a) {
      OnlySecondTeardownFails(s, a);
    }
  }

  /** Once stopping, no connection is accepted or recorded any more. */
  lemma NoConnectionAfterStop(s: Server, actions: seq<Action>)
    requires Inv(s) && s.status != Running && Path(s, actions) && AllOnLoop(actions)
    ensures After(s, actions).connections <= s.connections && After(s, actions).nextId == s.nextId
  {
    RunPreserves(s, actions);
  }

  /** A running server takes a new connection: three steps of the listening loop make it, post
      it to be attached, and record it. */
  lemma AcceptGoesThrough(s: Server)
    requires s.status == Running && s.listening && s.pc == Idle
    ensures var actions := [NewConn] + ([Post] + ([Insert] + []));
            Path(s, actions) && After(s, actions) == WithConnection(s, s.nextId + 1)
  {
    var t := s.(pc := Checked);
    var u := PostedConnection(s, s.nextId + 1);
    AcceptSteps(s);
    PathCons(u, Insert, []);
    PathCons(t, Post, [Insert] + []);
    PathCons(s, NewConn, [Post] + ([Insert] + []));
  }

  function PostedConnection(s: Server, id: nat): Server {
    s.(nextId := id, phases := s.phases[id := Attaching], pc := Posted(id))
  }

  lemma AcceptSteps(s: Server)
    requires s.status == Running && s.listening && s.pc == Idle
    ensures Enabled(s, NewConn) && Safe(s, NewConn) && Next(s, NewConn) == s.(pc := Checked)
    ensures var t, u := s.(pc := Checked), PostedConnection(s, s.nextId + 1);
            && Enabled(t, Post) && Safe(t, Post) && Next(t, Post) == u
            && Enabled(u, Insert) && Safe(u, Insert) && Next(u, Insert) == WithConnection(s, s.nextId + 1)
  {
  }

  /** The server with one more connection, known and about to be attached. */
  function WithConnection(s: Server, id: nat): Server {
    s.(nextId := id, connections := s.connections + {id}, phases := s.phases[id := Attaching])
  }

  /** Of the known connections, only those the stop has yet to look at or close may be open. */
  predicate OpenIsAhead(s: Server) {
    forall id :: id in s.connections && PhaseIs(s, id, Open) ==> s.pc.CloseLoop? && id in s.pc.todo
  }

  ghost predicate NoneAttaches(actions: seq<Action>) {
    forall i :: 0 <= i < |actions| ==> !actions[i].Attach?
  }

  lemma OpenIsAheadStep(s: Server, a: Action)
    requires Inv(s) && s.status != Running && OpenIsAhead(s)
    requires Enabled(s, a) && Safe(s, a) && OnLoop(a) && !a.Attach?
    ensures OpenIsAhead(Next(s, a))
  {
    NoStopQueued(s);
  }

  lemma {:induction false} StayAhead(s: Server, actions: seq<Action>)
    requires Inv(s) && s.status != Running && OpenIsAhead(s)
    requires Path(s, actions) && AllOnLoop(actions) && NoneAttaches(actions)
    ensures Inv(After(s, actions)) && OpenIsAhead(After(s, actions))
    decreases |actions|
  {
    if actions != [] {
      var a := actions[0];
      assert OnLoop(a) && !a.Attach?;
      OpenIsAheadStep(s, a);
      StepPreserves(s, a);
      StayAhead(Next(s, a), actions[1..]);
    }
  }

  /** A stop closes every connection: from the stop on, as long as none is attached, an open
      connection that is known is one the stop still has to close, so none is left once the
      listening loop is idle again. */
  lemma StopClosesAll(s: Server, actions: seq<Action>)
    requires Inv(s) && Enabled(s, StopHere) && Safe(s, StopHere)
    requires Path(Next(s, StopHere), actions) && AllOnLoop(actions) && NoneAttaches(actions)
    ensures var t := After(Next(s, StopHere), actions);
            t.pc == Idle ==> forall id :: id in t.connections ==> !PhaseIs(t, id, Open)
  {
    StepPreserves(s, StopHere);
    StayAhead(Next(s, StopHere), actions);
  }

  /** A stopping server whose last connection is removed stops. */
  lemma LastRemovalStops(s: Server)
    requires Inv(s) && s.status == Stopping && Enabled(s, RunRemoval) && s.connections == {s.queue[0].id}
    ensures Safe(s, RunRemoval) && Next(s, RunRemoval).status == Stopped && !Next(s, RunRemoval).poolAlive
  {
  }

  // ----- When a stop on the listening loop is harmless -----

  /** Nothing known is attaching or open, so the stop finds nothing to close. */
  predicate NothingOpen(s: Server) {
    forall id :: id in s.connections ==> PhaseIs(s, id, Closing) || PhaseIs(s, id, Torn)
  }

  ghost predicate Settled(s: Server) {
    Inv(s) && s.status != Running && NothingOpen(s) && NoReclosed(s) && (s.pc.CloseLoop? ==> s.pc.seen == None)
  }

  lemma SettledStep(s: Server, a: Action)
    requires Settled(s) && Enabled(s, a)
    ensures Safe(s, a) && Settled(Next(s, a))
  {
    OnlySecondTeardownFails(s, a);
    StepPreserves(s, a);
    if a.RunRemoval? {
      HeadIsQueued(s);
    }
  }

  lemma {:induction false} SettledRun(s: Server, actions: seq<Action>)
    requires Settled(s) && Path(s, actions)
    ensures Settled(After(s, actions))
    decreases |actions|
  {
    if actions != [] {
      SettledStep(s, actions[0]);
      SettledRun(Next(s, actions[0]), actions[1..]);
    }
  }

  lemma SettledIsHarmless(s: Server)
    requires Settled(s)
    ensures Harmless(s)
  {
    forall actions: seq<Action>, a: Action | Path(s, actions) && Enabled(After(s, actions), a)
      ensures Safe(After(s, actions), a)
    {
      SettledRun(s, actions);
      SettledStep(After(s, actions), a);
    }
  }

  lemma PathCons(s: Server, a: Action, actions: seq<Action>)
    requires Enabled(s, a) && Safe(s, a) && Path(Next(s, a), actions)
    ensures Path(s, [a] + actions) && After(s, [a] + actions) == After(Next(s, a), actions)
  {
    assert ([a] + actions)[1..] == actions;
  }

  lemma HarmlessStep(s: Server, a: Action)
    requires Harmless(s) && Enabled(s, a)
    ensures Safe(s, a) && Harmless(Next(s, a))
  {
    assert Path(s, []) && After(s, []) == s;
    assert Safe(s, a);
    forall actions: seq<Action>, b: Action | Path(Next(s, a), actions) && Enabled(After(Next(s, a), actions), b)
      ensures Safe(After(Next(s, a), actions), b)
    {
      PathCons(s, a, actions);
    }
  }

  /** The run that fails: the stop sees the connection open, its worker tears it down, the
      stop closes it again, and the worker runs that close. */
  lemma SeenThenTornFails(s: Server, id: nat)
    requires s.pc.CloseLoop? && s.pc.seen == None && id in s.pc.todo && PhaseIs(s, id, Open)
    ensures !Harmless(s)
  {
    if Harmless(s) {
      HarmlessStep(s, Look(id));
      var t := Next(s, Look(id));
      HarmlessStep(t, Tear(id));
      var u := Next(t, Tear(id));
      HarmlessStep(u, CloseSeen);
      HarmlessStep(Next(u, CloseSeen), Tear(id));
    }
  }

  /** The exact condition: a stop on the listening loop can never run into an assertion if
      and only if no known connection is attaching or open when it is called. */
  lemma StopHereIff(s: Server)
    requires Inv(s) && Enabled(s, StopHere)
    ensures Safe(s, StopHere) && (Harmless(Next(s, StopHere)) <==> NothingOpen(s))
  {
    var t := Next(s, StopHere);
    StepPreserves(s, StopHere);
    if NothingOpen(s) {
      SettledIsHarmless(t);
    } else {
      var id :| id in s.connections && !PhaseIs(s, id, Closing) && !PhaseIs(s, id, Torn);
      assert id in Known(s);
      if PhaseIs(s, id, Attaching) {
        if Harmless(t) {
          HarmlessStep(t, Attach(id));
          SeenThenTornFails(Next(t, Attach(id)), id);
        }
      } else {
        SeenThenTornFails(t, id);
      }
    }
  }

  // ----- Stop from another thread -----

  /** Without a known connection and past no check, the stop goes through undisturbed. */
  predicate Quiet(s: Server) {
    && Known(s) == {} && s.pc == Idle && (forall id :: id in s.phases ==> s.phases[id] == Torn)
    && match s.stopper
       case NotCalled => false
       case StatusStored => s.queue == [] && s.status == Stopping && s.poolAlive && s.listening
       case SubstatusStored => s.queue == [] && s.status == Stopping && s.poolAlive && s.listening
       case Called =>
         || (s.queue == [StopFunctor] && s.status == Stopping && s.poolAlive && s.listening)
         || (s.queue == [] && s.status == Stopped && !s.listening)
  }

  lemma QuietStep(s: Server, a: Action)
    requires Quiet(s) && Enabled(s, a)
    ensures Safe(s, a) && Quiet(Next(s, a))
  {
  }

  lemma {:induction false} QuietRun(s: Server, actions: seq<Action>)
    requires Quiet(s) && Path(s, actions)
    ensures Quiet(After(s, actions))
    decreases |actions|
  {
    if actions != [] {
      QuietStep(s, actions[0]);
      QuietRun(Next(s, actions[0]), actions[1..]);
    }
  }

  lemma QuietIsHarmless(s: Server)
    requires Quiet(s)
    ensures Harmless(s)
  {
    forall actions: seq<Action>, a: Action | Path(s, actions) && Enabled(After(s, actions), a)
      ensures Safe(After(s, actions), a)
    {
      QuietRun(s, actions);
      QuietStep(After(s, actions), a);
    }
  }

  /** Stopping, with nothing left but connections that go away. */
  ghost predicate Emptying(s: Server) {
    && RemovalsInv(s) && s.status == Stopping && s.poolAlive && s.pc == Idle && NoReclosed(s)
    && StopFunctor !in s.queue
  }

  /** Marked as stopping by another thread, the stop itself not queued yet. */
  ghost predicate OffLoop(s: Server) {
    Emptying(s) && (s.stopper == StatusStored || s.stopper == SubstatusStored)
  }

  /** The call of `Stop` has got no further. */
  predicate SameCall(s: Server, t: Server) {
    t.stopper == s.stopper && t.substatus == s.substatus && t.hasCallback == s.hasCallback
  }

  predicate LastIsNext(s: Server) {
    Enabled(s, RunRemoval) && s.connections == {s.queue[0].id}
  }

  function Rank(s: Server, id: nat): nat {
    if s.queue != [] then 0 else if PhaseIs(s, id, Attaching) then 2 else 1
  }

  /** The next step that brings connection `id`, or another one, closer to removal. */
  function LeavingStep(s: Server, id: nat): Action {
    if s.queue != [] then RunRemoval else if PhaseIs(s, id, Attaching) then Attach(id) else Tear(id)
  }

  lemma RemovalStepWorks(s: Server)
    requires Emptying(s) && s.connections != {} && s.queue != [] && !LastIsNext(s)
    ensures Enabled(s, RunRemoval) && Safe(s, RunRemoval) && s.queue[0].id in s.connections
    ensures var t := Next(s, RunRemoval);
            && Emptying(t) && SameCall(s, t) && t.connections != {}
            && t.connections == s.connections - {s.queue[0].id}
  {
    QueuedAreKnown(s);
    assert forall f :: f in s.queue[1..] ==> f in s.queue;
    var r := s.queue[0].id;
    assert s.connections - {r} == {} ==> s.connections <= {r};
    RemovalsPreserved(s, RunRemoval);
  }

  lemma LeavingStepWorks(s: Server, id: nat)
    requires Emptying(s) && id in s.connections && !LastIsNext(s)
    ensures var a := LeavingStep(s, id); Enabled(s, a) && Safe(s, a)
    ensures var t := Next(s, LeavingStep(s, id));
            && Emptying(t) && SameCall(s, t) && t.connections != {}
            && (if s.queue != [] then s.queue[0].id in s.connections && t.connections == s.connections - {s.queue[0].id}
                else t.connections == s.connections && Rank(t, id) < Rank(s, id))
  {
    if s.queue != [] {
      RemovalStepWorks(s);
    } else {
      assert id in Known(s) && !IsTorn(s, id);
      RemovalsPreserved(s, LeavingStep(s, id));
    }
  }

  ghost function Pick(ids: set<nat>): (id: nat)
    requires ids != {}
    ensures id in ids
  {
    var id :| id in ids; id
  }

  lemma OnLoopCons(a: Action, actions: seq<Action>)
    requires OnLoop(a) && AllOnLoop(actions)
    ensures AllOnLoop([a] + actions)
  {
  }

  /** Every connection of a stopping server can go away, up to the last removal. */
  lemma {:induction false} AllLeaveFirst(s: Server, id: nat) returns (actions: seq<Action>)
    requires Emptying(s) && id in s.connections
    ensures Path(s, actions)
    ensures var t := After(s, actions);
            Emptying(t) && LastIsNext(t) && SameCall(s, t)
    ensures AllOnLoop(actions)
    decreases |s.connections|, Rank(s, id)
  {
    if LastIsNext(s) {
      return [];
    }
    var a := LeavingStep(s, id);
    LeavingStepWorks(s, id);
    var t := Next(s, a);
    var rest := AllLeaveFirst(t, if id in t.connections then id else Pick(t.connections));
    PathCons(s, a, rest);
    OnLoopCons(a, rest);
    actions := [a] + rest;
  }

  lemma HarmlessRun(s: Server, actions: seq<Action>, a: Action)
    requires Harmless(s) && Path(s, actions) && Enabled(After(s, actions), a)
    ensures Safe(After(s, actions), a)
  {
  }

  /** With the status stored and the sub-status not, the last removal fails its assertion. */
  lemma EarlyRemovalFails(s: Server, id: nat)
    requires OffLoop(s) && s.substatus != StoppingListener && id in s.connections
    ensures !Harmless(s)
  {
    if Harmless(s) {
      var actions := AllLeaveFirst(s, id);
      HarmlessRun(s, actions, RunRemoval);
    }
  }

  /** With both stored, the last removal finishes the shutdown, and the stop queued after it
      meets a stopped server. */
  lemma StoppedBeforeStop(s: Server, id: nat) returns (actions: seq<Action>)
    requires OffLoop(s) && s.stopper == SubstatusStored && s.substatus == StoppingListener && id in s.connections
    ensures Path(s, actions)
    ensures var t := After(s, actions); t.status == Stopped && Enabled(t, QueueStop) && t.queue == []
    ensures var t := Next(After(s, actions), QueueStop); Enabled(t, RunStop) && !Safe(t, RunStop)
  {
    actions := AllLeaveFirst(s, id);
    var t := After(s, actions);
    OnlyRemoval(t);
    PathSnoc(s, actions, RunRemoval);
    actions := actions + [RunRemoval];
  }

  /** The queue holds one removal for each torn connection that is known. */
  lemma OnlyRemoval(s: Server)
    requires RemovalsInv(s) && StopFunctor !in s.queue && LastIsNext(s)
    ensures s.queue == [s.queue[0]]
  {
    QueuedAreKnown(s);
  }

  lemma QueuedAreKnown(s: Server)
    requires RemovalsInv(s) && StopFunctor !in s.queue
    ensures forall i :: 0 <= i < |s.queue| ==> s.queue[i].Removal? && s.queue[i].id in Known(s)
    ensures s.queue != [] ==> s.queue[0].Removal? && s.queue[0].id in Known(s)
    ensures |s.queue| > 1 ==> s.queue[0] != s.queue[1] && s.queue[0].id != s.queue[1].id
  {
    forall i | 0 <= i < |s.queue| ensures s.queue[i].Removal? && s.queue[i].id in Known(s) {
      assert s.queue[i] in s.queue;
      assert s.queue[i] == Removal(s.queue[i].id);
    }
  }

  lemma {:induction false} PathSnoc(s: Server, actions: seq<Action>, a: Action)
    requires Path(s, actions) && Enabled(After(s, actions), a) && Safe(After(s, actions), a)
    ensures Path(s, actions + [a]) && After(s, actions + [a]) == Next(After(s, actions), a)
    decreases |actions|
  {
    if actions == [] {
      assert [] + [a] == [a] && [a][1..] == [];
      assert Path(Next(s, a), []) && Path(s, [a]);
    } else {
      PathSnoc(Next(s, actions[0]), actions[1..], a);
      assert (actions + [a])[1..] == actions[1..] + [a];
    }
  }

  /** The exact condition: a stop from another thread can never run into an assertion if and
      only if, at the moment it stores the status, no connection is known and the listening
      loop is not between checking the status and making a connection. */
  lemma OffLoopStopIff(s: Server)
    requires Inv(s) && Enabled(s, StoreStatus)
    ensures Harmless(Next(s, StoreStatus)) <==> Known(s) == {} && s.pc != Checked
  {
    var m := Next(s, StoreStatus);
    RemovalsPreserved(s, StoreStatus);
    if s.pc == Checked {
      if Harmless(m) {
        HarmlessStep(m, Post);
      }
    } else if Known(s) == {} {
      NoRemovals(s);
      QuietIsHarmless(m);
    } else if s.pc.Posted? {
      if Harmless(m) {
        HarmlessStep(m, Insert);
        RemovalsPreserved(m, Insert);
        EarlyRemovalFails(Next(m, Insert), s.pc.id);
      }
    } else {
      EarlyRemovalFails(m, Pick(s.connections));
    }
  }

  lemma NoRemovals(s: Server)
    requires RemovalsInv(s) && StopFunctor !in s.queue && Known(s) == {}
    ensures s.queue == []
  {
    QueuedAreKnown(s);
  }

  /** A shutdown can always complete: from every state in which the stop has closed what was
      open and no connection was closed twice, some run ends with the pool stopped, the
      callback made if there is one, and the server stopped. */
  lemma ShutdownCompletes(s: Server) returns (actions: seq<Action>)
    requires Inv(s) && s.status == Stopping && s.pc == Idle && NoReclosed(s)
    ensures Path(s, actions)
    ensures var t := After(s, actions);
            && t.status == Stopped && !t.poolAlive && t.connections == {}
            && t.log == [PoolStopped] + (if t.hasCallback then [DoneCalled] else []) + [StatusStopped]
            && t.hasCallback == s.hasCallback
  {
    actions := AllLeaveFirst(s, Pick(s.connections));
    RunPreserves(s, actions);
    PathSnoc(s, actions, RunRemoval);
    LastRemovalStops(After(s, actions));
    StepPreserves(After(s, actions), RunRemoval);
    actions := actions + [RunRemoval];
  }
}
