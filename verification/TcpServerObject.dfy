/** The server object; its methods are the handlers that run on the listening loop. Each
    access to what another thread may change is one step of TcpServer, so a handler is a path
    of such steps; what it comes to is stated for the case that no other thread steps in
    between. */
module TcpServerObject {
  import opened Wrappers
  import opened TcpServer

  ghost predicate Reaches(s: Server, t: Server) {
    exists actions :: Path(s, actions) && After(s, actions) == t
  }

  lemma ReachesSelf(s: Server)
    ensures Reaches(s, s)
  {
    assert Path(s, []) && After(s, []) == s;
  }

  lemma ReachesStep(s: Server, t: Server, a: Action)
    requires Reaches(s, t) && Enabled(t, a) && Safe(t, a)
    ensures Reaches(s, Next(t, a))
  {
    var actions :| Path(s, actions) && After(s, actions) == t;
    PathSnoc(s, actions, a);
  }

  /** Reached by steps of the program, with the invariant kept. */
  ghost predicate OnCourse(s: Server, t: Server) {
    Reaches(s, t) && Inv(t)
  }

  lemma Advance(s: Server, t: Server, a: Action)
    requires OnCourse(s, t) && Enabled(t, a) && Safe(t, a) && OnLoop(a)
    ensures OnCourse(s, Next(t, a))
  {
    ReachesStep(s, t, a);
    StepPreserves(t, a);
  }

  /** After a look at the connection and, if it was open, its close. */
  function Visited(t: Server, id: nat): Server
    requires t.pc.CloseLoop? && id in t.phases
  {
    t.(phases := if t.phases[id] == Open then t.phases[id := Closing] else t.phases,
       pc := CloseLoop(t.pc.todo - {id}, None))
  }

  lemma VisitReached(s: Server, t: Server, id: nat)
    requires OnCourse(s, t) && t.pc.CloseLoop? && t.pc.seen == None && id in t.pc.todo && id in t.phases
    ensures OnCourse(s, Visited(t, id))
  {
    Advance(s, t, Look(id));
    if t.phases[id] == Open {
      var u := Next(t, Look(id));
      Advance(s, u, CloseSeen);
      assert Next(u, CloseSeen) == Visited(t, id);
    } else {
      assert Next(t, Look(id)) == Visited(t, id);
    }
  }

  /** The phases after the connections found open were closed. */
  function CloseOpen(phases: map<nat, Phase>, ids: set<nat>): map<nat, Phase> {
    map id | id in phases :: if id in ids && phases[id] == Open then Closing else phases[id]
  }

  lemma CloseOpenNext(phases: map<nat, Phase>, done: set<nat>, id: nat)
    requires id in phases && id !in done
    ensures var p := CloseOpen(phases, done);
            CloseOpen(phases, done + {id}) == if p[id] == Open then p[id := Closing] else p
  {
  }

  /** The fields of the server, with its connections' states on their workers in `phases` and
      the functors queued on its own loop in `queue`. */
  class TCPServer {
    const hasCallback: bool
    var status: Status
    var substatus: SubStatus
    var listening: bool
    var connections: set<nat>
    var phases: map<nat, Phase>
    var queue: seq<Functor>
    var storedCallback: bool
    var poolAlive: bool
    var nextId: nat
    var log: seq<Event>
    ghost var pc: Pc
    ghost var stopper: Stopper

    ghost function View(): Server
      reads this
    {
      Server(hasCallback, status, substatus, listening, connections, phases, queue, pc, stopper,
             storedCallback, poolAlive, nextId, log)
    }

    constructor (hasCallback: bool)
      ensures View() == Init(hasCallback) && Inv(View())
    {
      this.hasCallback := hasCallback;
      status, substatus, listening := Running, NoSubStatus, true;
      connections, phases, queue, pc, stopper := {}, map[], [], Idle, NotCalled;
      storedCallback, poolAlive, nextId, log := false, true, 0, [];
    }

    // ----- Connections -----

    /** Checks the status, posts the new connection to its worker, then records it. While
        stopping, the socket is closed and forgotten. */
    method HandleNewConn()
      requires Enabled(View(), NewConn) && (status == Running || status == Stopping)
      modifies this
      ensures Reaches(old(View()), View())
      ensures old(status) == Stopping ==> View() == old(View())
      ensures old(status) == Running ==>
                && nextId == old(nextId) + 1 && connections == old(connections) + {nextId}
                && phases == old(phases)[nextId := Attaching] && queue == old(queue) && pc == Idle
    {
      ghost var s := View();
      ReachesSelf(s);
      ReachesStep(s, s, NewConn);
      if status == Stopping {
        return;
      }
      pc := Checked;
      PostConnection(s);
      RecordConnection(s, nextId);
    }

    /** Asserts that the server runs; the worker may attach the connection from then on. */
    method PostConnection(ghost s: Server)
      requires Reaches(s, View()) && pc == Checked && status == Running
      modifies this`nextId, this`phases, this`pc
      ensures Reaches(s, View()) && View() == Next(old(View()), Post)
    {
      ReachesStep(s, View(), Post);
      nextId := nextId + 1;
      phases := phases[nextId := Attaching];
      pc := Posted(nextId);
    }

    method RecordConnection(ghost s: Server, id: nat)
      requires Reaches(s, View()) && pc == Posted(id)
      modifies this`connections, this`pc
      ensures Reaches(s, View()) && View() == Next(old(View()), Insert)
    {
      ReachesStep(s, View(), Insert);
      connections := connections + {id};
      pc := Idle;
    }

    /** Runs the first removal functor queued: forgets the connection, and after the last
        one of a stopping server stops the workers. */
    method RemoveConnectionInLoop()
      requires Inv(View()) && Enabled(View(), RunRemoval)
      modifies this
      ensures Inv(View()) && View() == Next(old(View()), RunRemoval)
    {
      OnlySecondTeardownFails(View(), RunRemoval);
      StepPreserves(View(), RunRemoval);
      connections := connections - {queue[0].id};
      queue := queue[1..];
      if status == Stopping && connections == {} {
        assert substatus == StoppingListener;
        FinishStop(storedCallback);
      }
    }

    // ----- Stopping -----

    /** `Stop` called on the listening loop. Left alone it closes exactly the connections that
        are open, or finishes at once when there are none. */
    method Stop()
      requires Inv(View()) && Enabled(View(), StopHere)
      modifies this
      ensures Reaches(old(View()), View()) && Inv(View()) && connections == old(connections) && queue == old(queue)
      ensures phases == CloseOpen(old(phases), connections)
      ensures status == (if connections == {} then Stopped else Stopping) && !listening && pc == Idle
      ensures connections != {} ==> poolAlive && log == [] && storedCallback == hasCallback
    {
      ghost var s := View();
      ReachesSelf(s);
      OnlySecondTeardownFails(s, StopHere);
      StepPreserves(s, StopHere);
      ReachesStep(s, s, StopHere);
      KnownPhases(s);
      status := Stopping;
      substatus := StoppingListener;
      stopper := Called;
      RunStopInLoop(s);
    }

    method RunStopInLoop(ghost s: Server)
      requires StopSafe(View()) && OnCourse(s, StopInLoop(View()))
      requires pc == Idle && !storedCallback && connections <= phases.Keys
      modifies this
      ensures OnCourse(s, View())
      ensures connections == old(connections) && queue == old(queue) && phases == CloseOpen(old(phases), connections)
      ensures connections == {} ==> View() == StopInLoop(old(View()))
      ensures connections != {} ==>
                View() == old(View()).(listening := false, phases := phases, storedCallback := hasCallback)
    {
      listening := false;
      if connections == {} {
        FinishStop(hasCallback);
        assert phases == CloseOpen(phases, {});
      } else {
        pc := CloseLoop(connections, None);
        CloseAndWait(s);
      }
    }

    /** Closes what is open; the last removal will stop the workers. */
    method CloseAndWait(ghost s: Server)
      requires OnCourse(s, View()) && pc == CloseLoop(connections, None) && connections <= phases.Keys
      modifies this`phases, this`pc, this`storedCallback
      ensures OnCourse(s, View()) && pc == Idle && storedCallback == hasCallback
      ensures phases == CloseOpen(old(phases), connections)
    {
      CloseConnections(s);
      Advance(s, View(), EndClosing);
      storedCallback := hasCallback;
      pc := Idle;
    }

    /** Looks at each connection in turn and closes it if it is open; the others are on their
        way in or out. */
    method CloseConnections(ghost s: Server)
      requires OnCourse(s, View()) && pc == CloseLoop(connections, None) && connections <= phases.Keys
      modifies this`phases, this`pc
      ensures OnCourse(s, View()) && pc == CloseLoop({}, None)
      ensures phases == CloseOpen(old(phases), connections)
    {
      var todo := connections;
      ghost var done: set<nat> := {};
      assert phases == CloseOpen(phases, done);
      while todo != {}
        invariant done + todo == connections <= phases.Keys && done !! todo && pc == CloseLoop(todo, None)
        invariant OnCourse(s, View())
        invariant phases == CloseOpen(old(phases), done)
        decreases todo
      {
        var id :| id in todo;
        CloseOpenNext(old(phases), done, id);
        VisitConnection(s, id, todo);
        done, todo := done + {id}, todo - {id};
      }
    }

    method VisitConnection(ghost s: Server, id: nat, ghost todo: set<nat>)
      requires OnCourse(s, View()) && pc == CloseLoop(todo, None) && id in todo && id in phases
      modifies this`phases, this`pc
      ensures OnCourse(s, View()) && View() == Visited(old(View()), id)
    {
      VisitReached(s, View(), id);
      if phases[id] == Open {
        phases := phases[id := Closing];
      }
      pc := CloseLoop(todo - {id}, None);
    }

    /** Stops the workers, then makes the callback, then says that the server is stopped. */
    method FinishStop(callback: bool)
      requires CanStopPool(View())
      modifies this`substatus, this`poolAlive, this`log, this`storedCallback, this`status
      ensures View() == Finish(old(View()), callback)
    {
      StopThreadPool();
      if callback {
        log := log + [DoneCalled];
      }
      storedCallback := false;
      log := log + [StatusStopped];
      status := Stopped;
    }

    /** Waits for the workers and lets go of them. */
    method StopThreadPool()
      requires CanStopPool(View())
      modifies this`substatus, this`poolAlive, this`log
      ensures !poolAlive && substatus == NoSubStatus && log == old(log) + [PoolStopped]
    {
      substatus := StoppingThreadPool;
      log := log + [PoolStopped];
      poolAlive := false;
      substatus := NoSubStatus;
    }
  }

  lemma KnownPhases(s: Server)
    requires Inv(s)
    ensures s.connections <= s.phases.Keys
  {
    assert forall id :: id in s.connections ==> id in Known(s);
  }
}
