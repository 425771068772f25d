/** The task queue of an event loop and the protocol that wakes the loop up.

    Any number of threads call `QueueInLoop`; one loop thread polls, receives wake-up
    bytes and runs `DoPendingFunctors`. Every shared access is one atomic step, so the
    theorems are about all interleavings. A functor that stops the loop drains the queue
    from inside the batch it belongs to, so the loop thread carries a stack of activations. */
module EventLoop {
  import opened Wrappers

  datatype Task = Task(id: nat, stop: bool)

  /** Where a producer is inside `QueueInLoop`. The last point exists only when the wake-up
      byte is sent before the flag is set. */
  datatype Pc = Idle | Pushed | Counted | SawUnset | FlagSet | Sent

  /** An activation on the loop thread: `DoPendingFunctors` before its lock, inside it with
      the flag cleared, or running its batch; or `StopInLoop` in its first or second drain, or
      between them, about to ask the loop to exit. */
  datatype Frame =
    | Entered
    | Cleared
    | Draining(rest: seq<Task>, running: Option<Task>)
    | Stopping(second: bool)
    | Exiting

  /** The order of the last two steps of `QueueInLoop`. */
  datatype Order = FlagFirst | NotifyFirst

  datatype State = State(
    order: Order,
    queue: seq<Task>,
    notified: bool,
    pipe: nat,
    count: int,
    pcs: seq<Pc>,
    stack: seq<Frame>,
    pushed: seq<Task>,          // history: every task queued, in order
    executed: seq<Task>,        // history: every task started, in order
    mark: Option<seq<Task>>,    // history: `pushed` at the last final emptiness check of a stop
    exit: Option<seq<Task>>)    // history: `pushed` when the loop was last asked to exit

  const PIPE_CAPACITY: nat := 65536
  const RECEIVE_SIZE: nat := 128

  datatype Action =
    | Push(i: nat, t: Task)
    | Count(i: nat)
    | Load(i: nat)
    | SetFlag(i: nat)
    | Send(i: nat)
    | Receive
    | Clear
    | Swap
    | StartTask
    | FinishTask
    | Return
    | StopCheck
    | ExitLoop

  function Init(order: Order, producers: nat): State {
    State(order, [], false, 0, 0, seq(producers, _ => Idle), [], [], [], None, None)
  }

  predicate Top(s: State, f: Frame) {
    s.stack != [] && s.stack[|s.stack| - 1] == f
  }

  predicate TopDraining(s: State) {
    s.stack != [] && s.stack[|s.stack| - 1].Draining?
  }

  predicate TopStopping(s: State) {
    s.stack != [] && s.stack[|s.stack| - 1].Stopping?
  }

  function TopFrame(s: State): Frame
    requires s.stack != []
  {
    s.stack[|s.stack| - 1]
  }

  function Below(s: State): seq<Frame>
    requires s.stack != []
  {
    s.stack[..|s.stack| - 1]
  }

  predicate At(s: State, i: nat, pc: Pc) {
    i < |s.pcs| && s.pcs[i] == pc
  }

  /** The point from which a producer sends, and the one from which it sets the flag. */
  function SendPoint(order: Order): Pc {
    if order == FlagFirst then FlagSet else SawUnset
  }

  function FlagPoint(order: Order): Pc {
    if order == FlagFirst then SawUnset else Sent
  }

  predicate Enabled(s: State, a: Action) {
    match a
    case Push(i, _) => At(s, i, Idle) && !Top(s, Cleared)
    case Count(i) => At(s, i, Pushed)
    case Load(i) => At(s, i, Counted)
    case SetFlag(i) => At(s, i, FlagPoint(s.order))
    case Send(i) => At(s, i, SendPoint(s.order))
    case Receive => s.stack == [] && s.pipe > 0
    case Clear => Top(s, Entered)
    case Swap => Top(s, Cleared)
    case StartTask => TopDraining(s) && TopFrame(s).running == None && TopFrame(s).rest != []
    case FinishTask => TopDraining(s) && TopFrame(s).running.Some?
    case Return => TopDraining(s) && TopFrame(s).running == None && TopFrame(s).rest == []
    case StopCheck => TopStopping(s)
    case ExitLoop => Top(s, Exiting)
  }

  function Next(s: State, a: Action): State
    requires Enabled(s, a)
  {
    match a
    case Push(i, t) => s.(pcs := s.pcs[i := Pushed], queue := s.queue + [t], pushed := s.pushed + [t])
    case Count(i) => s.(pcs := s.pcs[i := Counted], count := s.count + 1)
    case Load(i) => s.(pcs := s.pcs[i := if s.notified then Idle else SawUnset])
    case SetFlag(i) => s.(pcs := s.pcs[i := if s.order == FlagFirst then FlagSet else Idle], notified := true)
    case Send(i) =>
      // A full socket buffer refuses the byte; it already holds others.
      s.(pcs := s.pcs[i := if s.order == FlagFirst then Idle else Sent],
         pipe := if s.pipe < PIPE_CAPACITY then s.pipe + 1 else s.pipe)
    case Receive =>
      s.(pipe := if s.pipe <= RECEIVE_SIZE then 0 else s.pipe - RECEIVE_SIZE, stack := [Entered])
    case Clear => s.(stack := Below(s) + [Cleared], notified := false)
    case Swap => s.(stack := Below(s) + [Draining(s.queue, None)], queue := [])
    case StartTask =>
      var f := TopFrame(s);
      var t := f.rest[0];
      s.(stack := Below(s) + [Draining(f.rest[1..], Some(t))] + (if t.stop then [Stopping(false), Entered] else []),
         executed := s.executed + [t])
    case FinishTask => s.(stack := Below(s) + [Draining(TopFrame(s).rest, None)], count := s.count - 1)
    case Return => s.(stack := Below(s))
    case StopCheck =>
      if s.queue != [] then s.(stack := s.stack + [Entered])
      else if !TopFrame(s).second then s.(stack := Below(s) + [Exiting])
      else s.(stack := Below(s), mark := Some(s.pushed))
    case ExitLoop => s.(stack := Below(s) + [Stopping(true), Entered], exit := Some(s.pushed))
  }

  ghost predicate Path(s: State, actions: seq<Action>)
    decreases |actions|
  {
    actions == [] || (Enabled(s, actions[0]) && Path(Next(s, actions[0]), actions[1..]))
  }

  ghost function After(s: State, actions: seq<Action>): State
    requires Path(s, actions)
    decreases |actions|
  {
    if actions == [] then s else After(Next(s, actions[0]), actions[1..])
  }

  // ----- Quantities -----

  /** The tasks of a frame that have not finished. */
  function Unfinished(f: Frame): nat {
    if f.Draining? then |f.rest| + (if f.running.Some? then 1 else 0) else 0
  }

  function Undone(stack: seq<Frame>): nat {
    if stack == [] then 0 else Undone(stack[..|stack| - 1]) + Unfinished(stack[|stack| - 1])
  }

  function Rests(stack: seq<Frame>): multiset<Task> {
    if stack == [] then multiset{}
    else
      var f := stack[|stack| - 1];
      Rests(stack[..|stack| - 1]) + (if f.Draining? then multiset(f.rest) else multiset{})
  }

  function Pushing(pcs: seq<Pc>): nat {
    if pcs == [] then 0
    else Pushing(pcs[..|pcs| - 1]) + (if pcs[|pcs| - 1] == Pushed then 1 else 0)
  }

  lemma StackAppend(stack: seq<Frame>, f: Frame)
    ensures Undone(stack + [f]) == Undone(stack) + Unfinished(f)
    ensures Rests(stack + [f]) == Rests(stack) + (if f.Draining? then multiset(f.rest) else multiset{})
  {
    assert (stack + [f])[..|stack|] == stack;
  }

  lemma {:induction false} PushingUpdate(pcs: seq<Pc>, i: nat, pc: Pc)
    requires i < |pcs|
    ensures Pushing(pcs[i := pc])
            == Pushing(pcs) - (if pcs[i] == Pushed then 1 else 0) + (if pc == Pushed then 1 else 0)
  {
    var n := |pcs| - 1;
    if i < n {
      PushingUpdate(pcs[..n], i, pc);
      assert pcs[i := pc][..n] == pcs[..n][i := pc];
    } else {
      assert pcs[i := pc][..n] == pcs[..n];
    }
  }

  // ----- Invariants -----

  /** A producer that has pushed and has not yet seen the flag set or set it. */
  predicate Unresolved(pcs: seq<Pc>) {
    exists i :: 0 <= i < |pcs| && (pcs[i] == Pushed || pcs[i] == Counted || pcs[i] == SawUnset)
  }

  predicate AboutToSend(pcs: seq<Pc>) {
    exists i :: 0 <= i < |pcs| && pcs[i] == FlagSet
  }

  predicate WakeInv(s: State) {
    && (s.queue != [] ==> s.notified || Unresolved(s.pcs) || Top(s, Cleared))
    && (s.notified ==> s.pipe > 0 || AboutToSend(s.pcs) || Top(s, Entered))
  }

  predicate CountInv(s: State) {
    s.count + Pushing(s.pcs) == |s.queue| + Undone(s.stack)
  }

  /** What has been started or is waiting in some batch. */
  function Taken(s: State): multiset<Task> {
    multiset(s.executed) + Rests(s.stack)
  }

  predicate Balanced(pushed: seq<Task>, taken: multiset<Task>, queue: seq<Task>, mark: Option<seq<Task>>) {
    && multiset(pushed) == taken + multiset(queue)
    && (mark.Some? ==> multiset(mark.value) <= taken)
  }

  predicate TaskInv(s: State) {
    Balanced(s.pushed, Taken(s), s.queue, s.mark)
  }

  /** A stop has asked the loop to exit and its second drain has not ended. */
  predicate InSecondDrain(stack: seq<Frame>) {
    exists i :: 0 <= i < |stack| && stack[i] == Stopping(true)
  }

  predicate ExitInv(s: State) {
    s.exit.Some? ==>
      multiset(s.exit.value) <= multiset(s.pushed)
      && (multiset(s.exit.value) <= Taken(s) || InSecondDrain(s.stack))
  }

  predicate NoStop(ts: seq<Task>) {
    forall i :: 0 <= i < |ts| ==> !ts[i].stop
  }

  function BatchRest(stack: seq<Frame>): seq<Task> {
    if |stack| == 1 && stack[0].Draining? then stack[0].rest else []
  }

  predicate FifoInv(s: State) {
    NoStop(s.pushed) ==> |s.stack| <= 1 && (s.stack != [] ==> !s.stack[0].Stopping? && !s.stack[0].Exiting?)
                         && s.pushed == s.executed + BatchRest(s.stack) + s.queue
  }

  lemma WakePreserved(s: State, a: Action)
    requires s.order == FlagFirst && WakeInv(s) && Enabled(s, a)
    ensures WakeInv(Next(s, a))
  {
    var t := Next(s, a);
    match a
    case Push(i, _) => assert t.pcs[i] == Pushed; Kept(s, t, i);
    case Count(i) => assert t.pcs[i] == Counted; Kept(s, t, i);
    case Load(i) => assert t.pcs[i] == Idle || t.pcs[i] == SawUnset; Kept(s, t, i);
    case SetFlag(i) => assert t.pcs[i] == FlagSet;
    case Send(i) => Kept(s, t, i);
    case _ =>
  }

  /** A step of one producer leaves the others where they were. */
  lemma Kept(s: State, t: State, i: nat)
    requires |t.pcs| == |s.pcs| && i < |s.pcs|
    requires forall j :: 0 <= j < |s.pcs| && j != i ==> t.pcs[j] == s.pcs[j]
    ensures AboutToSend(s.pcs) && s.pcs[i] != FlagSet ==> AboutToSend(t.pcs)
    ensures Unresolved(s.pcs) && s.pcs[i] in {Idle, FlagSet} ==> Unresolved(t.pcs)
  {
    if AboutToSend(s.pcs) && s.pcs[i] != FlagSet {
      var j :| 0 <= j < |s.pcs| && s.pcs[j] == FlagSet;
      assert t.pcs[j] == FlagSet;
    }
    if Unresolved(s.pcs) && s.pcs[i] in {Idle, FlagSet} {
      var j :| 0 <= j < |s.pcs| && (s.pcs[j] == Pushed || s.pcs[j] == Counted || s.pcs[j] == SawUnset);
      assert t.pcs[j] == s.pcs[j];
    }
  }

  lemma StackSteps(s: State, a: Action)
    requires Enabled(s, a)
    ensures var t := Next(s, a);
            match a
            case Swap =>
              Undone(t.stack) == Undone(s.stack) + |s.queue| && Rests(t.stack) == Rests(s.stack) + multiset(s.queue)
            case StartTask => Undone(t.stack) == Undone(s.stack)
                              && Rests(s.stack) == Rests(t.stack) + multiset{TopFrame(s).rest[0]}
            case FinishTask => Undone(t.stack) == Undone(s.stack) - 1 && Rests(t.stack) == Rests(s.stack)
            case _ => Undone(t.stack) == Undone(s.stack) && Rests(t.stack) == Rests(s.stack)
  {
    if a.StartTask? {
      StartTaskStack(s);
    } else if a.StopCheck? {
      StopCheckStack(s);
    } else if a.ExitLoop? {
      Popped(s);
      StopFrames(Below(s), true);
    } else if a.Receive? {
      StackAppend([], Entered);
      assert [] + [Entered] == Next(s, a).stack;
    } else if a.Clear? || a.Swap? || a.FinishTask? || a.Return? {
      Popped(s);
      StackAppend(Below(s), Cleared);
      StackAppend(Below(s), Draining(s.queue, None));
      if a.FinishTask? {
        StackAppend(Below(s), Draining(TopFrame(s).rest, None));
      }
    }
  }

  /** Starting a task moves it from the rest of its batch to running. */
  lemma StartedFrame(below: seq<Frame>, rest: seq<Task>)
    requires rest != []
    ensures var before, after := below + [Draining(rest, None)], below + [Draining(rest[1..], Some(rest[0]))];
            Undone(after) == Undone(before) && Rests(before) == Rests(after) + multiset{rest[0]}
  {
    StackAppend(below, Draining(rest, None));
    StackAppend(below, Draining(rest[1..], Some(rest[0])));
    assert rest == [rest[0]] + rest[1..];
  }

  /** The frames of a stop hold no tasks. */
  lemma StopFrames(base: seq<Frame>, second: bool)
    ensures var s := base + [Stopping(second), Entered]; Undone(s) == Undone(base) && Rests(s) == Rests(base)
  {
    StackAppend(base, Stopping(second));
    StackAppend(base + [Stopping(second)], Entered);
    assert base + [Stopping(second)] + [Entered] == base + [Stopping(second), Entered];
  }

  lemma StartTaskStack(s: State)
    requires Enabled(s, StartTask)
    ensures var t := Next(s, StartTask);
            Undone(t.stack) == Undone(s.stack) && Rests(s.stack) == Rests(t.stack) + multiset{TopFrame(s).rest[0]}
  {
    var below, rest := Below(s), TopFrame(s).rest;
    StartedFrame(below, rest);
    assert s.stack == below + [Draining(rest, None)];
    var base := below + [Draining(rest[1..], Some(rest[0]))];
    if rest[0].stop {
      StopFrames(base, false);
    } else {
      assert base + [] == base;
    }
  }

  lemma StopCheckStack(s: State)
    requires Enabled(s, StopCheck)
    ensures var t := Next(s, StopCheck); Undone(t.stack) == Undone(s.stack) && Rests(t.stack) == Rests(s.stack)
  {
    var t, below := Next(s, StopCheck), Below(s);
    if s.queue != [] {
      StackAppend(s.stack, Entered);
      assert t.stack == s.stack + [Entered];
    } else {
      Popped(s);
      StackAppend(below, Exiting);
    }
  }

  lemma Popped(s: State)
    requires s.stack != []
    ensures var f := TopFrame(s);
            && Undone(s.stack) == Undone(Below(s)) + Unfinished(f)
            && Rests(s.stack) == Rests(Below(s)) + (if f.Draining? then multiset(f.rest) else multiset{})
  {
    StackAppend(Below(s), TopFrame(s));
    assert Below(s) + [TopFrame(s)] == s.stack;
  }

  lemma CountPreserved(s: State, a: Action)
    requires CountInv(s) && Enabled(s, a)
    ensures CountInv(Next(s, a))
  {
    StackSteps(s, a);
    match a
    case Push(i, _) => PushingUpdate(s.pcs, i, Pushed);
    case Count(i) => PushingUpdate(s.pcs, i, Counted);
    case Load(i) => PushingUpdate(s.pcs, i, if s.notified then Idle else SawUnset);
    case SetFlag(i) => PushingUpdate(s.pcs, i, if s.order == FlagFirst then FlagSet else Idle);
    case Send(i) => PushingUpdate(s.pcs, i, if s.order == FlagFirst then Idle else Sent);
    case _ =>
  }

  lemma Regroup(e: multiset<Task>, r: multiset<Task>, x: multiset<Task>)
    ensures (e + x) + r == e + (r + x) == (e + r) + x
  {
  }

  lemma TakenSteps(s: State, a: Action)
    requires Enabled(s, a)
    ensures Taken(Next(s, a)) == if a.Swap? then Taken(s) + multiset(s.queue) else Taken(s)
  {
    var t := Next(s, a);
    StackSteps(s, a);
    if a.StartTask? {
      var x := TopFrame(s).rest[0];
      assert multiset(t.executed) == multiset(s.executed) + multiset{x};
      Regroup(multiset(s.executed), Rests(t.stack), multiset{x});
    } else if a.Swap? {
      Regroup(multiset(s.executed), Rests(s.stack), multiset(s.queue));
    } else {
      assert t.executed == s.executed && Rests(t.stack) == Rests(s.stack);
    }
  }

  /** Pushing, swapping and marking keep the books. */
  lemma BalancedSteps(pushed: seq<Task>, taken: multiset<Task>, queue: seq<Task>, mark: Option<seq<Task>>, t: Task)
    requires Balanced(pushed, taken, queue, mark)
    ensures Balanced(pushed + [t], taken, queue + [t], mark)
    ensures Balanced(pushed, taken + multiset(queue), [], mark)
    ensures queue == [] ==> Balanced(pushed, taken, queue, Some(pushed))
  {
    assert multiset(pushed + [t]) == multiset(pushed) + multiset{t};
    assert multiset(queue + [t]) == multiset(queue) + multiset{t};
  }

  lemma TaskPreserved(s: State, a: Action)
    requires TaskInv(s) && Enabled(s, a)
    ensures TaskInv(Next(s, a))
  {
    TakenSteps(s, a);
    var t := Next(s, a);
    BalancedSteps(s.pushed, Taken(s), s.queue, s.mark, if a.Push? then a.t else Task(0, false));
    if a.StopCheck? {
      assert t.mark == s.mark || (s.queue == [] && t.mark == Some(s.pushed));
    } else if !a.Push? && !a.Swap? {
      assert t.pushed == s.pushed && t.queue == s.queue && t.mark == s.mark;
    }
  }

  lemma SecondDrainGoesOn(s: State, a: Action)
    requires Enabled(s, a) && InSecondDrain(s.stack)
    ensures InSecondDrain(Next(s, a).stack) || (s.queue == [] && a.StopCheck?)
  {
    var i :| 0 <= i < |s.stack| && s.stack[i] == Stopping(true);
    var t := Next(s, a);
    if i < |s.stack| - 1 {
      assert t.stack[i] == Stopping(true);
    } else if s.queue != [] && a.StopCheck? {
      assert t.stack[i] == Stopping(true);
    }
  }

  /** Nothing pushed is forgotten, and once the queue is empty all of it is taken. */
  lemma ExitKept(exit: multiset<Task>, pushed: seq<Task>, taken: multiset<Task>, queue: seq<Task>)
    requires exit <= multiset(pushed) && multiset(pushed) == taken + multiset(queue)
    ensures queue == [] ==> exit <= taken
    ensures forall t :: exit <= multiset(pushed + [t])
    ensures exit <= taken ==> exit <= taken + multiset(queue)
  {
    forall t ensures exit <= multiset(pushed + [t]) {
      assert multiset(pushed + [t]) == multiset(pushed) + multiset{t};
    }
  }

  lemma ExitUntouched(s: State, a: Action)
    requires Enabled(s, a) && !a.ExitLoop?
    ensures var t := Next(s, a); t.exit == s.exit && t.pushed == if a.Push? then s.pushed + [a.t] else s.pushed
  {
  }

  lemma ExitAsked(s: State)
    requires TaskInv(s) && Enabled(s, ExitLoop)
    ensures ExitInv(Next(s, ExitLoop))
  {
    assert Next(s, ExitLoop).stack[|Below(s)|] == Stopping(true);
  }

  lemma ExitPreserved(s: State, a: Action)
    requires TaskInv(s) && ExitInv(s) && Enabled(s, a)
    ensures ExitInv(Next(s, a))
  {
    if a.ExitLoop? {
      ExitAsked(s);
    } else {
      ExitUntouched(s, a);
      TakenSteps(s, a);
      if s.exit.Some? {
        ExitKept(multiset(s.exit.value), s.pushed, Taken(s), s.queue);
        if InSecondDrain(s.stack) {
          SecondDrainGoesOn(s, a);
        }
      }
    }
  }

  lemma FifoPreserved(s: State, a: Action)
    requires FifoInv(s) && Enabled(s, a)
    ensures FifoInv(Next(s, a))
  {
    var t := Next(s, a);
    if NoStop(t.pushed) {
      assert NoStop(s.pushed) by {
        forall i | 0 <= i < |s.pushed| ensures !s.pushed[i].stop {
          assert t.pushed[i] == s.pushed[i];
        }
      }
      if a.StartTask? {
        var f := TopFrame(s);
        assert s.pushed[|s.executed|] == f.rest[0];
        assert f.rest == [f.rest[0]] + f.rest[1..];
      }
    }
  }

  /** What holds in every state of every run, with any number of producers. */
  lemma {:induction false} Invariants(producers: nat, actions: seq<Action>)
    requires Path(Init(FlagFirst, producers), actions)
    ensures var s := After(Init(FlagFirst, producers), actions);
            WakeInv(s) && CountInv(s) && TaskInv(s) && ExitInv(s) && FifoInv(s)
  {
    NoProducerPushing(seq(producers, _ => Idle));
    InvariantsFrom(Init(FlagFirst, producers), actions);
  }

  lemma {:induction false} NoProducerPushing(pcs: seq<Pc>)
    requires forall i :: 0 <= i < |pcs| ==> pcs[i] == Idle
    ensures Pushing(pcs) == 0
  {
    if pcs != [] {
      NoProducerPushing(pcs[..|pcs| - 1]);
    }
  }

  lemma {:induction false} InvariantsFrom(s: State, actions: seq<Action>)
    requires s.order == FlagFirst && WakeInv(s) && CountInv(s) && TaskInv(s) && ExitInv(s) && FifoInv(s)
    requires Path(s, actions)
    ensures var t := After(s, actions);
            t.order == FlagFirst && WakeInv(t) && CountInv(t) && TaskInv(t) && ExitInv(t) && FifoInv(t)
    decreases |actions|
  {
    if actions != [] {
      WakePreserved(s, actions[0]);
      CountPreserved(s, actions[0]);
      TaskPreserved(s, actions[0]);
      ExitPreserved(s, actions[0]);
      FifoPreserved(s, actions[0]);
      InvariantsFrom(Next(s, actions[0]), actions[1..]);
    }
  }

  // ----- Main results -----

  /** No lost wake-up: whenever tasks are waiting, a byte is in the pipe, or a producer is
      still between its push and its byte, or the loop is about to swap the queue out. So a
      loop that polls while every producer is idle finds a byte to read. */
  lemma NoLostWakeup(producers: nat, actions: seq<Action>)
    requires Path(Init(FlagFirst, producers), actions)
    ensures var s := After(Init(FlagFirst, producers), actions);
            && (s.queue != [] ==>
                  s.pipe > 0 || Unresolved(s.pcs) || AboutToSend(s.pcs) || Top(s, Entered) || Top(s, Cleared))
            && (s.queue != [] && s.stack == [] && (forall i :: 0 <= i < |s.pcs| ==> s.pcs[i] == Idle) ==>
                  Enabled(s, Receive))
  {
    Invariants(producers, actions);
  }

  /** Exactly once: in every state of every run, stops and nested drains included, the tasks
      started, the unrun remainders of all batches and the queue are together the tasks
      pushed. So no task runs more often than it was pushed, and none disappears. */
  lemma ExactlyOnce(producers: nat, actions: seq<Action>)
    requires Path(Init(FlagFirst, producers), actions)
    ensures var s := After(Init(FlagFirst, producers), actions);
            && multiset(s.executed) + Rests(s.stack) + multiset(s.queue) == multiset(s.pushed)
            && (forall t :: multiset(s.executed)[t] <= multiset(s.pushed)[t])
            && (s.stack == [] && s.queue == [] ==> multiset(s.executed) == multiset(s.pushed))
  {
    Invariants(producers, actions);
    var s := After(Init(FlagFirst, producers), actions);
    assert multiset(s.executed) <= multiset(s.pushed);
  }

  /** Once the outermost drain around a stop has returned, every task pushed before the
      stop's last emptiness check has run, and so has every task pushed before the loop was
      asked to exit; a task pushed once has run exactly once. */
  lemma StopDrainsEverything(producers: nat, actions: seq<Action>)
    requires Path(Init(FlagFirst, producers), actions)
    ensures var s := After(Init(FlagFirst, producers), actions);
            s.mark.Some? && s.stack == [] ==>
              && multiset(s.mark.value) <= multiset(s.executed)
              && forall t :: t in multiset(s.mark.value) && multiset(s.pushed)[t] == 1 ==> multiset(s.executed)[t] == 1
    ensures var s := After(Init(FlagFirst, producers), actions);
            s.exit.Some? && s.stack == [] ==> multiset(s.exit.value) <= multiset(s.executed)
  {
    ExactlyOnce(producers, actions);
    Invariants(producers, actions);
    var s := After(Init(FlagFirst, producers), actions);
    if s.mark.Some? && s.stack == [] {
      assert multiset(s.mark.value) <= multiset(s.executed);
    }
    if s.exit.Some? && s.stack == [] {
      assert Rests(s.stack) == multiset{} && Taken(s) == multiset(s.executed);
    }
  }

  /** The counter: it is the number of tasks queued or not yet finished, less the producers
      that have pushed and not yet counted; exact whenever no producer is at that point. */
  lemma CounterConservation(producers: nat, actions: seq<Action>)
    requires Path(Init(FlagFirst, producers), actions)
    ensures var s := After(Init(FlagFirst, producers), actions);
            && s.count == |s.queue| + Undone(s.stack) - Pushing(s.pcs)
            && ((forall i :: 0 <= i < |s.pcs| ==> s.pcs[i] == Idle) ==> s.count == |s.queue| + Undone(s.stack))
  {
    Invariants(producers, actions);
    var s := After(Init(FlagFirst, producers), actions);
    if forall i :: 0 <= i < |s.pcs| ==> s.pcs[i] == Idle {
      NoProducerPushing(s.pcs);
    }
  }

  /** First in, first out: without a stop the tasks started, then the rest of the batch, then
      the queue are the push order. */
  lemma Fifo(producers: nat, actions: seq<Action>)
    requires Path(Init(FlagFirst, producers), actions)
    requires NoStop(After(Init(FlagFirst, producers), actions).pushed)
    ensures var s := After(Init(FlagFirst, producers), actions);
            s.pushed == s.executed + BatchRest(s.stack) + s.queue
  {
    Invariants(producers, actions);
  }

  // ----- What a run does, read off its steps -----

  function TasksPushed(actions: seq<Action>): seq<Task> {
    if actions == [] then []
    else (if actions[0].Push? then [actions[0].t] else []) + TasksPushed(actions[1..])
  }

  function Sends(actions: seq<Action>, i: nat): nat {
    if actions == [] then 0 else (if actions[0] == Send(i) then 1 else 0) + Sends(actions[1..], i)
  }

  function Clears(actions: seq<Action>): nat {
    if actions == [] then 0 else (if actions[0].Clear? then 1 else 0) + Clears(actions[1..])
  }

  function SendsOfAll(actions: seq<Action>): nat {
    if actions == [] then 0 else (if actions[0].Send? then 1 else 0) + SendsOfAll(actions[1..])
  }

  function Receives(actions: seq<Action>): nat {
    if actions == [] then 0 else (if actions[0].Receive? then 1 else 0) + Receives(actions[1..])
  }

  lemma {:induction false} ReceivesFrom(s: State, actions: seq<Action>)
    requires Path(s, actions)
    ensures Receives(actions) + After(s, actions).pipe <= SendsOfAll(actions) + s.pipe
    decreases |actions|
  {
    if actions != [] {
      ReceivesFrom(Next(s, actions[0]), actions[1..]);
    }
  }

  lemma {:induction false} PushedAre(s: State, actions: seq<Action>)
    requires Path(s, actions)
    ensures After(s, actions).pushed == s.pushed + TasksPushed(actions)
    decreases |actions|
  {
    if actions != [] {
      var t := Next(s, actions[0]);
      PushedAre(t, actions[1..]);
      assert t.pushed == if actions[0].Push? then s.pushed + [actions[0].t] else s.pushed;
    }
  }

  /** A producer on its way to send its byte. */
  function OnItsWay(s: State, i: nat): nat {
    if At(s, i, SawUnset) || At(s, i, FlagSet) then 1 else 0
  }

  /** A byte the producer may still send before the flag is cleared again. */
  function Allowance(s: State, i: nat): nat {
    if s.notified || At(s, i, SawUnset) then 1 else 0
  }

  lemma AllowanceStep(s: State, a: Action, i: nat)
    requires s.order == FlagFirst && Enabled(s, a)
    ensures var t := Next(s, a);
            (if a == Send(i) then 1 else 0) + OnItsWay(t, i) - Allowance(t, i)
            <= (if a.Clear? then 1 else 0) + OnItsWay(s, i) - Allowance(s, i)
  {
  }

  lemma {:induction false} SendsFrom(s: State, actions: seq<Action>, i: nat)
    requires s.order == FlagFirst && Path(s, actions)
    ensures var t := After(s, actions);
            Sends(actions, i) + OnItsWay(t, i) - Allowance(t, i)
            <= Clears(actions) + OnItsWay(s, i) - Allowance(s, i)
    decreases |actions|
  {
    if actions != [] {
      AllowanceStep(s, actions[0], i);
      SendsFrom(Next(s, actions[0]), actions[1..], i);
    }
  }

  /** What the flag saves: however many tasks a producer queues, it sends at most one byte more
      than the flag was cleared; and the loop wakes up at most once for every byte sent. */
  lemma FewWakeups(producers: nat, actions: seq<Action>, i: nat)
    requires Path(Init(FlagFirst, producers), actions)
    ensures Sends(actions, i) <= Clears(actions) + 1
    ensures Receives(actions) + After(Init(FlagFirst, producers), actions).pipe <= SendsOfAll(actions)
    ensures After(Init(FlagFirst, producers), actions).pushed == TasksPushed(actions)
  {
    SendsFrom(Init(FlagFirst, producers), actions, i);
    ReceivesFrom(Init(FlagFirst, producers), actions);
    PushedAre(Init(FlagFirst, producers), actions);
  }

  // ----- What the protocol rests on -----

  lemma {:induction false} Extend(s: State, actions: seq<Action>, a: Action)
    requires Path(s, actions) && Enabled(After(s, actions), a)
    ensures Path(s, actions + [a]) && After(s, actions + [a]) == Next(After(s, actions), a)
    decreases |actions|
  {
    if actions == [] {
      assert [a][1..] == [];
    } else {
      assert (actions + [a])[1..] == actions[1..] + [a];
      Extend(Next(s, actions[0]), actions[1..], a);
    }
  }

  /** Runs a list of steps that are enabled one after the other. */
  lemma {:induction false} Reached(s: State, actions: seq<Action>, more: seq<Action>)
    requires Path(s, actions) && Path(After(s, actions), more)
    ensures Path(s, actions + more) && After(s, actions + more) == After(After(s, actions), more)
    decreases |more|
  {
    if more == [] {
      assert actions + more == actions;
    } else {
      Extend(s, actions, more[0]);
      Reached(s, actions + [more[0]], more[1..]);
      assert actions + [more[0]] + more[1..] == actions + more;
    }
  }

  lemma FourSteps(s: State, a: Action, b: Action, c: Action, d: Action, t: State)
    requires Enabled(s, a) && Enabled(Next(s, a), b) && Enabled(Next(Next(s, a), b), c)
    requires Enabled(Next(Next(Next(s, a), b), c), d) && Next(Next(Next(Next(s, a), b), c), d) == t
    ensures Path(s, [a, b, c, d]) && After(s, [a, b, c, d]) == t
  {
    Extend(s, [], a);
    Extend(s, [] + [a], b);
    Extend(s, [] + [a] + [b], c);
    Extend(s, [] + [a] + [b] + [c], d);
    assert [a, b, c, d] == [] + [a] + [b] + [c] + [d];
  }

  const FIRST := Task(0, false)
  const SECOND := Task(1, false)
  const THIRD := Task(2, false)
  const STOP := Task(3, true)

  /** A producer that sends its byte before setting the flag, stopped between the two. */
  const ByteSent := State(NotifyFirst, [FIRST], false, 1, 1, [Sent, Idle], [], [FIRST], [], None, None)
  const TaskRunning := ByteSent.(pipe := 0, queue := [], executed := [FIRST], stack := [Draining([], Some(FIRST))])
  const LateFlag := TaskRunning.(stack := [], count := 0, notified := true, queue := [SECOND],
                                 pushed := [FIRST, SECOND], pcs := [Idle, Pushed])

  lemma ByteSentReached()
    ensures var actions := [Push(0, FIRST), Count(0), Load(0), Send(0)];
            Path(Init(NotifyFirst, 2), actions) && After(Init(NotifyFirst, 2), actions) == ByteSent
  {
    FourSteps(Init(NotifyFirst, 2), Push(0, FIRST), Count(0), Load(0), Send(0), ByteSent);
  }

  lemma TaskRunningReached()
    ensures Path(ByteSent, [Receive, Clear, Swap, StartTask])
    ensures After(ByteSent, [Receive, Clear, Swap, StartTask]) == TaskRunning
  {
    var q2 := Next(Next(ByteSent, Receive), Clear);
    assert q2.stack == [Cleared];
    var q3 := Next(q2, Swap);
    assert q3.stack == [Draining([FIRST], None)];
    assert TopFrame(q3).rest == [FIRST] && TopFrame(q3).rest[1..] == [] && !FIRST.stop;
    assert Next(q3, StartTask).stack == [Draining([], Some(FIRST))];
    assert Next(q3, StartTask) == TaskRunning;
    FourSteps(ByteSent, Receive, Clear, Swap, StartTask, TaskRunning);
  }

  lemma LateFlagReached()
    ensures Path(TaskRunning, [FinishTask, Return, SetFlag(0), Push(1, SECOND)])
    ensures After(TaskRunning, [FinishTask, Return, SetFlag(0), Push(1, SECOND)]) == LateFlag
  {
    FourSteps(TaskRunning, FinishTask, Return, SetFlag(0), Push(1, SECOND), LateFlag);
  }

  /** Notifying before setting the flag loses a wake-up: a task waits, no byte is in the
      pipe, every producer is idle and the flag keeps later producers from sending one. */
  lemma NotifyFirstLosesWakeup() returns (actions: seq<Action>)
    ensures Path(Init(NotifyFirst, 2), actions)
    ensures var s := After(Init(NotifyFirst, 2), actions);
            s.queue != [] && s.pipe == 0 && s.stack == [] && s.notified && s.pcs == [Idle, Idle]
  {
    var s0 := Init(NotifyFirst, 2);
    actions := [Push(0, FIRST), Count(0), Load(0), Send(0)];
    ByteSentReached();
    TaskRunningReached();
    Reached(s0, actions, [Receive, Clear, Swap, StartTask]);
    actions := actions + [Receive, Clear, Swap, StartTask];
    LateFlagReached();
    Reached(s0, actions, [FinishTask, Return, SetFlag(0), Push(1, SECOND)]);
    actions := actions + [FinishTask, Return, SetFlag(0), Push(1, SECOND)];
    Extend(s0, actions, Count(1));
    actions := actions + [Count(1)];
    Extend(s0, actions, Load(1));
    actions := actions + [Load(1)];
  }

  /** A batch whose first task stops the loop, and a task pushed while the stop drains. */
  const StopQueued :=
    State(FlagFirst, [STOP, SECOND], false, 0, 1, [SawUnset, Pushed, Idle], [], [STOP, SECOND], [], None, None)
  const StopWoken := StopQueued.(pcs := [Idle, Pushed, Idle], stack := [Cleared])
  const StopDraining := StopWoken.(queue := [THIRD], pushed := [STOP, SECOND, THIRD], executed := [STOP],
                                   pcs := [Idle, Pushed, Pushed],
                                   stack := [Draining([SECOND], Some(STOP)), Stopping(false), Cleared])

  lemma StopQueuedReached()
    ensures var actions := [Push(0, STOP), Push(1, SECOND), Count(0), Load(0)];
            Path(Init(FlagFirst, 3), actions) && After(Init(FlagFirst, 3), actions) == StopQueued
  {
    FourSteps(Init(FlagFirst, 3), Push(0, STOP), Push(1, SECOND), Count(0), Load(0), StopQueued);
  }

  lemma StopWokenReached()
    ensures Path(StopQueued, [SetFlag(0), Send(0), Receive, Clear])
    ensures After(StopQueued, [SetFlag(0), Send(0), Receive, Clear]) == StopWoken
  {
    FourSteps(StopQueued, SetFlag(0), Send(0), Receive, Clear, StopWoken);
  }

  lemma StopDrainingReached()
    ensures Path(StopWoken, [Swap, StartTask, Push(2, THIRD), Clear])
    ensures After(StopWoken, [Swap, StartTask, Push(2, THIRD), Clear]) == StopDraining
  {
    var r1 := Next(StopWoken, Swap);
    assert r1.stack == [Draining([STOP, SECOND], None)];
    var r2 := Next(r1, StartTask);
    assert r2.stack == [Draining([SECOND], Some(STOP)), Stopping(false), Entered];
    FourSteps(StopWoken, Swap, StartTask, Push(2, THIRD), Clear, StopDraining);
  }

  /** A stop gives up first-in first-out: its nested drain runs a task pushed later before
      the rest of the batch the stop itself belongs to. */
  lemma StopOvertakes() returns (actions: seq<Action>)
    ensures Path(Init(FlagFirst, 3), actions)
    ensures var s := After(Init(FlagFirst, 3), actions);
            s.pushed == [STOP, SECOND, THIRD] && s.executed == [STOP, THIRD]
  {
    var s0 := Init(FlagFirst, 3);
    actions := [Push(0, STOP), Push(1, SECOND), Count(0), Load(0)];
    StopQueuedReached();
    StopWokenReached();
    Reached(s0, actions, [SetFlag(0), Send(0), Receive, Clear]);
    actions := actions + [SetFlag(0), Send(0), Receive, Clear];
    StopDrainingReached();
    Reached(s0, actions, [Swap, StartTask, Push(2, THIRD), Clear]);
    actions := actions + [Swap, StartTask, Push(2, THIRD), Clear];
    Extend(s0, actions, Swap);
    actions := actions + [Swap];
    Extend(s0, actions, StartTask);
    actions := actions + [StartTask];
  }

  // ----- When tasks run in push order -----

  /** Every task pushed is one of the set. */
  ghost predicate PushesFrom(tasks: set<Task>, actions: seq<Action>) {
    forall i :: 0 <= i < |actions| && actions[i].Push? ==> actions[i].t in tasks
  }

  /** However the run goes on with such tasks, those started are the first pushed, in order. */
  ghost predicate AlwaysFifo(s: State, tasks: set<Task>) {
    forall actions :: Path(s, actions) && PushesFrom(tasks, actions) ==>
      After(s, actions).executed <= After(s, actions).pushed
  }

  lemma FifoStep(s: State, tasks: set<Task>, a: Action)
    requires AlwaysFifo(s, tasks) && Enabled(s, a) && (a.Push? ==> a.t in tasks)
    ensures AlwaysFifo(Next(s, a), tasks)
  {
    forall actions | Path(Next(s, a), actions) && PushesFrom(tasks, actions)
      ensures After(Next(s, a), actions).executed <= After(Next(s, a), actions).pushed
    {
      assert ([a] + actions)[1..] == actions;
      assert Path(s, [a] + actions) && PushesFrom(tasks, [a] + actions);
    }
  }

  lemma FifoNow(s: State, tasks: set<Task>)
    requires AlwaysFifo(s, tasks)
    ensures s.executed <= s.pushed
  {
    assert Path(s, []) && After(s, []) == s;
  }

  lemma {:induction false} PushedFrom(s: State, tasks: set<Task>, actions: seq<Action>)
    requires Path(s, actions) && PushesFrom(tasks, actions)
    requires forall t :: t in s.pushed ==> t in tasks
    ensures forall t :: t in After(s, actions).pushed ==> t in tasks
    decreases |actions|
  {
    if actions != [] {
      PushedFrom(Next(s, actions[0]), tasks, actions[1..]);
    }
  }

  /** Without a stop the tasks started are always the first pushed. */
  lemma NoStopIsFifo(producers: nat, tasks: set<Task>)
    requires forall t :: t in tasks ==> !t.stop
    ensures AlwaysFifo(Init(FlagFirst, producers), tasks)
  {
    var s := Init(FlagFirst, producers);
    forall actions | Path(s, actions) && PushesFrom(tasks, actions)
      ensures After(s, actions).executed <= After(s, actions).pushed
    {
      PushedFrom(s, tasks, actions);
      Fifo(producers, actions);
    }
  }

  /** With one task only, its runs cannot be told apart. */
  lemma OneTaskIsFifo(producers: nat, tasks: set<Task>)
    requires forall t, u :: t in tasks && u in tasks ==> t == u
    ensures AlwaysFifo(Init(FlagFirst, producers), tasks)
  {
    var s := Init(FlagFirst, producers);
    forall actions | Path(s, actions) && PushesFrom(tasks, actions)
      ensures After(s, actions).executed <= After(s, actions).pushed
    {
      PushedFrom(s, tasks, actions);
      ExactlyOnce(producers, actions);
      AllAlike(After(s, actions).executed, After(s, actions).pushed, tasks);
    }
  }

  lemma AllAlike(p: seq<Task>, q: seq<Task>, tasks: set<Task>)
    requires forall t, u :: t in tasks && u in tasks ==> t == u
    requires (forall t :: t in q ==> t in tasks) && multiset(p) <= multiset(q)
    ensures p <= q
  {
    assert |multiset(p)| == |p| && |multiset(q)| == |q|;
    SmallerMultiset(multiset(p), multiset(q));
    forall i | 0 <= i < |p| ensures p[i] == q[i] {
      assert p[i] in multiset(p) && p[i] in multiset(q) && p[i] in q && q[i] in q;
    }
  }

  lemma SmallerMultiset(a: multiset<Task>, b: multiset<Task>)
    requires a <= b
    ensures |a| <= |b|
  {
    assert b == a + (b - a);
  }

  /** One producer queues a task: with the flag unset it also sends the byte. */
  function WithQueued(s: State, t: Task): State {
    var n := s.(queue := s.queue + [t], pushed := s.pushed + [t], count := s.count + 1);
    if s.notified then n else n.(notified := true, pipe := if s.pipe < PIPE_CAPACITY then s.pipe + 1 else s.pipe)
  }

  lemma Queued(s: State, tasks: set<Task>, t: Task)
    requires AlwaysFifo(s, tasks) && s.order == FlagFirst && t in tasks && At(s, 0, Idle) && !Top(s, Cleared)
    ensures AlwaysFifo(WithQueued(s, t), tasks)
  {
    var a := Next(s, Push(0, t));
    FifoStep(s, tasks, Push(0, t));
    FifoStep(a, tasks, Count(0));
    Woken(s, Next(a, Count(0)), tasks, t);
  }

  lemma Woken(s: State, b: State, tasks: set<Task>, t: Task)
    requires At(s, 0, Idle) && s.order == FlagFirst && AlwaysFifo(b, tasks)
    requires b == s.(pcs := s.pcs[0 := Counted], queue := s.queue + [t], pushed := s.pushed + [t], count := s.count + 1)
    ensures AlwaysFifo(WithQueued(s, t), tasks)
  {
    FifoStep(b, tasks, Load(0));
    var c := Next(b, Load(0));
    if s.notified {
      assert c.pcs == s.pcs;
      assert c == WithQueued(s, t);
    } else {
      FifoStep(c, tasks, SetFlag(0));
      var d := Next(c, SetFlag(0));
      FifoStep(d, tasks, Send(0));
      assert Next(d, Send(0)).pcs == s.pcs;
      assert Next(d, Send(0)) == WithQueued(s, t);
    }
  }

  /** A batch is taken and its first task started. */
  lemma Started(s: State, tasks: set<Task>)
    requires AlwaysFifo(s, tasks) && Top(s, Entered) && s.queue != []
    ensures var t := s.queue[0];
            AlwaysFifo(s.(notified := false, queue := [], executed := s.executed + [t],
                          stack := Below(s) + [Draining(s.queue[1..], Some(t))]
                                   + (if t.stop then [Stopping(false), Entered] else [])), tasks)
  {
    FifoStep(s, tasks, Clear);
    var a := Next(s, Clear);
    FifoStep(a, tasks, Swap);
    var b := Next(a, Swap);
    assert Below(a) == Below(s) && Below(b) == Below(s) && TopFrame(b) == Draining(s.queue, None);
    FifoStep(b, tasks, StartTask);
  }

  /** Two copies of a stopping task taken in one batch, the first of them draining. */
  function StopRunning(producers: nat, stop: Task): State {
    State(FlagFirst, [], false, 0, 2, seq(producers, _ => Idle),
          [Draining([stop], Some(stop)), Stopping(false), Entered], [stop, stop], [stop], None, None)
  }

  function TwoStopsQueued(producers: nat, stop: Task): State {
    State(FlagFirst, [stop, stop], true, 1, 2, seq(producers, _ => Idle), [], [stop, stop], [], None, None)
  }

  lemma StopsQueue(producers: nat, tasks: set<Task>, stop: Task)
    requires producers > 0 && stop in tasks && AlwaysFifo(Init(FlagFirst, producers), tasks)
    ensures AlwaysFifo(TwoStopsQueued(producers, stop), tasks)
  {
    var s := Init(FlagFirst, producers);
    var a := s.(queue := [stop], pushed := [stop], count := 1, notified := true, pipe := 1);
    assert s.queue + [stop] == [stop] && [stop] + [stop] == [stop, stop];
    Queued(s, tasks, stop);
    Queued(a, tasks, stop);
  }

  lemma StopRuns(producers: nat, tasks: set<Task>, stop: Task)
    requires producers > 0 && stop in tasks && stop.stop && AlwaysFifo(Init(FlagFirst, producers), tasks)
    ensures AlwaysFifo(StopRunning(producers, stop), tasks)
  {
    StopsQueue(producers, tasks, stop);
    var b := TwoStopsQueued(producers, stop);
    var c := b.(pipe := 0, stack := [Entered]);
    FifoStep(b, tasks, Receive);
    assert Next(b, Receive) == c;
    Started(c, tasks);
    assert Below(c) == [] && [stop, stop][1..] == [stop];
    assert Below(c) + [Draining([stop], Some(stop))] + [Stopping(false), Entered] == StopRunning(producers, stop).stack;
    assert c.executed + [stop] == [stop];
  }

  lemma NotFifoNow(s: State, tasks: set<Task>)
    requires !(s.executed <= s.pushed)
    ensures !AlwaysFifo(s, tasks)
  {
    if AlwaysFifo(s, tasks) {
      FifoNow(s, tasks);
    }
  }

  /** A task pushed while the stop drains, started. */
  function OtherRunning(producers: nat, stop: Task, other: Task): State {
    StopRunning(producers, stop).(
      pushed := [stop, stop, other], count := 3, pipe := 1, executed := [stop, other],
      stack := [Draining([stop], Some(stop)), Stopping(false), Draining([], Some(other))]
               + (if other.stop then [Stopping(false), Entered] else []))
  }

  lemma OtherRuns(producers: nat, tasks: set<Task>, stop: Task, other: Task)
    requires producers > 0 && other in tasks && AlwaysFifo(StopRunning(producers, stop), tasks)
    ensures AlwaysFifo(OtherRunning(producers, stop, other), tasks)
  {
    var d := StopRunning(producers, stop);
    var e := d.(queue := [other], pushed := [stop, stop, other], count := 3, notified := true, pipe := 1);
    Queued(d, tasks, other);
    assert d.queue + [other] == e.queue && d.pushed + [other] == e.pushed;
    Started(e, tasks);
    assert [other][1..] == [] && e.executed + [other] == [stop, other];
    assert Below(e) + [Draining([], Some(other))]
        == [Draining([stop], Some(stop)), Stopping(false), Draining([], Some(other))];
  }

  /** It starts before the second copy. */
  lemma Overtaken(producers: nat, tasks: set<Task>, stop: Task, other: Task)
    requires producers > 0 && other in tasks && stop != other
    ensures !AlwaysFifo(StopRunning(producers, stop), tasks)
  {
    var f := OtherRunning(producers, stop, other);
    assert f.executed[1] != f.pushed[1];
    NotFifoNow(f, tasks);
    if AlwaysFifo(StopRunning(producers, stop), tasks) {
      OtherRuns(producers, tasks, stop, other);
    }
  }

  /** The exact condition for first in, first out, over all runs with tasks of the set: none of
      them stops the loop, or there is only one of them. */
  lemma FifoIff(producers: nat, tasks: set<Task>)
    requires producers > 0
    ensures AlwaysFifo(Init(FlagFirst, producers), tasks)
            <==> (forall t :: t in tasks ==> !t.stop) || (forall t, u :: t in tasks && u in tasks ==> t == u)
  {
    if forall t :: t in tasks ==> !t.stop {
      NoStopIsFifo(producers, tasks);
    } else if forall t, u :: t in tasks && u in tasks ==> t == u {
      OneTaskIsFifo(producers, tasks);
    } else {
      var stop :| stop in tasks && stop.stop;
      var other :| other in tasks && other != stop;
      Overtaken(producers, tasks, stop, other);
      if AlwaysFifo(Init(FlagFirst, producers), tasks) {
        StopRuns(producers, tasks, stop);
      }
    }
  }
}
