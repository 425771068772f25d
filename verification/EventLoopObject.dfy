/** The loop object, its methods written as the program writes them. Every statement that
    touches shared state is one atomic step of the transition system in EventLoop, and a
    whole call is a path of such steps. The theorems there cover the calls of all threads
    interleaved in any way; the contracts here say what a call does when left alone. */
module EventLoopObject {
  import opened Wrappers
  import opened EventLoop

  ghost predicate Reaches(s: State, t: State) {
    exists actions :: Path(s, actions) && After(s, actions) == t
  }

  lemma ReachesSelf(s: State)
    ensures Reaches(s, s)
  {
    assert Path(s, []) && After(s, []) == s;
  }

  lemma ReachesStep(s: State, t: State, a: Action)
    requires Reaches(s, t) && Enabled(t, a)
    ensures Reaches(s, Next(t, a))
  {
    var actions :| Path(s, actions) && After(s, actions) == t;
    Extend(s, actions, a);
  }

  class Loop {
    var pendingFunctors: seq<Task>
    var notified: bool
    var pipe: nat
    var pendingFunctorCount: int
    // Where each thread is, and the history of what was queued and started.
    ghost var pcs: seq<Pc>
    ghost var stack: seq<Frame>
    ghost var pushed: seq<Task>
    ghost var executed: seq<Task>
    ghost var mark: Option<seq<Task>>
    ghost var exit: Option<seq<Task>>

    ghost function View(): State
      reads this
    {
      State(FlagFirst, pendingFunctors, notified, pipe, pendingFunctorCount, pcs, stack, pushed, executed, mark, exit)
    }

    constructor (ghost producers: nat)
      ensures View() == Init(FlagFirst, producers)
    {
      pendingFunctors, notified, pipe, pendingFunctorCount := [], false, 0, 0;
      pcs, stack, pushed, executed, mark, exit := seq(producers, _ => Idle), [], [], [], None, None;
    }

    // ----- Queueing -----

    /** Sends one byte; a full socket refuses it. */
    method Notify(ghost i: nat)
      requires Enabled(View(), Send(i))
      modifies this`pipe, this`pcs
      ensures View() == Next(old(View()), Send(i)) && pipe > 0
    {
      if pipe < PIPE_CAPACITY {
        pipe := pipe + 1;
      }
      pcs := pcs[i := Idle];
    }

    /** Queues a task and wakes the loop up unless someone already has. */
    method QueueInLoop(ghost i: nat, t: Task)
      requires Enabled(View(), Push(i, t))
      modifies this
      ensures Reaches(old(View()), View())
      ensures pendingFunctors == old(pendingFunctors) + [t] && pushed == old(pushed) + [t]
      ensures pendingFunctorCount == old(pendingFunctorCount) + 1 && notified && (!old(notified) ==> pipe > 0)
      ensures pcs == old(pcs) && stack == old(stack) && executed == old(executed)
    {
      ghost var s := View();
      ReachesSelf(s);
      ReachesStep(s, s, Push(i, t));
      pendingFunctors := pendingFunctors + [t];
      pushed := pushed + [t];
      pcs := pcs[i := Pushed];
      ReachesStep(s, View(), Count(i));
      pendingFunctorCount := pendingFunctorCount + 1;
      pcs := pcs[i := Counted];
      WakeUp(s, i);
    }

    method WakeUp(ghost s: State, ghost i: nat)
      requires Enabled(View(), Load(i)) && Reaches(s, View())
      modifies this`notified, this`pipe, this`pcs
      ensures Reaches(s, View()) && pcs == old(pcs)[i := Idle]
      ensures notified && (!old(notified) ==> pipe > 0)
    {
      ReachesStep(s, View(), Load(i));
      if notified {
        pcs := pcs[i := Idle];
      } else {
        pcs := pcs[i := SawUnset];
        ReachesStep(s, View(), SetFlag(i));
        notified := true;
        pcs := pcs[i := FlagSet];
        ReachesStep(s, View(), Send(i));
        Notify(i);
      }
    }

    // ----- The loop thread -----

    /** Takes what the socket holds, up to the size of the buffer, and drains the queue. */
    method HandlerFn()
      requires Enabled(View(), Receive)
      modifies this
      ensures Reaches(old(View()), View()) && stack == [] && pcs == old(pcs) && pushed == old(pushed)
      ensures pendingFunctors == [] && executed == old(executed) + old(pendingFunctors)
      ensures pendingFunctorCount == old(pendingFunctorCount) - |old(pendingFunctors)|
    {
      ghost var s := View();
      ReachesSelf(s);
      ReachesStep(s, s, Receive);
      pipe := if pipe <= RECEIVE_SIZE then 0 else pipe - RECEIVE_SIZE;
      stack := [Entered];
      DoPendingFunctors(s);
    }

    /** Clears the flag and takes the queue under the lock, then runs what it took, in order.
        A task that stops the loop drains again from inside. */
    method DoPendingFunctors(ghost s: State)
      requires Top(View(), Entered) && Reaches(s, View())
      modifies this
      ensures Reaches(s, View()) && stack == old(stack)[..|old(stack)| - 1] && pcs == old(pcs) && pushed == old(pushed)
      ensures pendingFunctors == [] && executed == old(executed) + old(pendingFunctors)
      ensures pendingFunctorCount == old(pendingFunctorCount) - |old(pendingFunctors)|
      ensures exit == old(exit) || exit == Some(pushed)
      decreases |pendingFunctors|, 0
    {
      ghost var below := Below(View());
      ReachesStep(s, View(), Clear);
      notified := false;
      stack := below + [Cleared];
      ReachesStep(s, View(), Swap);
      var functors := pendingFunctors;
      assert below + [Cleared] == stack && Below(View()) == below;
      pendingFunctors := [];
      stack := below + [Draining(functors, None)];
      RunBatch(s, functors, below);
      ReachesStep(s, View(), Return);
      stack := below;
    }

    /** Runs a batch in order and counts every task off. */
    method RunBatch(ghost s: State, functors: seq<Task>, ghost below: seq<Frame>)
      requires pendingFunctors == [] && stack == below + [Draining(functors, None)] && Reaches(s, View())
      modifies this
      ensures pendingFunctors == [] && stack == below + [Draining([], None)] && Reaches(s, View())
      ensures pcs == old(pcs) && pushed == old(pushed) && executed == old(executed) + functors
      ensures pendingFunctorCount == old(pendingFunctorCount) - |functors|
      ensures exit == old(exit) || exit == Some(pushed)
      decreases |functors| - 1, 5
    {
      for i := 0 to |functors|
        invariant pendingFunctors == [] && stack == below + [Draining(functors[i..], None)]
        invariant pcs == old(pcs) && pushed == old(pushed) && executed == old(executed) + functors[..i]
        invariant pendingFunctorCount == old(pendingFunctorCount) - i
        invariant exit == old(exit) || exit == Some(pushed)
        invariant Reaches(s, View())
      {
        assert functors[i..] == [functors[i]] + functors[i + 1..];
        RunFunctor(s, functors[i], functors[i + 1..], below, |functors|);
        assert functors[..i + 1] == functors[..i] + [functors[i]];
      }
      assert functors[..|functors|] == functors && functors[|functors|..] == [];
    }

    method RunFunctor(ghost s: State, functor: Task, ghost rest: seq<Task>, ghost below: seq<Frame>, ghost batch: nat)
      requires pendingFunctors == [] && stack == below + [Draining([functor] + rest, None)] && Reaches(s, View())
      requires batch > 0
      modifies this
      ensures pendingFunctors == [] && stack == below + [Draining(rest, None)] && Reaches(s, View())
      ensures pcs == old(pcs) && pushed == old(pushed) && executed == old(executed) + [functor]
      ensures pendingFunctorCount == old(pendingFunctorCount) - 1
      ensures exit == old(exit) || exit == Some(pushed)
      decreases batch - 1, 4
    {
      ReachesStep(s, View(), StartTask);
      executed := executed + [functor];
      stack := below + [Draining(rest, Some(functor))] + (if functor.stop then [Stopping(false), Entered] else []);
      if functor.stop {
        StopInLoop(s, below + [Draining(rest, Some(functor))]);
      }
      ReachesStep(s, View(), FinishTask);
      pendingFunctorCount := pendingFunctorCount - 1;
      stack := below + [Draining(rest, None)];
    }

    /** Drains until the queue is found empty, asks the loop to exit, and drains again. */
    method StopInLoop(ghost s: State, ghost below: seq<Frame>)
      requires stack == below + [Stopping(false), Entered] && Reaches(s, View())
      modifies this
      ensures pendingFunctors == [] && stack == below && Reaches(s, View())
      ensures pcs == old(pcs) && pushed == old(pushed) && executed == old(executed) + old(pendingFunctors)
      ensures pendingFunctorCount == old(pendingFunctorCount) - |old(pendingFunctors)|
      ensures exit == Some(pushed) && mark == Some(pushed)
      decreases |pendingFunctors|, 2
    {
      DrainUntilEmpty(s, below, false);
      ReachesStep(s, View(), ExitLoop);
      exit := Some(pushed);
      stack := below + [Stopping(true), Entered];
      DrainUntilEmpty(s, below, true);
    }

    method DrainUntilEmpty(ghost s: State, ghost below: seq<Frame>, ghost second: bool)
      requires stack == below + [Stopping(second), Entered] && Reaches(s, View())
      modifies this
      ensures pendingFunctors == [] && Reaches(s, View())
      ensures stack == below + if second then [] else [Exiting]
      ensures pcs == old(pcs) && pushed == old(pushed) && executed == old(executed) + old(pendingFunctors)
      ensures pendingFunctorCount == old(pendingFunctorCount) - |old(pendingFunctors)|
      ensures (exit == old(exit) || exit == Some(pushed)) && (second ==> mark == Some(pushed))
      decreases |pendingFunctors|, 1
    {
      ghost var queued := pendingFunctors;
      var empty := false;
      while !empty
        invariant Reaches(s, View()) && pcs == old(pcs) && pushed == old(pushed)
        invariant pendingFunctors == if empty then [] else queued
        invariant stack == below + [Stopping(second)] + if empty then [] else [Entered]
        invariant executed == old(executed) + if empty then queued else []
        invariant pendingFunctorCount == old(pendingFunctorCount) - if empty then |queued| else 0
        invariant exit == old(exit) || exit == Some(pushed)
        decreases !empty
      {
        DoPendingFunctors(s);
        empty := |pendingFunctors| == 0;
      }
      ReachesStep(s, View(), StopCheck);
      stack := below + if second then [] else [Exiting];
      mark := if second then Some(pushed) else mark;
    }
  }
}
