/** What a connection does, read off the steps of a run and the kernel's answers in them, not
    off its handlers: which bytes are on the wire, which are waiting, which callbacks are made
    and what is queued. */
module TcpConnLaws {
  import opened Bytes
  import opened Wrappers
  import opened Sequences
  import opened TcpConnSpec

  // ----- Data -----

  /** The kernel is asked to take data in this step: nothing was waiting, or the socket became
      writable. */
  predicate Asked(s: State, a: Action)
    requires Enabled(s, a)
  {
    var c := s.conn;
    match a
    case SendHere(_, _, _) => c.status == Connected && c.out == []
    case RunTask(_, _) => c.queue[0].SendTask? && c.status != Disconnected && c.out == []
    case WriteEvent(_, _) => true
    case _ => false
  }

  /** The kernel's answer in the step. */
  function Answer(a: Action): SendResult {
    match a
    case SendHere(_, k, _) => k
    case RunTask(k, _) => k
    case WriteEvent(k, _) => k
    case _ => Retry
  }

  /** How many bytes the kernel takes in the step. */
  function Took(s: State, a: Action): nat
    requires Enabled(s, a)
  {
    if Asked(s, a) && Answer(a).Accepted? then Answer(a).n else 0
  }

  /** The data the step hands to the connection: a send on the loop thread while connected,
      or a posted one that runs before the connection is down. */
  function Handed(s: State, a: Action): seq<byte>
    requires Enabled(s, a)
  {
    var c := s.conn;
    match a
    case SendHere(data, _, _) => if c.status == Connected then data else []
    case RunTask(_, _) => if c.queue[0].SendTask? && c.status != Disconnected then c.queue[0].data else []
    case _ => []
  }

  // ----- What a step queues and calls -----

  /** Which steps tear the connection down: a queued close, the end of the input, an error
      that is not to be retried, a peer that is gone. */
  predicate Tears(s: State, a: Action)
    requires Enabled(s, a)
  {
    var c := s.conn;
    match a
    case ReadEvent(r, _) => r.Eof? || r.ReadError?
    case WriteEvent(k, _) => k.PeerGone? || k.OtherError?
    case SendHere(_, k, _) => Asked(s, a) && k.PeerGone?
    case RunTask(k, _) => (c.queue[0].CloseTask? && c.status != Disconnected) || (Asked(s, a) && k.PeerGone?)
    case _ => false
  }

  /** The part of the queue that was there before and is still to run. */
  function Remaining(s: State, a: Action): seq<Task>
    requires Enabled(s, a)
  {
    if a.RunTask? then s.conn.queue[1..] else s.conn.queue
  }

  /** The notices a step queues, told from the sizes of the output buffer before and after:
      the high water mark is reported when the buffer comes to reach it, completion when the
      kernel took what there was and nothing is left. */
  function Notices(cfg: Config, accepted: bool, before: nat, after: nat): seq<Task> {
    if cfg.highWaterMark.Some? && before < cfg.highWaterMark.value <= after then [NoticeTask(HighWater(after))]
    else if cfg.writeCompleteFn && accepted && after == 0 then [NoticeTask(WriteComplete)]
    else []
  }

  /** How many times the callbacks of a teardown in this step call `Close` again. */
  function ClosesIn(a: Action): nat {
    match a
    case SendHere(_, _, closes) => closes
    case ReadEvent(_, closes) => closes
    case WriteEvent(_, closes) => closes
    case RunTask(_, closes) => closes
    case _ => 0
  }

  function Added(s: State, a: Action, before: nat, after: nat): seq<Task>
    requires Enabled(s, a)
  {
    if a.CloseQueue? then [CloseTask]
    else if a.SendPosted? then [SendTask(a.data)]
    else if Tears(s, a) then seq(ClosesIn(a), _ => CloseTask)
    else Notices(s.conn.cfg, Asked(s, a) && Answer(a).Accepted?, before, after)
  }

  /** The callbacks a step makes. */
  function Called(s: State, a: Action): seq<Event>
    requires Enabled(s, a)
  {
    if a.Attach? then if s.conn.cfg.connFn then [ConnUp] else []
    else if a.ReadEvent? && a.r.Data? then [Message(a.r.bytes)]
    else if Tears(s, a) then TeardownCalls(s.conn.cfg)
    else if a.RunTask? && s.conn.queue[0].NoticeTask? then [s.conn.queue[0].event]
    else []
  }

  lemma TeardownEffect(c: Conn, closes: nat)
    requires c.status == Disconnecting && c.chan.Valid() && !c.chan.closed
    ensures var d := HandleClose(c, closes);
            && d.queue == c.queue + seq(closes, _ => CloseTask) && d.log == c.log + TeardownCalls(c.cfg)
            && d.chan.closed && !d.chan.attached && d.status == Disconnected
            && d.wire == c.wire && d.given == c.given && d.out == c.out && Kept(c, d)
  {
    assert [ConnDown] + [CloseFn] == [ConnDown, CloseFn];
  }

  /** What no handler touches while the channel stays open. */
  predicate Kept(c: Conn, d: Conn) {
    d.cfg == c.cfg && d.started == c.started
    && (!d.chan.closed ==> d.chan.readable == c.chan.readable && d.status == c.status)
  }

  predicate Usable(c: Conn) {
    c.status != Disconnected && c.chan.Valid() && !c.chan.closed && (c.chan.writable <==> c.out != [])
  }

  /** A send to a peer that is gone tears the connection down; any other sends or buffers. */
  lemma SendEffect(c: Conn, data: seq<byte>, k: SendResult, closes: nat)
    requires Usable(c) && SendAllowed(data, k)
    ensures var d := SendInLoop(c, data, k, closes);
            if c.out == [] && k.PeerGone? then
              && d == HandleClose(c.(status := Disconnecting), closes)
            else
              && d.chan.closed == c.chan.closed && d.log == c.log && d.given == c.given + data && Kept(c, d)
              && d.wire == c.wire + (if c.out == [] && k.Accepted? then data[..k.n] else [])
              && d.queue == c.queue + Notices(c.cfg, c.out == [] && k.Accepted?, |c.out|, |d.out|)
  {
    EmptyRight(c.wire);
    EmptyRight(c.queue);
  }

  lemma WriteEffect(c: Conn, k: SendResult, closes: nat)
    requires Usable(c) && c.chan.writable && (k.Accepted? ==> 0 < k.n <= |c.out|)
    ensures var d := HandleWrite(c, k, closes);
            if k.PeerGone? || k.OtherError? then d == HandleClose(c.(status := Disconnecting), closes)
            else
              && d.chan.closed == c.chan.closed && d.log == c.log && d.given == c.given && Kept(c, d)
              && d.wire == c.wire + (if k.Accepted? then c.out[..k.n] else [])
              && d.queue == c.queue + Notices(c.cfg, k.Accepted?, |c.out|, |d.out|)
              && (k.Retry? ==> d == c)
  {
    EmptyRight(c.wire);
    EmptyRight(c.queue);
  }

  /** An ended or broken input tears the connection down; data is handed to the callback. */
  lemma ReadEffect(c: Conn, r: ReadResult, closes: nat)
    requires c.chan.Valid() && !c.chan.closed
    ensures var d := HandleRead(c, r, closes);
            && d.wire == c.wire && d.given == c.given && d.out == c.out && Kept(c, d)
            && (if r.Eof? || r.ReadError? then
                  && d.queue == c.queue + seq(closes, _ => CloseTask) && d.log == c.log + TeardownCalls(c.cfg)
                  && d.chan.closed && !d.chan.attached && d.status == Disconnected
                else
                  && d.chan == c.chan && d.queue == c.queue && d.status == c.status
                  && d.log == c.log + (if r.Data? then [Message(r.bytes)] else []))
  {
    TeardownEffect(c.(status := Disconnecting), closes);
    TeardownEffect(c.(chan := DisableRead(c.chan), status := Disconnecting), closes);
    EmptyRight(c.log);
  }

  function StatusAfter(s: State, a: Action): Status
    requires Enabled(s, a)
  {
    if a.Attach? then Connected
    else if a.CloseMark? then Disconnecting
    else if Tears(s, a) then Disconnected
    else s.conn.status
  }

  /** One step as its effect on wire, data, queue and callbacks. */
  predicate Explained(s: State, a: Action, d: Conn)
    requires Enabled(s, a)
  {
    var c := s.conn;
    && |d.wire| == |c.wire| + Took(s, a) && c.wire <= d.wire
    && (!d.chan.closed ==> d.given == c.given + Handed(s, a))
    && d.queue == Remaining(s, a) + Added(s, a, |c.out|, |d.out|)
    && d.log == c.log + Called(s, a)
    && (d.chan.closed <==> c.chan.closed || Tears(s, a))
    && (Tears(s, a) ==> !d.chan.attached) && d.status == StatusAfter(s, a)
    && d.cfg == c.cfg && d.started == (c.started || a.Attach?)
    && (!d.chan.closed ==> d.chan.readable == (c.chan.readable || a.Attach?))
  }

  lemma SendExplained(s: State, data: seq<byte>, k: SendResult, closes: nat)
    requires Inv(s) && SendAllowed(data, k)
    ensures Explained(s, SendHere(data, k, closes), Step(s, SendHere(data, k, closes)).conn)
  {
    var c := s.conn;
    EmptyRight(c.queue);
    EmptyRight(c.log);
    EmptyRight(c.given);
    if c.status == Connected {
      SendEffect(c, data, k, closes);
      TeardownEffect(c.(status := Disconnecting), closes);
    }
  }

  lemma WriteExplained(s: State, k: SendResult, closes: nat)
    requires Inv(s) && Enabled(s, WriteEvent(k, closes))
    ensures Explained(s, WriteEvent(k, closes), Step(s, WriteEvent(k, closes)).conn)
  {
    var c := s.conn;
    EmptyRight(c.log);
    EmptyRight(c.given);
    WriteEffect(c, k, closes);
    TeardownEffect(c.(status := Disconnecting), closes);
  }

  lemma ReadExplained(s: State, r: ReadResult, closes: nat)
    requires Inv(s) && Enabled(s, ReadEvent(r, closes))
    ensures Explained(s, ReadEvent(r, closes), Step(s, ReadEvent(r, closes)).conn)
  {
    EmptyRight(s.conn.queue);
    EmptyRight(s.conn.given);
    ReadEffect(s.conn, r, closes);
  }

  lemma TaskExplained(s: State, k: SendResult, closes: nat)
    requires Inv(s) && Enabled(s, RunTask(k, closes))
    ensures Explained(s, RunTask(k, closes), Step(s, RunTask(k, closes)).conn)
  {
    var c := s.conn;
    var d := c.(queue := c.queue[1..]);
    EmptyRight(d.queue);
    EmptyRight(c.log);
    EmptyRight(c.given);
    if c.queue[0].SendTask? && c.status != Disconnected {
      SendEffect(d, c.queue[0].data, k, closes);
      TeardownEffect(d.(status := Disconnecting), closes);
    } else if c.queue[0].CloseTask? && c.status != Disconnected {
      TeardownEffect(d, closes);
    }
  }

  /** Every step does what its action and the kernel's answer say: so many bytes more on the
      wire, that data taken over, those tasks queued, those callbacks made, and the channel
      closed exactly by a teardown. */
  lemma StepExplained(s: State, a: Action)
    requires Inv(s) && Enabled(s, a)
    ensures Explained(s, a, Step(s, a).conn)
  {
    match a {
      case SendHere(data, k, closes) => SendExplained(s, data, k, closes);
      case WriteEvent(k, closes) => WriteExplained(s, k, closes);
      case ReadEvent(r, closes) => ReadExplained(s, r, closes);
      case RunTask(k, closes) => TaskExplained(s, k, closes);
      case _ =>
        EmptyRight(s.conn.queue);
        EmptyRight(s.conn.log);
        EmptyRight(s.conn.given);
    }
  }

  /** A kernel that is busy changes nothing on a write event. */
  lemma RetryKeeps(s: State, closes: nat)
    requires Inv(s) && Enabled(s, WriteEvent(Retry, closes))
    ensures Step(s, WriteEvent(Retry, closes)) == s
  {
    WriteEffect(s.conn, Retry, closes);
  }

  // ----- Whole runs -----

  function TookAll(s: State, actions: seq<Action>): nat
    requires Inv(s) && Path(s, actions)
    decreases |actions|
  {
    if actions == [] then 0
    else
      StepPreserves(s, actions[0]);
      Took(s, actions[0]) + TookAll(Step(s, actions[0]), actions[1..])
  }

  function HandedAll(s: State, actions: seq<Action>): seq<byte>
    requires Inv(s) && Path(s, actions)
    decreases |actions|
  {
    if actions == [] then []
    else
      StepPreserves(s, actions[0]);
      Handed(s, actions[0]) + HandedAll(Step(s, actions[0]), actions[1..])
  }

  lemma {:induction false} RunTakes(s: State, actions: seq<Action>)
    requires Inv(s) && Path(s, actions)
    ensures |After(s, actions).conn.wire| == |s.conn.wire| + TookAll(s, actions)
    decreases |actions|
  {
    if actions != [] {
      StepPreserves(s, actions[0]);
      StepExplained(s, actions[0]);
      RunTakes(Step(s, actions[0]), actions[1..]);
    }
  }

  lemma {:induction false} RunGives(s: State, actions: seq<Action>)
    requires Inv(s) && Path(s, actions) && !After(s, actions).conn.chan.closed
    ensures After(s, actions).conn.given == s.conn.given + HandedAll(s, actions)
    decreases |actions|
  {
    if actions == [] {
      EmptyRight(s.conn.given);
    } else {
      var t := Step(s, actions[0]);
      StepPreserves(s, actions[0]);
      TeardownOnce(t, actions[1..]);
      StepExplained(s, actions[0]);
      RunGives(t, actions[1..]);
      Associative(s.conn.given, Handed(s, actions[0]), HandedAll(t, actions[1..]));
    }
  }

  /** Once the channel is closed, nothing more gets on the wire. */
  lemma {:induction false} ClosedSendsNothing(s: State, actions: seq<Action>)
    requires Inv(s) && Path(s, actions) && s.conn.chan.closed
    ensures After(s, actions).conn.wire == s.conn.wire
    decreases |actions|
  {
    if actions != [] {
      StepPreserves(s, actions[0]);
      StepExplained(s, actions[0]);
      ClosedSendsNothing(Step(s, actions[0]), actions[1..]);
    }
  }

  /** What is on the wire never runs ahead of what was handed over. */
  lemma {:induction false} WireIsPrefix(s: State, actions: seq<Action>)
    requires Inv(s) && Path(s, actions) && !s.conn.chan.closed
    ensures After(s, actions).conn.wire <= s.conn.given + HandedAll(s, actions)
    decreases |actions|
  {
    if actions != [] {
      var t := Step(s, actions[0]);
      StepPreserves(s, actions[0]);
      StepExplained(s, actions[0]);
      if t.conn.chan.closed {
        assert Took(s, actions[0]) == 0;
        ClosedSendsNothing(t, actions[1..]);
      } else {
        WireIsPrefix(t, actions[1..]);
        Associative(s.conn.given, Handed(s, actions[0]), HandedAll(t, actions[1..]));
      }
    }
  }

  /** The data path over every run. The bytes on the wire number what the kernel's answers say
      it took, and are that many from the front of all data handed over, in order. While the
      connection is open the rest waits in the output buffer, and write interest is set
      exactly when there is any. */
  lemma WireAndBuffer(cfg: Config, actions: seq<Action>)
    requires Path(Init(cfg), actions)
    ensures var c := After(Init(cfg), actions).conn;
            var handed, took := HandedAll(Init(cfg), actions), TookAll(Init(cfg), actions);
            && |c.wire| == took <= |handed| && c.wire == handed[..took]
            && (c.started && !c.chan.closed ==>
                  c.out == handed[took..] && (c.chan.writable <==> c.out != [])
                  && c.chan.attached == (c.chan.readable || c.chan.writable))
  {
    var s := Init(cfg);
    var c := After(s, actions).conn;
    RunTakes(s, actions);
    WireIsPrefix(s, actions);
    EmptyLeft(HandedAll(s, actions));
    if c.started && !c.chan.closed {
      OutputConservation(cfg, actions);
      RunGives(s, actions);
      EmptyLeft(HandedAll(s, actions));
      assert (c.wire + c.out)[..|c.wire|] == c.wire && (c.wire + c.out)[|c.wire|..] == c.out;
    }
  }

  function CallsOf(s: State, actions: seq<Action>): seq<Event>
    requires Inv(s) && Path(s, actions)
    decreases |actions|
  {
    if actions == [] then []
    else
      StepPreserves(s, actions[0]);
      Called(s, actions[0]) + CallsOf(Step(s, actions[0]), actions[1..])
  }

  /** The callbacks of a run are those of its steps, in order. */
  lemma {:induction false} RunCalls(s: State, actions: seq<Action>)
    requires Inv(s) && Path(s, actions)
    ensures After(s, actions).conn.log == s.conn.log + CallsOf(s, actions)
    decreases |actions|
  {
    if actions == [] {
      EmptyRight(s.conn.log);
    } else {
      var t := Step(s, actions[0]);
      StepPreserves(s, actions[0]);
      StepExplained(s, actions[0]);
      RunCalls(t, actions[1..]);
      Associative(s.conn.log, Called(s, actions[0]), CallsOf(t, actions[1..]));
    }
  }

  /** What the message callback was given. */
  function Received(log: seq<Event>): seq<byte> {
    if log == [] then []
    else Received(log[..|log| - 1]) + (if log[|log| - 1].Message? then log[|log| - 1].data else [])
  }

  /** What the reads of a run delivered. */
  function ReadBytes(actions: seq<Action>): seq<byte> {
    if actions == [] then []
    else
      (if actions[0].ReadEvent? && actions[0].r.Data? then actions[0].r.bytes else []) + ReadBytes(actions[1..])
  }

  lemma {:induction false} ReceivedAppend(log: seq<Event>, more: seq<Event>)
    ensures Received(log + more) == Received(log) + Received(more)
  {
    if more == [] {
      EmptyRight(log);
      EmptyRight(Received(log));
    } else {
      var n := |more| - 1;
      var last := if more[n].Message? then more[n].data else [];
      ReceivedAppend(log, more[..n]);
      assert (log + more)[..|log| + n] == log + more[..n];
      Associative(Received(log), Received(more[..n]), last);
    }
  }

  lemma ReceivedOne(e: Event)
    ensures Received([e]) == if e.Message? then e.data else []
  {
    assert [e][..0] == [];
    EmptyLeft(if e.Message? then e.data else []);
  }

  lemma ReceivedTeardown(cfg: Config)
    ensures Received(TeardownCalls(cfg)) == []
  {
    ReceivedOne(ConnDown);
    ReceivedOne(CloseFn);
    ReceivedAppend([ConnDown], [CloseFn]);
    assert [ConnDown] + [CloseFn] == [ConnDown, CloseFn];
  }

  lemma StepReceives(s: State, a: Action)
    requires Inv(s) && Enabled(s, a)
    ensures Received(Called(s, a)) == if a.ReadEvent? && a.r.Data? then a.r.bytes else []
  {
    ReceivedTeardown(s.conn.cfg);
    ReceivedOne(ConnUp);
    if a.ReadEvent? && a.r.Data? {
      ReceivedOne(Message(a.r.bytes));
    } else if a.RunTask? && s.conn.queue[0].NoticeTask? {
      ReceivedOne(s.conn.queue[0].event);
    }
  }

  /** The input path over every run: what the message callback is given is what the reads
      deliver, in order, nothing more and nothing less. */
  lemma {:induction false} ReadsAreDelivered(s: State, actions: seq<Action>)
    requires Inv(s) && Path(s, actions)
    ensures Received(After(s, actions).conn.log) == Received(s.conn.log) + ReadBytes(actions)
    decreases |actions|
  {
    if actions == [] {
      EmptyRight(Received(s.conn.log));
    } else {
      var a, t := actions[0], Step(s, actions[0]);
      StepPreserves(s, a);
      StepExplained(s, a);
      ReceivedAppend(s.conn.log, Called(s, a));
      StepReceives(s, a);
      ReadsAreDelivered(t, actions[1..]);
      Associative(Received(s.conn.log), Received(Called(s, a)), ReadBytes(actions[1..]));
    }
  }

  /** The teardown part of the callbacks over every run, spelled out: none while the channel is
      open; once it is closed the connection's callback and then the owner's, each if there
      is one. */
  lemma TeardownOrder(cfg: Config, actions: seq<Action>)
    requires Path(Init(cfg), actions)
    ensures var c := After(Init(cfg), actions).conn;
            && c.cfg == cfg
            && (!c.chan.closed ==> Teardowns(c.log) == [])
            && (c.chan.closed && cfg.connFn && cfg.closeFn ==> Teardowns(c.log) == [ConnDown, CloseFn])
            && (c.chan.closed && cfg.connFn && !cfg.closeFn ==> Teardowns(c.log) == [ConnDown])
            && (c.chan.closed && !cfg.connFn && cfg.closeFn ==> Teardowns(c.log) == [CloseFn])
            && (c.chan.closed && !cfg.connFn && !cfg.closeFn ==> Teardowns(c.log) == [])
  {
    TeardownOnce(Init(cfg), actions);
    ConfigKept(Init(cfg), actions);
    assert [ConnDown] + [CloseFn] == [ConnDown, CloseFn];
  }

  lemma {:induction false} ConfigKept(s: State, actions: seq<Action>)
    requires Inv(s) && Path(s, actions)
    ensures After(s, actions).conn.cfg == s.conn.cfg
    decreases |actions|
  {
    if actions != [] {
      StepPreserves(s, actions[0]);
      StepExplained(s, actions[0]);
      ConfigKept(Step(s, actions[0]), actions[1..]);
    }
  }

  /** An attached connection reads until it is torn down, and has been announced first. */
  predicate Announced(s: State) {
    var c := s.conn;
    && (!c.started ==> c.log == [] && forall i :: 0 <= i < |c.queue| ==> c.queue[i].SendTask?)
    && (c.started && c.cfg.connFn ==> c.log != [] && c.log[0] == ConnUp)
    && (c.started && !c.chan.closed ==> c.chan.readable && c.chan.attached)
  }

  lemma {:induction false} ReadsUntilTorn(s: State, actions: seq<Action>)
    requires Inv(s) && Announced(s) && Path(s, actions)
    ensures Announced(After(s, actions))
    decreases |actions|
  {
    if actions != [] {
      StepPreserves(s, actions[0]);
      StepExplained(s, actions[0]);
      StepReads(s, actions[0]);
      ReadsUntilTorn(Step(s, actions[0]), actions[1..]);
    }
  }

  lemma StepReads(s: State, a: Action)
    requires Inv(s) && Announced(s) && Enabled(s, a) && Explained(s, a, Step(s, a).conn) && Inv(Step(s, a))
    ensures Announced(Step(s, a))
  {
    var c, d := s.conn, Step(s, a).conn;
    if !d.started {
      assert !Tears(s, a) && Called(s, a) == [];
      assert Added(s, a, |c.out|, |d.out|) == [] || a.SendPosted?;
    }
  }
}
