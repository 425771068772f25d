/** A TCP connection as seen from its own loop: status, event channel, output buffer, the
    callbacks it makes and the tasks it queues, with the kernel's answers as parameters.

    Handlers are functions from state to state. Their preconditions are the assertions the
    program makes, so a run that is defined never trips one of them. */
module TcpConnSpec {
  import opened Bytes
  import opened Wrappers

  datatype Type = Incoming | Outgoing

  datatype Status = Disconnected | Connecting | Connected | Disconnecting

  /** Interest bits, whether they are registered with the loop, and whether the channel was
      closed (its event deleted and its callbacks cleared). */
  datatype Channel = Channel(readable: bool, writable: bool, attached: bool, closed: bool) {
    predicate IsNone() {
      !readable && !writable
    }

    /** Registered exactly while some interest is set; a closed channel has none. */
    predicate Valid() {
      attached == !IsNone() && (closed ==> IsNone())
    }
  }

  function Update(c: Channel): Channel
    requires !c.closed && (c.IsNone() ==> c.attached)
  {
    c.(attached := !c.IsNone())
  }

  function EnableRead(c: Channel): (r: Channel)
    requires c.Valid() && !c.closed
    ensures r.Valid() && !r.closed && r.readable && r.writable == c.writable && r.attached
  {
    if c.readable then c else Update(c.(readable := true))
  }

  function EnableWrite(c: Channel): (r: Channel)
    requires c.Valid() && !c.closed
    ensures r.Valid() && !r.closed && r.writable && r.readable == c.readable && r.attached
  {
    if c.writable then c else Update(c.(writable := true))
  }

  function DisableRead(c: Channel): (r: Channel)
    requires c.Valid() && !c.closed
    ensures r.Valid() && !r.closed && !r.readable && r.writable == c.writable && r.attached == c.writable
  {
    if c.readable then Update(c.(readable := false)) else c
  }

  function DisableWrite(c: Channel): (r: Channel)
    requires c.Valid() && !c.closed
    ensures r.Valid() && !r.closed && !r.writable && r.readable == c.readable && r.attached == c.readable
  {
    if c.writable then Update(c.(writable := false)) else c
  }

  function DisableAll(c: Channel): (r: Channel)
    requires c.Valid() && !c.closed
    ensures r.Valid() && !r.closed && !r.readable && !r.writable && !r.attached
  {
    if c.IsNone() then c else Update(c.(readable := false, writable := false))
  }

  function CloseChannel(c: Channel): (r: Channel)
    requires c.Valid() && !c.closed && !c.attached
    ensures r.Valid() && r.closed
  {
    c.(closed := true)
  }

  /** Calls into the user layer and the owner of the connection. */
  datatype Event = ConnUp | ConnDown | CloseFn | Message(data: seq<byte>) | WriteComplete | HighWater(size: nat)

  /** A functor the connection queues on its loop. */
  datatype Task = CloseTask | SendTask(data: seq<byte>) | NoticeTask(event: Event)

  datatype Config = Config(kind: Type, connFn: bool, closeFn: bool, writeCompleteFn: bool, highWaterMark: Option<nat>)

  /** The answer of `::send`: bytes accepted, or one of the error classes the code tells apart. */
  datatype SendResult = Accepted(n: nat) | Retry | PeerGone | OtherError

  datatype ReadResult = Data(bytes: seq<byte>) | Eof | ReadRetry | ReadError

  datatype Conn = Conn(
    cfg: Config,
    status: Status,
    started: bool,               // history: OnAttachedToLoop has run
    chan: Channel,
    out: seq<byte>,             // output_buffer_
    queue: seq<Task>,
    wire: seq<byte>,            // history: bytes the kernel accepted
    given: seq<byte>,           // history: bytes handed to SendInLoop
    log: seq<Event>)            // history: callbacks made

  function NewConn(cfg: Config): Conn {
    Conn(cfg, Disconnected, false, Channel(false, false, false, false), [], [], [], [], [])
  }

  function Closes(n: nat): seq<Task> {
    seq(n, _ => CloseTask)
  }

  /** The callbacks of one teardown. */
  function TeardownEvents(cfg: Config): seq<Event> {
    (if cfg.connFn then [ConnDown] else []) + (if cfg.closeFn then [CloseFn] else [])
  }

  /** Torn down at most once: with the closing status and an open channel, or already done. */
  predicate CanHandleClose(c: Conn) {
    c.status != Disconnected ==> c.status == Disconnecting && c.chan.Valid() && !c.chan.closed
  }

  /** `closes` is the number of times the callbacks made on the way call `Close` again; each
      of those calls queues another close and leaves the status as it is. */
  function HandleClose(c: Conn, closes: nat): Conn
    requires CanHandleClose(c)
  {
    if c.status == Disconnected then c
    else c.(chan := CloseChannel(DisableAll(c.chan)),
            log := c.log + TeardownEvents(c.cfg),
            queue := c.queue + Closes(closes),
            status := Disconnected)
  }

  function HandleError(c: Conn, closes: nat): Conn
    requires c.chan.Valid() && !c.chan.closed
  {
    HandleClose(c.(status := Disconnecting), closes)
  }

  predicate CrossesMark(cfg: Config, oldLen: nat, newLen: nat) {
    cfg.highWaterMark.Some? && oldLen < cfg.highWaterMark.value <= newLen
  }

  /** The tail of a send: what the kernel did not take goes to the output buffer. */
  function Buffered(c: Conn, remaining: seq<byte>): Conn
    requires c.chan.Valid() && !c.chan.closed
  {
    if remaining == [] then c
    else
      var size := |c.out| + |remaining|;
      c.(queue := c.queue + if CrossesMark(c.cfg, |c.out|, size) then [NoticeTask(HighWater(size))] else [],
         out := c.out + remaining,
         chan := EnableWrite(c.chan))
  }

  predicate SendAllowed(data: seq<byte>, k: SendResult) {
    k.Accepted? ==> k.n <= |data|
  }

  function Notified(c: Conn): Conn {
    if c.cfg.writeCompleteFn then c.(queue := c.queue + [NoticeTask(WriteComplete)]) else c
  }

  function SendInLoop(c: Conn, data: seq<byte>, k: SendResult, closes: nat): Conn
    requires c.status != Disconnected ==> c.chan.Valid() && !c.chan.closed
    requires SendAllowed(data, k)
  {
    if c.status == Disconnected then c
    else if SendsDirectly(c) && k == PeerGone then HandleError(c, closes)
    else Buffered(Sent(c, data, k), if SendsDirectly(c) && k.Accepted? then data[k.n..] else data)
  }

  /** Nothing is waiting, so the data goes to the kernel at once. */
  predicate SendsDirectly(c: Conn) {
    !c.chan.writable && c.out == []
  }

  /** After what the kernel took, before the rest is buffered. */
  function Sent(c: Conn, data: seq<byte>, k: SendResult): Conn
    requires SendAllowed(data, k)
  {
    var d := c.(given := c.given + data);
    if SendsDirectly(c) && k.Accepted? then
      var sent := d.(wire := d.wire + data[..k.n]);
      if k.n == |data| then Notified(sent) else sent
    else d
  }

  function HandleRead(c: Conn, k: ReadResult, closes: nat): Conn
    requires c.chan.Valid() && !c.chan.closed
  {
    match k
    case Data(bytes) => c.(log := c.log + [Message(bytes)])
    case Eof =>
      if c.cfg.kind == Outgoing then HandleClose(c.(status := Disconnecting), closes)
      else HandleClose(c.(chan := DisableRead(c.chan), status := Disconnecting), closes)
    case ReadRetry => c
    case ReadError => HandleError(c, closes)
  }

  /** A zero return of `::send` takes the error path with whatever `errno` says, so it is
      covered by the two error answers. */
  function HandleWrite(c: Conn, k: SendResult, closes: nat): Conn
    requires c.chan.Valid() && !c.chan.closed && c.chan.writable
    requires k.Accepted? ==> 0 < k.n <= |c.out|
  {
    match k
    case Accepted(n) =>
      var d := c.(wire := c.wire + c.out[..n], out := c.out[n..]);
      if d.out == [] then Notified(d.(chan := DisableWrite(d.chan))) else d
    case Retry => c
    case _ => HandleError(c, closes)
  }

  function OnAttachedToLoop(c: Conn): Conn
    requires c.chan.Valid() && !c.chan.closed
  {
    c.(status := Connected, started := true, chan := EnableRead(c.chan),
       log := if c.cfg.connFn then c.log + [ConnUp] else c.log)
  }

  // ----- Runs -----

  /** What can happen to a connection. A `Close` from another thread sets the status first
      and queues its functor later; a send from another thread only queues. Callback bodies
      are further actions, except inside a teardown, where they are the `closes` argument. */
  datatype Action =
    | Attach
    | CloseMark
    | CloseQueue
    | SendHere(data: seq<byte>, k: SendResult, closes: nat)
    | SendPosted(data: seq<byte>)
    | ReadEvent(r: ReadResult, closes: nat)
    | WriteEvent(k: SendResult, closes: nat)
    | RunTask(k: SendResult, closes: nat)

  /** `marks` counts the calls of `Close` that have set the status and not queued yet. */
  datatype State = State(conn: Conn, marks: nat)

  function Init(cfg: Config): State {
    State(NewConn(cfg), 0)
  }

  predicate Enabled(s: State, a: Action) {
    var c := s.conn;
    match a
    case Attach => !c.started
    case CloseMark => c.status != Disconnected
    case CloseQueue => s.marks > 0
    case SendHere(data, k, _) => SendAllowed(data, k)
    case SendPosted(_) => true
    case ReadEvent(_, _) => c.chan.attached && c.chan.readable
    case WriteEvent(k, _) => c.chan.attached && c.chan.writable && (k.Accepted? ==> 0 < k.n <= |c.out|)
    case RunTask(k, _) => c.queue != [] && (c.queue[0].SendTask? ==> SendAllowed(c.queue[0].data, k))
  }

  /** The events that belong to a teardown. */
  function Teardowns(log: seq<Event>): seq<Event> {
    if log == [] then []
    else
      var e := log[|log| - 1];
      var before := Teardowns(log[..|log| - 1]);
      if e.ConnDown? || e.CloseFn? then before + [e] else before
  }

  predicate NoClose(q: seq<Task>) {
    forall i :: 0 <= i < |q| ==> !q[i].CloseTask?
  }

  predicate Quiet(q: seq<Task>) {
    forall i :: 0 <= i < |q| && q[i].NoticeTask? ==> q[i].event.WriteComplete? || q[i].event.HighWater?
  }

  /** Before the loop has taken the connection over. */
  predicate Fresh(s: State) {
    var c := s.conn;
    && c.status == Disconnected
    && c.chan == Channel(false, false, false, false)
    && s.marks == 0
    && NoClose(c.queue)
    && c.out == []
    && c.wire == c.given
  }

  /** Between that and the teardown. */
  predicate Open(s: State) {
    var c := s.conn;
    && (c.status == Connected || c.status == Disconnecting)
    && (c.status == Connected ==> s.marks == 0 && NoClose(c.queue))
    && c.wire + c.out == c.given
    && (c.chan.writable <==> c.out != [])
  }

  predicate Inv(s: State) {
    var c := s.conn;
    && c.chan.Valid()
    && Quiet(c.queue)
    && (!c.started ==> Fresh(s))
    && (c.started && !c.chan.closed ==> Open(s))
    && (c.chan.closed ==> c.started && c.status == Disconnected)
    && Teardowns(c.log) == (if c.chan.closed then TeardownEvents(c.cfg) else [])
  }

  /** Every assertion of the program that the step would run into holds. */
  predicate Safe(s: State, a: Action)
    requires Enabled(s, a)
  {
    var c := s.conn;
    var usable := c.chan.Valid() && !c.chan.closed;
    match a
    case Attach => usable
    case SendHere(_, _, _) => c.status == Connected ==> usable
    case ReadEvent(_, _) => usable
    case WriteEvent(_, _) => usable
    case RunTask(_, _) =>
      (c.queue[0] == CloseTask ==> CanHandleClose(c)) && (c.queue[0].SendTask? && c.status != Disconnected ==> usable)
    case _ => true
  }

  function Act(s: State, a: Action): State
    requires Enabled(s, a) && Safe(s, a)
  {
    var c := s.conn;
    match a
    case Attach => s.(conn := OnAttachedToLoop(c))
    case CloseMark => Marked(s)
    case CloseQueue => State(c.(queue := c.queue + [CloseTask]), s.marks - 1)
    case SendHere(data, k, closes) =>
      if c.status == Connected then s.(conn := SendInLoop(c, data, k, closes)) else s
    case SendPosted(data) => s.(conn := c.(queue := c.queue + [SendTask(data)]))
    case ReadEvent(r, closes) => s.(conn := HandleRead(c, r, closes))
    case WriteEvent(k, closes) => s.(conn := HandleWrite(c, k, closes))
    case RunTask(k, closes) =>
      var t := c.queue[0];
      var d := c.(queue := c.queue[1..]);
      match t
      case CloseTask => s.(conn := HandleClose(d, closes))
      case SendTask(data) => s.(conn := SendInLoop(d, data, k, closes))
      case NoticeTask(e) => s.(conn := d.(log := d.log + [e]))
  }

  /** A call of `Close` that has stored the status and not queued its functor yet. */
  function Marked(s: State): State {
    State(s.conn.(status := Disconnecting), s.marks + 1)
  }

  function Step(s: State, a: Action): State
    requires Inv(s) && Enabled(s, a)
  {
    InvIsSafe(s, a);
    Act(s, a)
  }

  lemma InvIsSafe(s: State, a: Action)
    requires Inv(s) && Enabled(s, a)
    ensures Safe(s, a)
  {
  }

  // ----- Preservation -----

  lemma {:induction false} TeardownsAppend(log: seq<Event>, more: seq<Event>)
    ensures Teardowns(log + more) == Teardowns(log) + Teardowns(more)
  {
    if more == [] {
      assert log + more == log;
    } else {
      var n := |more| - 1;
      TeardownsAppend(log, more[..n]);
      assert (log + more)[..|log| + n] == log + more[..n];
      assert Teardowns(log) + (Teardowns(more[..n]) + [more[n]]) == Teardowns(log) + Teardowns(more[..n]) + [more[n]];
    }
  }

  lemma TeardownOfEvents(cfg: Config)
    ensures Teardowns(TeardownEvents(cfg)) == TeardownEvents(cfg)
  {
    assert [ConnDown, CloseFn][..1] == [ConnDown];
    assert Teardowns([ConnDown]) == [ConnDown] && Teardowns([CloseFn]) == [CloseFn];
    assert [ConnDown] + [CloseFn] == [ConnDown, CloseFn];
  }

  lemma TeardownOfOther(e: Event)
    requires !e.ConnDown? && !e.CloseFn?
    ensures Teardowns([e]) == []
  {
  }

  /** The first teardown, from any open state. */
  lemma FirstTeardown(s: State, closes: nat)
    requires Inv(s) && s.conn.started && !s.conn.chan.closed
    ensures var d := HandleClose(s.conn.(status := Disconnecting), closes); Inv(s.(conn := d)) && d.chan.closed
  {
    TeardownsAppend(s.conn.log, TeardownEvents(s.conn.cfg));
    TeardownOfEvents(s.conn.cfg);
  }

  lemma SendPreserves(s: State, data: seq<byte>, k: SendResult, closes: nat)
    requires Inv(s) && SendAllowed(data, k)
    ensures Inv(s.(conn := SendInLoop(s.conn, data, k, closes)))
  {
    var c := s.conn;
    if c.status != Disconnected {
      if !c.chan.writable && c.out == [] && k.PeerGone? {
        FirstTeardown(s, closes);
      } else {
        SendConserves(c, data, k, closes);
      }
    }
  }

  lemma SendConserves(c: Conn, data: seq<byte>, k: SendResult, closes: nat)
    requires c.status != Disconnected && c.chan.Valid() && !c.chan.closed && SendAllowed(data, k)
    requires !(!c.chan.writable && c.out == [] && k.PeerGone?)
    requires c.wire + c.out == c.given && (c.chan.writable <==> c.out != [])
    ensures var d := SendInLoop(c, data, k, closes);
            && d.given == c.given + data && d.wire + d.out == d.given
            && (d.chan.writable <==> d.out != []) && d.chan.Valid() && !d.chan.closed
            && d.status == c.status && d.log == c.log && d.started == c.started && d.cfg == c.cfg
            && c.queue <= d.queue && forall i :: |c.queue| <= i < |d.queue| ==>
                 d.queue[i].NoticeTask? && (d.queue[i].event.WriteComplete? || d.queue[i].event.HighWater?)
  {
    var direct := !c.chan.writable && c.out == [] && k.Accepted?;
    if direct {
      assert c.wire == c.given;
      assert c.wire + data[..k.n] + data[k.n..] == c.given + data;
    } else {
      assert c.wire + (c.out + data) == c.wire + c.out + data;
    }
  }

  lemma WritePreserves(s: State, k: SendResult, closes: nat)
    requires Inv(s) && Enabled(s, WriteEvent(k, closes))
    ensures Inv(Step(s, WriteEvent(k, closes)))
  {
    var c := s.conn;
    if k.Accepted? {
      assert c.wire + c.out[..k.n] + c.out[k.n..] == c.wire + c.out;
    } else if !k.Retry? {
      FirstTeardown(s, closes);
    }
  }

  lemma ReadPreserves(s: State, r: ReadResult, closes: nat)
    requires Inv(s) && Enabled(s, ReadEvent(r, closes))
    ensures Inv(Step(s, ReadEvent(r, closes)))
  {
    var c := s.conn;
    match r
    case Data(bytes) =>
      TeardownsAppend(c.log, [Message(bytes)]);
      TeardownOfOther(Message(bytes));
    case Eof =>
      FirstTeardown(s, closes);
      if c.cfg.kind == Incoming {
        FirstTeardown(s.(conn := c.(chan := DisableRead(c.chan))), closes);
      }
    case ReadRetry =>
    case ReadError => FirstTeardown(s, closes);
  }

  lemma TaskPreserves(s: State, k: SendResult, closes: nat)
    requires Inv(s) && Enabled(s, RunTask(k, closes))
    ensures Inv(Step(s, RunTask(k, closes)))
  {
    var c := s.conn;
    var t := c.queue[0];
    var d := s.(conn := c.(queue := c.queue[1..]));
    assert Inv(d);
    match t
    case CloseTask =>
      if c.started && !c.chan.closed {
        assert c.status == Disconnecting;
        assert d.conn.(status := Disconnecting) == d.conn;
        FirstTeardown(d, closes);
      }
    case SendTask(data) => SendPreserves(d, data, k, closes);
    case NoticeTask(e) =>
      TeardownsAppend(c.log, [e]);
      TeardownOfOther(e);
  }

  lemma StepPreserves(s: State, a: Action)
    requires Inv(s) && Enabled(s, a)
    ensures Inv(Step(s, a))
  {
    match a
    case Attach =>
      if s.conn.cfg.connFn {
        TeardownsAppend(s.conn.log, [ConnUp]);
        TeardownOfOther(ConnUp);
      }
    case SendHere(data, k, closes) => SendPreserves(s, data, k, closes);
    case ReadEvent(r, closes) => ReadPreserves(s, r, closes);
    case WriteEvent(k, closes) => WritePreserves(s, k, closes);
    case RunTask(k, closes) => TaskPreserves(s, k, closes);
    case _ =>
  }

  ghost predicate Path(s: State, actions: seq<Action>)
    requires Inv(s)
    decreases |actions|
  {
    actions == [] ||
    (Enabled(s, actions[0]) && (StepPreserves(s, actions[0]); Path(Step(s, actions[0]), actions[1..])))
  }

  ghost function After(s: State, actions: seq<Action>): (t: State)
    requires Inv(s) && Path(s, actions)
    decreases |actions|
  {
    if actions == [] then s else (StepPreserves(s, actions[0]); After(Step(s, actions[0]), actions[1..]))
  }

  lemma {:induction false} RunPreserves(s: State, actions: seq<Action>)
    requires Inv(s) && Path(s, actions)
    ensures Inv(After(s, actions))
    decreases |actions|
  {
    if actions != [] {
      StepPreserves(s, actions[0]);
      RunPreserves(Step(s, actions[0]), actions[1..]);
    }
  }

  // ----- Main results -----

  /** In every run, while the connection is open, the bytes the kernel accepted followed by
      the output buffer are all the data given to it, in order, and write interest is set
      exactly when the output buffer is not empty. */
  lemma OutputConservation(cfg: Config, actions: seq<Action>)
    requires Path(Init(cfg), actions)
    ensures var c := After(Init(cfg), actions).conn;
            c.started && !c.chan.closed ==>
              && c.wire + c.out == c.given
              && (c.chan.writable <==> c.out != [])
              && c.chan.attached == (c.chan.readable || c.chan.writable)
  {
    RunPreserves(Init(cfg), actions);
  }

  /** The callbacks of a teardown: the connection's, then the owner's. */
  function TeardownCalls(cfg: Config): seq<Event> {
    if cfg.connFn && cfg.closeFn then [ConnDown, CloseFn]
    else if cfg.connFn then [ConnDown]
    else if cfg.closeFn then [CloseFn]
    else []
  }

  lemma TeardownLiteral(cfg: Config)
    ensures TeardownEvents(cfg) == TeardownCalls(cfg)
  {
    assert [ConnDown] + [CloseFn] == [ConnDown, CloseFn];
  }

  /** In every run the teardown callbacks happen at most once, the connection's before the
      owner's, exactly when the channel was closed, and a torn-down connection never leaves that state again: whatever
      happens next, nothing more is sent and no teardown callback is made. */
  lemma {:induction false} TeardownOnce(s: State, actions: seq<Action>)
    requires Inv(s) && Path(s, actions)
    ensures var c := After(s, actions).conn;
            && Teardowns(c.log) == (if c.chan.closed then TeardownCalls(c.cfg) else [])
            && (c.chan.closed ==> c.status == Disconnected)
    ensures s.conn.chan.closed ==>
              var c := After(s, actions).conn; c.chan.closed && c.wire == s.conn.wire && c.given == s.conn.given
    decreases |actions|
  {
    TeardownLiteral(s.conn.cfg);
    if actions != [] {
      StepPreserves(s, actions[0]);
      TeardownOnce(Step(s, actions[0]), actions[1..]);
    }
  }

  /** A close that has been asked for happens: running the queued close tears an open
      connection down. */
  lemma QueuedCloseTearsDown(s: State, k: SendResult, closes: nat)
    requires Inv(s) && s.conn.started && s.conn.queue != [] && s.conn.queue[0] == CloseTask
    ensures Enabled(s, RunTask(k, closes)) && Step(s, RunTask(k, closes)).conn.chan.closed
  {
  }

  // ----- Calling `Close` at any time -----

  /** Runs from any state, as long as no assertion fails. */
  ghost predicate FreePath(s: State, actions: seq<Action>)
    decreases |actions|
  {
    actions == [] || (Enabled(s, actions[0]) && Safe(s, actions[0]) && FreePath(Act(s, actions[0]), actions[1..]))
  }

  ghost function FreeAfter(s: State, actions: seq<Action>): State
    requires FreePath(s, actions)
    decreases |actions|
  {
    if actions == [] then s else FreeAfter(Act(s, actions[0]), actions[1..])
  }

  /** However the run goes on, no assertion fails. */
  ghost predicate Harmless(s: State) {
    forall actions: seq<Action>, a: Action ::
      FreePath(s, actions) && Enabled(FreeAfter(s, actions), a) ==> Safe(FreeAfter(s, actions), a)
  }

  lemma {:induction false} FreeRunPreserves(s: State, actions: seq<Action>)
    requires Inv(s) && FreePath(s, actions)
    ensures Inv(FreeAfter(s, actions))
    decreases |actions|
  {
    if actions != [] {
      StepPreserves(s, actions[0]);
      FreeRunPreserves(Step(s, actions[0]), actions[1..]);
    }
  }

  lemma InvIsHarmless(s: State)
    requires Inv(s)
    ensures Harmless(s)
  {
    forall actions: seq<Action>, a: Action | FreePath(s, actions) && Enabled(FreeAfter(s, actions), a)
      ensures Safe(FreeAfter(s, actions), a)
    {
      FreeRunPreserves(s, actions);
      InvIsSafe(FreeAfter(s, actions), a);
    }
  }

  lemma PathCons(s: State, a: Action, actions: seq<Action>)
    requires Enabled(s, a) && Safe(s, a) && FreePath(Act(s, a), actions)
    ensures FreePath(s, [a] + actions) && FreeAfter(s, [a] + actions) == FreeAfter(Act(s, a), actions)
  {
    assert ([a] + actions)[1..] == actions;
  }

  lemma HarmlessStep(s: State, a: Action)
    requires Harmless(s) && Enabled(s, a)
    ensures Safe(s, a) && Harmless(Act(s, a))
  {
    assert FreePath(s, []) && FreeAfter(s, []) == s;
    assert Safe(s, a);
    forall actions: seq<Action>, b: Action | FreePath(Act(s, a), actions) && Enabled(FreeAfter(Act(s, a), actions), b)
      ensures Safe(FreeAfter(Act(s, a), actions), b)
    {
      PathCons(s, a, actions);
      var t := FreeAfter(s, [a] + actions);
      assert Enabled(t, b) && Safe(t, b);
    }
  }

  /** The close waiting at place `i` is the first in the queue. */
  predicate FirstClose(q: seq<Task>, i: nat) {
    i < |q| && q[i] == CloseTask && NoClose(q[..i])
  }

  lemma FirstCloseNext(q: seq<Task>, i: nat, more: seq<Task>)
    requires FirstClose(q, i) && i > 0
    ensures !q[0].CloseTask? && FirstClose(q[1..] + more, i - 1)
  {
    assert q[..i][0] == q[0];
    assert (q[1..] + more)[..i - 1] == q[..i][1..];
  }

  /** With the channel closed and the status overwritten, the loop comes to a task whose
      assertion fails: the queued close, or a send before it. */
  lemma {:induction false} ClosedTwiceFails(s: State, i: nat)
    requires s.conn.chan.closed && s.conn.status == Disconnecting && FirstClose(s.conn.queue, i)
    ensures !Harmless(s)
    decreases i
  {
    var run := RunTask(Retry, 0);
    assert Enabled(s, run);
    if Harmless(s) {
      HarmlessStep(s, run);
      FirstCloseNext(s.conn.queue, i, []);
      assert s.conn.queue[1..] + [] == s.conn.queue[1..];
      ClosedTwiceFails(Act(s, run), i - 1);
    }
  }

  /** With the status set back to connected, the queued close meets a status it does not
      accept. */
  lemma {:induction false} ConnectedCloseFails(s: State, i: nat)
    requires s.conn.status == Connected && s.conn.chan.Valid() && !s.conn.chan.closed && FirstClose(s.conn.queue, i)
    ensures !Harmless(s)
    decreases i
  {
    var run := RunTask(Retry, 0);
    assert Enabled(s, run);
    if Harmless(s) {
      HarmlessStep(s, run);
      var d := Act(s, run).conn;
      RetryKeepsQueue(s);
      FirstCloseNext(s.conn.queue, i, d.queue[|s.conn.queue| - 1..]);
      assert d.queue == s.conn.queue[1..] + d.queue[|s.conn.queue| - 1..];
      ConnectedCloseFails(Act(s, run), i - 1);
    }
  }

  /** A task that is not a close, run while the kernel takes nothing, leaves the connection up
      and may queue notices. */
  lemma RetryKeepsQueue(s: State)
    requires s.conn.status == Connected && s.conn.chan.Valid() && !s.conn.chan.closed
    requires s.conn.queue != [] && !s.conn.queue[0].CloseTask?
    ensures Enabled(s, RunTask(Retry, 0)) && Safe(s, RunTask(Retry, 0))
    ensures var d := Act(s, RunTask(Retry, 0)).conn;
            d.status == Connected && d.chan.Valid() && !d.chan.closed && s.conn.queue[1..] <= d.queue
  {
  }

  lemma {:induction false} FirstCloseExists(q: seq<Task>) returns (i: nat)
    requires CloseTask in q
    ensures FirstClose(q, i)
  {
    if q[0] == CloseTask {
      return 0;
    }
    assert q == [q[0]] + q[1..];
    var j := FirstCloseExists(q[1..]);
    assert q[..j + 1] == [q[0]] + q[1..][..j];
    return j + 1;
  }

  /** A further `Close` on a torn-down connection overwrites the status; in some run the loop
      then closes the channel a second time. */
  lemma SecondCloseIsUnsafe(s: State)
    requires Inv(s) && s.conn.chan.closed
    ensures !Harmless(Marked(s))
  {
    var m := Marked(s);
    if Harmless(m) {
      HarmlessStep(m, CloseQueue);
      var t := Act(m, CloseQueue);
      assert t.conn.queue[|s.conn.queue|] == CloseTask;
      var i := FirstCloseExists(t.conn.queue);
      ClosedTwiceFails(t, i);
    }
  }

  /** Nor may `Close` come before the loop has taken the connection over: in some run
      attaching sets the status back to connected before the queued close runs. */
  lemma EarlyCloseIsUnsafe(s: State)
    requires Inv(s) && !s.conn.started
    ensures !Harmless(Marked(s))
  {
    var m := Marked(s);
    if Harmless(m) {
      HarmlessStep(m, CloseQueue);
      var t := Act(m, CloseQueue);
      assert t.conn.queue[|s.conn.queue|] == CloseTask;
      HarmlessStep(t, Attach);
      var i := FirstCloseExists(t.conn.queue);
      ConnectedCloseFails(Act(t, Attach), i);
    }
  }

  /** In the other order the close runs first, and attaching meets a closed channel. */
  lemma EarlyCloseThenAttach(cfg: Config)
    ensures var m := Marked(Init(cfg)); var actions := [CloseQueue, RunTask(Retry, 0)];
            && FreePath(m, actions)
            && var t := FreeAfter(m, actions); t.conn.chan.closed && Enabled(t, Attach) && !Safe(t, Attach)
  {
    var m := Marked(Init(cfg));
    var t := Act(m, CloseQueue);
    assert t.conn.queue == [CloseTask];
    var u := Act(t, RunTask(Retry, 0));
    assert [CloseQueue, RunTask(Retry, 0)][1..] == [RunTask(Retry, 0)] && [RunTask(Retry, 0)][1..] == [];
    assert FreePath(u, []) && FreePath(t, [RunTask(Retry, 0)]);
    assert FreeAfter(t, [RunTask(Retry, 0)]) == FreeAfter(u, []);
  }

  /** The exact condition: after a call of `Close` no assertion can fail, however the run goes
      on, if and only if the status was not disconnected: neither torn down nor not attached
      yet. */
  lemma CloseIff(s: State)
    requires Inv(s)
    ensures Harmless(Marked(s)) <==> s.conn.status != Disconnected
  {
    if s.conn.status != Disconnected {
      StepPreserves(s, CloseMark);
      assert Marked(s) == Step(s, CloseMark);
      InvIsHarmless(Marked(s));
    } else if s.conn.chan.closed {
      SecondCloseIsUnsafe(s);
    } else {
      EarlyCloseIsUnsafe(s);
    }
  }
}
