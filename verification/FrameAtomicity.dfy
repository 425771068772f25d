/** Posting packets from several threads over one connection.

    `PostPacket` checks the connection, takes the lock, encodes into a shared buffer and
    hands that buffer to the connection: at once on the loop thread, through the loop's
    queue from any other. Every access is an atomic step interleaved with the connection's
    own handlers, short writes and errors. Thread 0 is the loop thread. */
module FrameAtomicity {
  import opened Bytes
  import opened FrameParser
  import opened Wrappers
  import opened Sequences
  import opened Net = TcpConnSpec

  /** A packet accepted by the encoder, with the thread that posted it. */
  datatype Post = Post(thread: nat, message: Message)

  /** Where a thread is inside `PostPacket`. A message of `None` is one whose own encoder
      fails. `Passed` lies between the status check of a send and the queueing. */
  datatype Pc = Idle | Checked(m: Option<Message>) | Locked(m: Option<Message>) | Encoded | Passed | Done

  datatype Sys = Sys(
    flag: int32,
    net: Net.State,
    output: seq<byte>,          // output_ of the server connection
    lock: Option<nat>,
    pcs: seq<Pc>,
    posted: seq<Post>,          // history: every frame encoded, in order
    held: seq<Post>,            // history: the frames in `output`
    inflight: seq<Post>,        // history: the frames in the loop's queue
    sent: seq<Post>)            // history: the frames given to the connection

  datatype Act =
    | Check(i: nat, m: Option<Message>)
    | Lock(i: nat)
    | Encode(i: nat)
    | Send(i: nat, k: SendResult, closes: nat)
    | Enqueue(i: nat)
    | Unlock(i: nat)
    | Loop(a: Action)

  function Start(flag: int32, cfg: Config, threads: nat): Sys {
    Sys(flag, Net.Init(cfg), [], None, seq(threads, _ => Idle), [], [], [], [])
  }

  predicate At(s: Sys, i: nat, pc: Pc) {
    i < |s.pcs| && s.pcs[i] == pc
  }

  predicate Connected(s: Sys) {
    s.net.conn.status == Net.Connected
  }

  function Frames(flag: int32, ps: seq<Post>): seq<seq<byte>> {
    seq(|ps|, i requires 0 <= i < |ps| => FrameOf(flag, ps[i].message))
  }

  function WireOf(flag: int32, ps: seq<Post>): seq<byte> {
    Concat(Frames(flag, ps))
  }

  /** The connection's own steps. Data reaches it only through `PostPacket`. */
  predicate LoopEnabled(s: Sys, a: Action) {
    Net.Enabled(s.net, a) && !a.SendHere? && !a.SendPosted?
  }

  predicate Enabled(s: Sys, a: Act) {
    match a
    case Check(i, _) => At(s, i, Idle)
    case Lock(i) => i < |s.pcs| && s.pcs[i].Checked? && s.lock == None
    case Encode(i) => i < |s.pcs| && s.pcs[i].Locked?
    case Send(i, k, _) => At(s, i, Encoded) && SendAllowed(s.output, k)
    case Enqueue(i) => At(s, i, Passed)
    case Unlock(i) => At(s, i, Done)
    case Loop(a) => LoopEnabled(s, a)
  }

  function Next(s: Sys, a: Act): Sys
    requires Net.Inv(s.net) && Enabled(s, a)
  {
    var c := s.net.conn;
    match a
    case Check(i, m) => if Connected(s) then s.(pcs := s.pcs[i := Checked(m)]) else s
    case Lock(i) => s.(pcs := s.pcs[i := Locked(s.pcs[i].m)], lock := Some(i))
    case Encode(i) =>
      var m := s.pcs[i].m;
      var t := s.(pcs := s.pcs[i := Encoded]);
      if m.Some? then
        t.(output := s.output + FrameOf(s.flag, m.value),
           held := s.held + [Post(i, m.value)], posted := s.posted + [Post(i, m.value)])
      else t
    case Send(i, k, closes) =>
      if s.output == [] || !Connected(s) then s.(pcs := s.pcs[i := Done])
      else if i == 0 then
        s.(pcs := s.pcs[i := Done], net := s.net.(conn := SendInLoop(c, s.output, k, closes)),
           output := [], held := [], sent := s.sent + s.held)
      else s.(pcs := s.pcs[i := Passed])
    case Enqueue(i) =>
      s.(pcs := s.pcs[i := Done], net := s.net.(conn := c.(queue := c.queue + [SendTask(s.output)])),
         output := [], held := [], inflight := s.inflight + s.held)
    case Unlock(i) => s.(pcs := s.pcs[i := Idle], lock := None)
    case Loop(a) =>
      var t := s.(net := Net.Step(s.net, a));
      if a.RunTask? && c.queue[0].SendTask? && s.inflight != [] then
        t.(inflight := s.inflight[1..], sent := s.sent + [s.inflight[0]])
      else t
  }

  // ----- The data in the loop's queue -----

  function Sends(q: seq<Task>): seq<seq<byte>> {
    if q == [] then []
    else
      var rest := Sends(q[..|q| - 1]);
      if q[|q| - 1].SendTask? then rest + [q[|q| - 1].data] else rest
  }

  lemma {:induction false} SendsAppend(q: seq<Task>, more: seq<Task>)
    ensures Sends(q + more) == Sends(q) + Sends(more)
  {
    if more == [] {
      assert q + more == q;
    } else {
      var n := |more| - 1;
      SendsAppend(q, more[..n]);
      assert (q + more)[..|q| + n] == q + more[..n];
      if more[n].SendTask? {
        Associative(Sends(q), Sends(more[..n]), [more[n].data]);
      }
    }
  }

  lemma {:induction false} NoSends(q: seq<Task>)
    requires forall i :: 0 <= i < |q| ==> !q[i].SendTask?
    ensures Sends(q) == []
  {
    if q != [] {
      NoSends(q[..|q| - 1]);
    }
  }

  /** `d` follows `c` by a handler that queues notices and closes but no data. */
  predicate OnlyNotices(c: Conn, d: Conn) {
    c.queue <= d.queue && forall i :: |c.queue| <= i < |d.queue| ==> !d.queue[i].SendTask?
  }

  lemma SendsKept(c: Conn, d: Conn)
    requires OnlyNotices(c, d)
    ensures Sends(d.queue) == Sends(c.queue)
  {
    var more := d.queue[|c.queue|..];
    assert d.queue == c.queue + more;
    SendsAppend(c.queue, more);
    NoSends(more);
  }

  /** What a send does to the history of data given and to the queue. */
  lemma SendInLoopEffect(c: Conn, data: seq<byte>, k: SendResult, closes: nat)
    requires c.status != Disconnected ==> c.chan.Valid() && !c.chan.closed
    requires SendAllowed(data, k)
    ensures var d := SendInLoop(c, data, k, closes);
            && OnlyNotices(c, d) && d.started == c.started
            && (d.status == Net.Connected ==> c.status == Net.Connected)
            && (c.status != Disconnected && !d.chan.closed ==> d.given == c.given + data)
            && (c.chan.closed ==> d.chan.closed || c.status != Disconnected)
  {
  }

  lemma LoopEffect(s: Sys, a: Action)
    requires Net.Inv(s.net) && LoopEnabled(s, a) && !a.RunTask?
    ensures var c := s.net.conn; var d := Net.Step(s.net, a).conn;
            && OnlyNotices(c, d)
            && (d.status == Net.Connected ==> c.status == Net.Connected || !c.started)
            && d.given == c.given
            && (c.started ==> d.started) && (c.chan.closed ==> d.chan.closed)
            && (d.started && !c.started ==> a.Attach? && d.queue == c.queue)
  {
  }

  // ----- Invariant -----

  predicate Critical(pc: Pc) {
    pc.Locked? || pc.Encoded? || pc.Passed? || pc.Done?
  }

  predicate MutexInv(s: Sys) {
    && (forall i :: 0 <= i < |s.pcs| && Critical(s.pcs[i]) ==> s.lock == Some(i))
    && (s.lock.Some? ==> s.lock.value < |s.pcs| && Critical(s.pcs[s.lock.value]))
  }

  /** While connected the shared buffer is empty, except that the thread between encoding and
      handing over has its own frame in it. */
  predicate HeldInv(s: Sys) {
    && s.output == WireOf(s.flag, s.held)
    && (Connected(s) ==>
          match s.lock
          case None => s.held == []
          case Some(i) =>
            i < |s.pcs| && if s.pcs[i].Encoded? || s.pcs[i].Passed? then OwnFrame(s, i) else s.held == [])
    && (forall i :: 0 <= i < |s.pcs| && s.pcs[i].Passed? ==> i != 0 && OwnFrame(s, i) && s.held != [])
  }

  predicate OwnFrame(s: Sys, i: nat) {
    |s.held| <= 1 && (s.held != [] ==> s.held[0].thread == i)
  }

  /** Thread by thread, what was posted is what was sent, then what is queued, then what is held. */
  ghost predicate Accounted(sent: seq<Post>, inflight: seq<Post>, held: seq<Post>, posted: seq<Post>) {
    forall t :: Of(sent, t) + Of(inflight, t) + Of(held, t) == Of(posted, t)
  }

  ghost predicate FlowInv(s: Sys) {
    var c := s.net.conn;
    && (!c.started ==> s.posted == [] && s.held == [] && s.sent == [])
    && (forall j :: 0 <= j < |s.inflight| ==> s.inflight[j].thread != 0)
    && Sends(c.queue) == Frames(s.flag, s.inflight)
    && (c.started && !c.chan.closed ==>
          c.given == WireOf(s.flag, s.sent) && Accounted(s.sent, s.inflight, s.held, s.posted))
  }

  ghost predicate Inv(s: Sys) {
    Net.Inv(s.net) && MutexInv(s) && HeldInv(s) && FlowInv(s) && UntouchedInv(s)
  }

  /** Nothing is posted before the loop has taken the connection over. */
  predicate UntouchedInv(s: Sys) {
    !s.net.conn.started ==>
      s.inflight == [] && s.net.conn.given == [] && forall i :: 0 <= i < |s.pcs| ==> s.pcs[i] == Idle
  }

  /** The posts of one thread, in order. */
  function Of(ps: seq<Post>, t: nat): seq<Message> {
    if ps == [] then []
    else
      var rest := Of(ps[..|ps| - 1], t);
      if ps[|ps| - 1].thread == t then rest + [ps[|ps| - 1].message] else rest
  }

  lemma {:induction false} OfAppend(ps: seq<Post>, qs: seq<Post>, t: nat)
    ensures Of(ps + qs, t) == Of(ps, t) + Of(qs, t)
  {
    if qs == [] {
      assert ps + qs == ps;
    } else {
      var n := |qs| - 1;
      OfAppend(ps, qs[..n], t);
      assert (ps + qs)[..|ps| + n] == ps + qs[..n];
      assert Of(ps, t) + (Of(qs[..n], t) + [qs[n].message]) == Of(ps, t) + Of(qs[..n], t) + [qs[n].message];
    }
  }

  lemma ConsAppend(fs: seq<seq<byte>>, gs: seq<seq<byte>>)
    requires fs != []
    ensures Concat(fs + gs) == fs[0] + Concat(fs[1..] + gs) && Concat(fs) == fs[0] + Concat(fs[1..])
  {
    assert (fs + gs)[1..] == fs[1..] + gs;
  }

  lemma {:induction false} ConcatAppend(fs: seq<seq<byte>>, gs: seq<seq<byte>>)
    ensures Concat(fs + gs) == Concat(fs) + Concat(gs)
  {
    if fs == [] {
      assert fs + gs == gs;
    } else {
      var f, rest := fs[0], fs[1..];
      ConcatAppend(rest, gs);
      ConsAppend(fs, gs);
      Associative(f, Concat(rest), Concat(gs));
    }
  }

  lemma OneFrame(flag: int32, p: Post)
    ensures WireOf(flag, [p]) == FrameOf(flag, p.message) && Frames(flag, [p]) == [FrameOf(flag, p.message)]
  {
    var f := FrameOf(flag, p.message);
    assert Frames(flag, [p]) == [f];
    ConcatOne(f);
  }

  lemma ConcatOne(f: seq<byte>)
    ensures Concat([f]) == f
  {
    assert [f][1..] == [];
    assert Concat([f]) == f + [];
  }

  lemma WireAppend(flag: int32, ps: seq<Post>, qs: seq<Post>)
    ensures WireOf(flag, ps + qs) == WireOf(flag, ps) + WireOf(flag, qs)
  {
    assert Frames(flag, ps + qs) == Frames(flag, ps) + Frames(flag, qs);
    ConcatAppend(Frames(flag, ps), Frames(flag, qs));
  }

  lemma {:induction false} OfOthers(ps: seq<Post>, t: nat)
    requires forall j :: 0 <= j < |ps| ==> ps[j].thread != t
    ensures Of(ps, t) == []
  {
    if ps != [] {
      OfOthers(ps[..|ps| - 1], t);
    }
  }

  lemma FramesAreNotEmpty(flag: int32, ps: seq<Post>)
    requires ps != []
    ensures WireOf(flag, ps) != []
  {
    WireAppend(flag, [ps[0]], ps[1..]);
    OneFrame(flag, ps[0]);
    assert [ps[0]] + ps[1..] == ps;
  }

  lemma AccountedEncode(sent: seq<Post>, inflight: seq<Post>, held: seq<Post>, posted: seq<Post>, p: Post)
    requires Accounted(sent, inflight, held, posted)
    ensures Accounted(sent, inflight, held + [p], posted + [p])
  {
    forall t ensures Of(sent, t) + Of(inflight, t) + Of(held + [p], t) == Of(posted + [p], t) {
      OfAppend(held, [p], t);
      OfAppend(posted, [p], t);
      Associative(Of(sent, t) + Of(inflight, t), Of(held, t), Of([p], t));
    }
  }

  lemma AccountedEnqueue(sent: seq<Post>, inflight: seq<Post>, held: seq<Post>, posted: seq<Post>)
    requires Accounted(sent, inflight, held, posted)
    ensures Accounted(sent, inflight + held, [], posted)
  {
    forall t ensures Of(sent, t) + Of(inflight + held, t) + Of([], t) == Of(posted, t) {
      OfAppend(inflight, held, t);
      assert Of(sent, t) + (Of(inflight, t) + Of(held, t)) + [] == Of(sent, t) + Of(inflight, t) + Of(held, t);
    }
  }

  lemma AccountedRun(sent: seq<Post>, inflight: seq<Post>, held: seq<Post>, posted: seq<Post>)
    requires inflight != [] && Accounted(sent, inflight, held, posted)
    ensures Accounted(sent + [inflight[0]], inflight[1..], held, posted)
  {
    var x, rest := inflight[0], inflight[1..];
    assert inflight == [x] + rest;
    forall t ensures Of(sent + [x], t) + Of(rest, t) + Of(held, t) == Of(posted, t) {
      OfAppend(sent, [x], t);
      OfAppend([x], rest, t);
      assert Of(sent, t) + Of([x], t) + Of(rest, t) == Of(sent, t) + (Of([x], t) + Of(rest, t));
    }
  }

  /** Frames of the loop thread may go ahead of the queue: nothing of that thread is in it. */
  lemma AccountedDirect(sent: seq<Post>, inflight: seq<Post>, held: seq<Post>, posted: seq<Post>)
    requires Accounted(sent, inflight, held, posted)
    requires forall j :: 0 <= j < |inflight| ==> inflight[j].thread != 0
    requires forall j :: 0 <= j < |held| ==> held[j].thread == 0
    ensures Accounted(sent + held, inflight, [], posted)
  {
    forall t ensures Of(sent + held, t) + Of(inflight, t) + Of([], t) == Of(posted, t) {
      OfAppend(sent, held, t);
      if t == 0 {
        OfOthers(inflight, 0);
      } else {
        OfOthers(held, t);
      }
    }
  }

  // ----- Preservation -----

  /** The frame of the thread inside the lock is the only one held while connected. */
  lemma EncodeHolds(s: Sys, i: nat, m: Message)
    requires MutexInv(s) && HeldInv(s) && i < |s.pcs| && s.pcs[i].Locked?
    ensures var t := s.(pcs := s.pcs[i := Encoded]); MutexInv(t) && HeldInv(t)
    ensures var t := s.(pcs := s.pcs[i := Encoded], output := s.output + FrameOf(s.flag, m),
                        held := s.held + [Post(i, m)], posted := s.posted + [Post(i, m)]);
            MutexInv(t) && HeldInv(t)
  {
    var held := s.held + [Post(i, m)];
    assert s.lock == Some(i);
    WireAppend(s.flag, s.held, [Post(i, m)]);
    OneFrame(s.flag, Post(i, m));
    assert forall j :: 0 <= j < |s.pcs| && s.pcs[j].Passed? ==> s.lock == Some(j);
  }

  lemma EncodePreserves(s: Sys, i: nat)
    requires Inv(s) && Enabled(s, Encode(i))
    ensures Inv(Next(s, Encode(i)))
  {
    var m := s.pcs[i].m;
    EncodeHolds(s, i, if m.Some? then m.value else Message.Message(0, 0, []));
    if m.Some? && s.net.conn.started && !s.net.conn.chan.closed {
      AccountedEncode(s.sent, s.inflight, s.held, s.posted, Post(i, m.value));
    }
  }

  lemma LoopSendPreserves(s: Sys, k: SendResult, closes: nat)
    requires Inv(s) && Enabled(s, Send(0, k, closes)) && s.output != [] && Connected(s)
    ensures Inv(Next(s, Send(0, k, closes)))
  {
    var t := Next(s, Send(0, k, closes));
    Net.SendPreserves(s.net, s.output, k, closes);
    SendInLoopEffect(s.net.conn, s.output, k, closes);
    SendsKept(s.net.conn, t.net.conn);
    WireAppend(s.flag, s.sent, s.held);
    AccountedDirect(s.sent, s.inflight, s.held, s.posted);
  }

  lemma SendPreserves(s: Sys, i: nat, k: SendResult, closes: nat)
    requires Inv(s) && Enabled(s, Send(i, k, closes))
    ensures Inv(Next(s, Send(i, k, closes)))
  {
    if s.held != [] {
      FramesAreNotEmpty(s.flag, s.held);
    }
    if s.output != [] && Connected(s) && i == 0 {
      LoopSendPreserves(s, k, closes);
    }
  }

  lemma EnqueuePreserves(s: Sys, i: nat)
    requires Inv(s) && Enabled(s, Enqueue(i))
    ensures Inv(Next(s, Enqueue(i)))
  {
    Net.StepPreserves(s.net, SendPosted(s.output));
    var p := s.held[0];
    assert s.held == [p];
    OneFrame(s.flag, p);
    assert (s.net.conn.queue + [SendTask(s.output)])[..|s.net.conn.queue|] == s.net.conn.queue;
    assert Frames(s.flag, s.inflight + [p]) == Frames(s.flag, s.inflight) + [FrameOf(s.flag, p.message)];
    if s.net.conn.started && !s.net.conn.chan.closed {
      AccountedEnqueue(s.sent, s.inflight, s.held, s.posted);
    }
  }

  lemma DataTaskPreserves(s: Sys, k: SendResult, closes: nat)
    requires Net.Inv(s.net) && FlowInv(s) && Enabled(s, Loop(RunTask(k, closes))) && s.net.conn.queue[0].SendTask?
    requires !s.net.conn.started ==> s.inflight == []
    ensures FlowInv(Next(s, Loop(RunTask(k, closes))))
  {
    var c, t := s.net.conn, Next(s, Loop(RunTask(k, closes)));
    var data, d := c.queue[0].data, c.(queue := c.queue[1..]);
    FirstSend(c.queue);
    FirstFrame(s.flag, s.inflight, data, Sends(c.queue[1..]));
    SendInLoopEffect(d, data, k, closes);
    SendsKept(d, t.net.conn);
    WireAppend(s.flag, s.sent, [s.inflight[0]]);
    OneFrame(s.flag, s.inflight[0]);
    if c.started && !c.chan.closed {
      AccountedRun(s.sent, s.inflight, s.held, s.posted);
    }
  }

  lemma FirstFrame(flag: int32, ps: seq<Post>, data: seq<byte>, rest: seq<seq<byte>>)
    requires [data] + rest == Frames(flag, ps)
    ensures ps != [] && data == FrameOf(flag, ps[0].message) && rest == Frames(flag, ps[1..])
  {
    assert |ps| == |Frames(flag, ps)| == 1 + |rest|;
    assert ([data] + rest)[0] == data && ([data] + rest)[1..] == rest;
    assert Frames(flag, ps)[1..] == Frames(flag, ps[1..]);
  }

  lemma FirstSend(q: seq<Task>)
    requires q != []
    ensures Sends(q) == if q[0].SendTask? then [q[0].data] + Sends(q[1..]) else Sends(q[1..])
  {
    assert q == [q[0]] + q[1..];
    SendsAppend([q[0]], q[1..]);
  }

  /** The connection's own steps touch neither the lock nor the shared buffer, and never
      bring a connection back once it is closing. */
  lemma LoopKeepsHeld(s: Sys, t: Sys)
    requires Inv(s)
    requires t.flag == s.flag && t.output == s.output && t.lock == s.lock && t.pcs == s.pcs && t.held == s.held
    requires Connected(t) ==> Connected(s) || !s.net.conn.started
    ensures MutexInv(t) && HeldInv(t)
  {
  }

  lemma TaskEffect(s: Sys, k: SendResult, closes: nat)
    requires Net.Inv(s.net) && LoopEnabled(s, RunTask(k, closes))
    ensures var c := s.net.conn; var d := Net.Step(s.net, RunTask(k, closes)).conn;
            && OnlyNotices(c.(queue := c.queue[1..]), d) && d.started == c.started
            && (d.status == Net.Connected ==> c.status == Net.Connected)
            && (!c.queue[0].SendTask? ==> d.given == c.given)
            && (c.chan.closed ==> d.chan.closed)
            && (!c.started ==> d.given == c.given)
  {
    var c := s.net.conn;
    var d := c.(queue := c.queue[1..]);
    if c.queue[0].SendTask? {
      SendInLoopEffect(d, c.queue[0].data, k, closes);
    }
  }

  lemma OtherTaskPreserves(s: Sys, k: SendResult, closes: nat)
    requires Inv(s) && Enabled(s, Loop(RunTask(k, closes))) && !s.net.conn.queue[0].SendTask?
    ensures FlowInv(Next(s, Loop(RunTask(k, closes))))
  {
    var c := s.net.conn;
    TaskEffect(s, k, closes);
    FirstSend(c.queue);
    SendsKept(c.(queue := c.queue[1..]), Net.Step(s.net, RunTask(k, closes)).conn);
  }

  lemma FreshHasNoData(s: Sys)
    requires Inv(s) && s.net.conn.queue != [] && !s.net.conn.started
    ensures !s.net.conn.queue[0].SendTask?
  {
    FirstSend(s.net.conn.queue);
  }

  lemma TaskHeld(s: Sys, k: SendResult, closes: nat)
    requires Inv(s) && Enabled(s, Loop(RunTask(k, closes)))
    ensures var t := Next(s, Loop(RunTask(k, closes))); MutexInv(t) && HeldInv(t)
  {
    TaskEffect(s, k, closes);
    LoopKeepsHeld(s, Next(s, Loop(RunTask(k, closes))));
  }

  lemma TaskUntouched(s: Sys, k: SendResult, closes: nat)
    requires Inv(s) && Enabled(s, Loop(RunTask(k, closes)))
    ensures UntouchedInv(Next(s, Loop(RunTask(k, closes))))
  {
    TaskEffect(s, k, closes);
    if !s.net.conn.started {
      FreshHasNoData(s);
    }
  }

  lemma RunTaskPreserves(s: Sys, k: SendResult, closes: nat)
    requires Inv(s) && Enabled(s, Loop(RunTask(k, closes)))
    ensures Inv(Next(s, Loop(RunTask(k, closes))))
  {
    Net.StepPreserves(s.net, RunTask(k, closes));
    TaskHeld(s, k, closes);
    TaskUntouched(s, k, closes);
    if s.net.conn.queue[0].SendTask? {
      DataTaskPreserves(s, k, closes);
    } else {
      OtherTaskPreserves(s, k, closes);
    }
  }

  lemma LoopPreserves(s: Sys, a: Action)
    requires Inv(s) && Enabled(s, Loop(a)) && !a.RunTask?
    ensures Inv(Next(s, Loop(a)))
  {
    Net.StepPreserves(s.net, a);
    LoopEffect(s, a);
    LoopKeepsHeld(s, Next(s, Loop(a)));
    SendsKept(s.net.conn, Net.Step(s.net, a).conn);
  }

  /** Taking or giving back the lock, or passing the first check. */
  lemma LockHolds(s: Sys, i: nat, m: Option<Message>)
    requires MutexInv(s) && HeldInv(s) && i < |s.pcs|
    ensures s.pcs[i] == Idle ==>
              var t := s.(pcs := s.pcs[i := Checked(m)]); MutexInv(t) && HeldInv(t)
    ensures s.pcs[i].Checked? && s.lock == None ==>
              var t := s.(pcs := s.pcs[i := Locked(m)], lock := Some(i)); MutexInv(t) && HeldInv(t)
    ensures s.pcs[i] == Done ==>
              var t := s.(pcs := s.pcs[i := Idle], lock := None); MutexInv(t) && HeldInv(t)
  {
  }

  lemma LockPreserves(s: Sys, a: Act)
    requires Inv(s) && Enabled(s, a) && (a.Check? || a.Lock? || a.Unlock?)
    ensures Inv(Next(s, a))
  {
    LockHolds(s, a.i, if a.Check? then a.m else if a.Lock? then s.pcs[a.i].m else None);
  }

  lemma FlagKept(s: Sys, a: Act)
    requires Net.Inv(s.net) && Enabled(s, a)
    ensures Next(s, a).flag == s.flag
  {
  }

  lemma NextPreserves(s: Sys, a: Act)
    requires Inv(s) && Enabled(s, a)
    ensures Inv(Next(s, a)) && Next(s, a).flag == s.flag
  {
    FlagKept(s, a);
    match a
    case Encode(i) => EncodePreserves(s, i);
    case Send(i, k, closes) => SendPreserves(s, i, k, closes);
    case Enqueue(i) => EnqueuePreserves(s, i);
    case Loop(b) =>
      if b.RunTask? {
        RunTaskPreserves(s, b.k, b.closes);
      } else {
        LoopPreserves(s, b);
      }
    case _ => LockPreserves(s, a);
  }

  ghost predicate Path(s: Sys, acts: seq<Act>)
    requires Inv(s)
    decreases |acts|
  {
    acts == [] || (Enabled(s, acts[0]) && (NextPreserves(s, acts[0]); Path(Next(s, acts[0]), acts[1..])))
  }

  ghost function After(s: Sys, acts: seq<Act>): Sys
    requires Inv(s) && Path(s, acts)
    decreases |acts|
  {
    if acts == [] then s else (NextPreserves(s, acts[0]); After(Next(s, acts[0]), acts[1..]))
  }

  lemma {:induction false} RunPreserves(s: Sys, acts: seq<Act>)
    requires Inv(s) && Path(s, acts)
    ensures Inv(After(s, acts)) && After(s, acts).flag == s.flag
    decreases |acts|
  {
    if acts != [] {
      NextPreserves(s, acts[0]);
      RunPreserves(Next(s, acts[0]), acts[1..]);
    }
  }

  // ----- Main result -----

  function Messages(ps: seq<Post>): seq<Message> {
    seq(|ps|, i requires 0 <= i < |ps| => ps[i].message)
  }

  lemma {:induction false} WireIsEncoding(flag: int32, ps: seq<Post>)
    ensures WireOf(flag, ps) == EncodeAll(flag, Messages(ps))
  {
    if ps != [] {
      WireIsEncoding(flag, ps[1..]);
      assert Messages(ps)[1..] == Messages(ps[1..]);
      assert Frames(flag, ps)[1..] == Frames(flag, ps[1..]);
    }
  }

  /** Frame atomicity: in every interleaving, the bytes the kernel accepted followed by the
      output buffer of an open connection are a sequence of whole frames; and each thread's
      frames among them, then those of its frames still queued or held, are exactly what it
      posted, in its own order. */
  lemma FramesStayWhole(flag: int32, cfg: Config, threads: nat, acts: seq<Act>)
    requires Path(Start(flag, cfg, threads), acts)
    ensures var s := After(Start(flag, cfg, threads), acts);
            var c := s.net.conn;
            c.started && !c.chan.closed ==>
              && c.wire + c.out == EncodeAll(flag, Messages(s.sent))
              && Accounted(s.sent, s.inflight, s.held, s.posted)
  {
    RunPreserves(Start(flag, cfg, threads), acts);
    WireIsEncoding(flag, After(Start(flag, cfg, threads), acts).sent);
  }

  // ----- What was posted, read off the steps -----

  /** The messages a thread encodes in a run: each time it encodes, the one it came with when
      it last passed the check. `pending` is the one it came with before the run. */
  function PostsOf(acts: seq<Act>, t: nat, pending: Option<Message>): seq<Message>
    decreases |acts|
  {
    if acts == [] then []
    else
      match acts[0]
      case Check(i, m) => PostsOf(acts[1..], t, if i == t then m else pending)
      case Encode(i) =>
        (if i == t && pending.Some? then [pending.value] else []) + PostsOf(acts[1..], t, pending)
      case _ => PostsOf(acts[1..], t, pending)
  }

  predicate CameWith(s: Sys, t: nat, pending: Option<Message>) {
    t < |s.pcs| && (s.pcs[t].Checked? || s.pcs[t].Locked? ==> s.pcs[t].m == pending)
  }

  lemma StepComesWith(s: Sys, a: Act, t: nat, pending: Option<Message>)
    requires Inv(s) && Enabled(s, a) && CameWith(s, t, pending)
    ensures CameWith(Next(s, a), t, if a.Check? && a.i == t then a.m else pending)
  {
  }

  /** What one step adds to the posts of a thread. */
  lemma StepPosts(s: Sys, a: Act, t: nat, pending: Option<Message>)
    requires Inv(s) && Enabled(s, a) && CameWith(s, t, pending)
    ensures Of(Next(s, a).posted, t) ==
              if a == Encode(t) && pending.Some? then Of(s.posted, t) + [pending.value] else Of(s.posted, t)
  {
    var u := Next(s, a);
    if a.Encode? && s.pcs[a.i].m.Some? {
      assert u.posted[..|s.posted|] == s.posted;
    } else {
      assert u.posted == s.posted;
    }
  }

  lemma {:induction false} RunPosts(s: Sys, acts: seq<Act>, t: nat, pending: Option<Message>)
    requires Inv(s) && Path(s, acts) && CameWith(s, t, pending)
    ensures Of(After(s, acts).posted, t) == Of(s.posted, t) + PostsOf(acts, t, pending)
    decreases |acts|
  {
    if acts == [] {
      EmptyRight(Of(s.posted, t));
    } else {
      var a, rest := acts[0], acts[1..];
      var now := if a.Check? && a.i == t then a.m else pending;
      NextPreserves(s, a);
      StepPosts(s, a, t, pending);
      StepComesWith(s, a, t, pending);
      RunPosts(Next(s, a), rest, t, now);
      if a == Encode(t) && pending.Some? {
        Associative(Of(s.posted, t), [pending.value], PostsOf(rest, t, now));
      } else {
        EmptyLeft(PostsOf(rest, t, now));
      }
    }
  }

  /** So on an open connection, what each thread encoded is on the wire, in the output buffer,
      in the loop's queue or in the shared buffer, in the thread's order and nothing else. */
  lemma NothingIsLost(flag: int32, cfg: Config, threads: nat, acts: seq<Act>, t: nat)
    requires t < threads && Path(Start(flag, cfg, threads), acts)
    ensures var s := After(Start(flag, cfg, threads), acts);
            s.net.conn.started && !s.net.conn.chan.closed ==>
              Of(s.sent, t) + Of(s.inflight, t) + Of(s.held, t) == PostsOf(acts, t, None)
  {
    RunPosts(Start(flag, cfg, threads), acts, t, None);
    FramesStayWhole(flag, cfg, threads, acts);
    EmptyLeft(PostsOf(acts, t, None));
  }

  // ----- Progress -----

  lemma StepFirst(s: Sys, a: Act, rest: seq<Act>)
    requires Inv(s) && Enabled(s, a) && Inv(Next(s, a)) && Path(Next(s, a), rest)
    ensures Path(s, [a] + rest) && After(s, [a] + rest) == After(Next(s, a), rest)
  {
    assert ([a] + rest)[1..] == rest;
  }

  /** The state after a thread has passed the check, taken the lock and encoded. */
  function WithFrame(s: Sys, i: nat, m: Message): Sys
    requires i < |s.pcs|
  {
    s.(pcs := s.pcs[i := Encoded], lock := Some(i), output := FrameOf(s.flag, m),
       held := [Post(i, m)], posted := s.posted + [Post(i, m)])
  }

  /** The states on the way there. */
  function PastCheck(s: Sys, i: nat, m: Message): Sys
    requires i < |s.pcs|
  {
    s.(pcs := s.pcs[i := Checked(Some(m))])
  }

  function PastLock(s: Sys, i: nat, m: Message): Sys
    requires i < |s.pcs|
  {
    s.(pcs := s.pcs[i := Locked(Some(m))], lock := Some(i))
  }

  lemma UpToLock(s: Sys, i: nat, m: Message)
    requires Inv(s) && Connected(s) && s.lock == None && At(s, i, Idle)
    ensures Enabled(s, Check(i, Some(m))) && Next(s, Check(i, Some(m))) == PastCheck(s, i, m) && Inv(PastCheck(s, i, m))
    ensures var t := PastCheck(s, i, m);
            Enabled(t, Lock(i)) && Next(t, Lock(i)) == PastLock(s, i, m) && Inv(PastLock(s, i, m))
  {
    var t := PastCheck(s, i, m);
    NextPreserves(s, Check(i, Some(m)));
    NextPreserves(t, Lock(i));
    assert t.pcs[i := Locked(Some(m))] == s.pcs[i := Locked(Some(m))];
  }

  lemma EncodesAlone(s: Sys, i: nat, m: Message)
    requires Inv(s) && Connected(s) && s.lock == None && i < |s.pcs| && Inv(PastLock(s, i, m))
    ensures var t := PastLock(s, i, m);
            Enabled(t, Encode(i)) && Next(t, Encode(i)) == WithFrame(s, i, m) && Inv(WithFrame(s, i, m))
  {
    var t := PastLock(s, i, m);
    NextPreserves(t, Encode(i));
    EmptyLeft(FrameOf(s.flag, m));
    EmptyLeft([Post(i, m)]);
    assert t.pcs[i := Encoded] == s.pcs[i := Encoded];
  }

  lemma UpToEncoded(s: Sys, i: nat, m: Message, rest: seq<Act>)
    requires Inv(s) && Connected(s) && s.lock == None && At(s, i, Idle)
    requires Inv(WithFrame(s, i, m)) ==> Path(WithFrame(s, i, m), rest)
    ensures Inv(WithFrame(s, i, m))
    ensures var acts := [Check(i, Some(m))] + ([Lock(i)] + ([Encode(i)] + rest));
            Path(s, acts) && After(s, acts) == After(WithFrame(s, i, m), rest)
  {
    UpToLock(s, i, m);
    EncodesAlone(s, i, m);
    StepFirst(PastLock(s, i, m), Encode(i), rest);
    StepFirst(PastCheck(s, i, m), Lock(i), [Encode(i)] + rest);
    StepFirst(s, Check(i, Some(m)), [Lock(i)] + ([Encode(i)] + rest));
  }

  /** The lock is free, the thread idle and the shared buffer empty; everything posted before is
      where it was, and the one post is sent, or queued if the thread is not the loop's. */
  predicate WentThrough(s: Sys, t: Sys, i: nat, m: Message) {
    && t.lock == None && t.pcs == s.pcs && t.output == [] && t.held == []
    && t.posted == s.posted + [Post(i, m)]
    && if i == 0 then t.sent == s.sent + [Post(i, m)] && t.inflight == s.inflight
       else t.sent == s.sent && t.inflight == s.inflight + [Post(i, m)]
  }

  /** A thread that comes to a connected connection while the lock is free can post its message
      in five or six steps of its own. */
  lemma PostGoesThrough(s: Sys, i: nat, m: Message, k: SendResult, closes: nat) returns (acts: seq<Act>)
    requires Inv(s) && Connected(s) && s.lock == None && At(s, i, Idle)
    requires SendAllowed(FrameOf(s.flag, m), k)
    ensures Path(s, acts) && |acts| <= 6 && forall j :: 0 <= j < |acts| ==> !acts[j].Loop?
    ensures WentThrough(s, After(s, acts), i, m)
  {
    var last := if i == 0 then [Send(i, k, closes)] + ([Unlock(i)] + [])
                else [Send(i, k, closes)] + ([Enqueue(i)] + ([Unlock(i)] + []));
    if Inv(WithFrame(s, i, m)) {
      if i == 0 {
        HandsOverHere(s, m, k, closes);
      } else {
        HandsOverQueued(s, i, m, k, closes);
      }
    }
    UpToEncoded(s, i, m, last);
    acts := [Check(i, Some(m))] + ([Lock(i)] + ([Encode(i)] + last));
  }

  lemma HandsOverHere(s: Sys, m: Message, k: SendResult, closes: nat)
    requires Connected(s) && s.lock == None && At(s, 0, Idle) && SendAllowed(FrameOf(s.flag, m), k)
    requires Inv(WithFrame(s, 0, m))
    ensures var last := [Send(0, k, closes)] + ([Unlock(0)] + []);
            Path(WithFrame(s, 0, m), last) && WentThrough(s, After(WithFrame(s, 0, m), last), 0, m)
  {
    var s3 := WithFrame(s, 0, m);
    var s4 := Next(s3, Send(0, k, closes));
    NextPreserves(s3, Send(0, k, closes));
    NextPreserves(s4, Unlock(0));
    StepFirst(s4, Unlock(0), []);
    StepFirst(s3, Send(0, k, closes), [Unlock(0)] + []);
  }

  lemma HandsOverQueued(s: Sys, i: nat, m: Message, k: SendResult, closes: nat)
    requires i != 0 && Connected(s) && s.lock == None && At(s, i, Idle) && SendAllowed(FrameOf(s.flag, m), k)
    requires Inv(WithFrame(s, i, m))
    ensures var last := [Send(i, k, closes)] + ([Enqueue(i)] + ([Unlock(i)] + []));
            Path(WithFrame(s, i, m), last) && WentThrough(s, After(WithFrame(s, i, m), last), i, m)
  {
    var s3 := WithFrame(s, i, m);
    var s4 := Next(s3, Send(i, k, closes));
    NextPreserves(s3, Send(i, k, closes));
    var s5 := Next(s4, Enqueue(i));
    NextPreserves(s4, Enqueue(i));
    NextPreserves(s5, Unlock(i));
    StepFirst(s5, Unlock(i), []);
    StepFirst(s4, Enqueue(i), [Unlock(i)] + []);
    StepFirst(s3, Send(i, k, closes), [Enqueue(i)] + ([Unlock(i)] + []));
  }
}
