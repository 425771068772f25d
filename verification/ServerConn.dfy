/** A server connection: the message callback that parses packets out of the input buffer
    and hands them to the adapter, one by one or in batches of fifteen. */
module ServerConn {
  import opened Bytes
  import opened ByteBuffer
  import opened PacketStreamer
  import opened FrameParser
  import opened Wrappers
  import opened Sequences

  const BATCH_SIZE: nat := 15

  /** A call the connection makes on its adapter. */
  datatype Call = Single(packet: Packet) | BadPacket | Batch(packets: seq<Packet>)

  /** The input queue and every adapter call made so far. */
  datatype Inbox = Inbox(queue: seq<Packet>, calls: seq<Call>)

  function Handle(factory: Factory, batching: bool, inbox: Inbox, p: Packet): Inbox {
    if !factory.Accepts(p) then inbox.(calls := inbox.calls + [BadPacket])
    else if !batching then inbox.(calls := inbox.calls + [Single(p)])
    else
      var queue := inbox.queue + [p];
      if |queue| >= BATCH_SIZE then Inbox([], inbox.calls + [Batch(queue)])
      else Inbox(queue, inbox.calls)
  }

  function HandleAll(factory: Factory, batching: bool, inbox: Inbox, ps: seq<Packet>): Inbox {
    if ps == [] then inbox
    else Handle(factory, batching, HandleAll(factory, batching, inbox, ps[..|ps| - 1]), ps[|ps| - 1])
  }

  class ServerConnection {
    const streamer: DefaultPacketStreamer
    const batchPushPacket: bool
    var gotHeader: bool
    var packetHeader: Header
    var inputQueue: seq<Packet>
    /** Everything handed to the adapter, in order. */
    var calls: seq<Call>

    ghost predicate Valid()
      reads this
    {
      gotHeader ==> SizeOk(packetHeader)
    }

    ghost function State(): (st: Option<Header>)
      reads this
      requires Valid()
      ensures StateOk(st)
    {
      if gotHeader then Some(packetHeader) else None
    }

    ghost function View(): Inbox
      reads this
    {
      Inbox(inputQueue, calls)
    }

    constructor (streamer: DefaultPacketStreamer, batchPushPacket: bool)
      ensures Valid() && State() == None && View() == Inbox([], [])
      ensures this.streamer == streamer && this.batchPushPacket == batchPushPacket
    {
      this.streamer := streamer;
      this.batchPushPacket := batchPushPacket;
      gotHeader := false;
      packetHeader := Header(0, 0, 0);
      inputQueue, calls := [], [];
    }

    method HandlePacket(input: Buffer, header: Header)
      requires input.Valid() && 0 <= header.dataLen <= |input.View().unread|
      modifies this`inputQueue, this`calls, input`readIndex, input`writeIndex
      ensures input.Valid()
      ensures input.View().unread == old(input.View()).unread[header.dataLen..]
      ensures View() == Handle(streamer.factory, batchPushPacket, old(View()),
                                Packet(header, old(input.View()).unread[..header.dataLen]))
    {
      assert this !in input.Repr;
      var packet := streamer.Decode(input, header);
      match packet
      case None =>
        calls := calls + [BadPacket];
      case Some(p) =>
        if batchPushPacket {
          inputQueue := inputQueue + [p];
          if |inputQueue| >= 15 {
            calls := calls + [Batch(inputQueue)];
            inputQueue := [];
          }
        } else {
          calls := calls + [Single(p)];
        }
    }

    method ReadHeader(input: Buffer) returns (broken: bool)
      requires input.Valid() && !gotHeader
      modifies this`gotHeader, this`packetHeader, input`readIndex, input`writeIndex
      ensures input.Valid()
      ensures var s := old(input.View()).unread;
              if |s| < HEADER_SIZE then !gotHeader && !broken && input.View().unread == s
              else && gotHeader && packetHeader == HeaderOf(s) && input.View().unread == s[HEADER_SIZE..]
                   && broken == (FlagOf(s) != streamer.packetFlag || !SizeOk(packetHeader))
    {
      assert this !in input.Repr;
      gotHeader, packetHeader, broken := streamer.GetPacketInfo(input, packetHeader);
    }

    /** The body of the callback's loop. `more` says whether a packet was handed on. */
    method Round(input: Buffer) returns (more: bool, broken: bool, ghost packet: Option<Packet>)
      requires Valid() && input.Valid() && this !in input.Repr && streamer !in input.Repr && input.View().unread != []
      modifies this, input`readIndex, input`writeIndex
      ensures input.Valid() && more == packet.Some?
      ensures var whole := Parse(true, streamer.packetFlag, old(State()), old(input.View()).unread);
              match packet
              case Some(p) =>
                && Valid() && !gotHeader && !broken
                && whole == After([p], Parse(true, streamer.packetFlag, None, input.View().unread))
                && View() == Handle(streamer.factory, batchPushPacket, old(View()), p)
                && |input.View().unread| < |old(input.View()).unread| + (if old(gotHeader) then 1 else 0)
              case None =>
                && (!broken ==> Valid())
                && whole == Outcome([], if gotHeader && !broken then Some(packetHeader) else None,
                                    input.View().unread, broken)
                && View() == old(View())
    {
      ghost var s, st := input.View().unread, State();
      more, broken, packet := false, false, None;
      if !gotHeader {
        broken := ReadHeader(input);
        if broken {
          return;
        }
      }
      ghost var body := input.View().unread;
      var length := input.Length();
      if gotHeader && ToInt32(length) >= packetHeader.dataLen {
        FrameReady(streamer.packetFlag, st, s, packetHeader, body);
        packet := Some(Packet(packetHeader, body[..packetHeader.dataLen]));
        TakePacket(input);
        more := true;
      } else {
        FrameNotReady(streamer.packetFlag, st, s, if gotHeader then Some(packetHeader) else None, body);
      }
    }

    /** Hands the packet on whose header has been read and whose payload is complete. */
    method TakePacket(input: Buffer)
      requires Valid() && input.Valid() && this !in input.Repr
      requires gotHeader && packetHeader.dataLen <= |input.View().unread|
      modifies this, input`readIndex, input`writeIndex
      ensures Valid() && input.Valid() && !gotHeader
      ensures var h, s := old(packetHeader), old(input.View()).unread;
              && input.View().unread == s[h.dataLen..]
              && View() == Handle(streamer.factory, batchPushPacket, old(View()), Packet(h, s[..h.dataLen]))
    {
      HandlePacket(input, packetHeader);
      ghost var after := View();
      gotHeader := false;
      packetHeader := packetHeader.(dataLen := 0);
      assert View() == after;
    }

    /** The callback's loop: hands on every packet that is complete, until it meets a bad header
        or runs out of bytes. */
    method Drain(input: Buffer) returns (broken: bool, ghost done: seq<Packet>)
      requires Valid() && input.Valid() && this !in input.Repr && streamer !in input.Repr
      modifies this, input`readIndex, input`writeIndex
      ensures input.Valid() && (!broken ==> Valid())
      ensures Parse(true, streamer.packetFlag, old(State()), old(input.View()).unread)
              == Outcome(done, if gotHeader && !broken then Some(packetHeader) else None, input.View().unread, broken)
      ensures View() == HandleAll(streamer.factory, batchPushPacket, old(View()), done)
    {
      broken, done := false, [];
      ghost var flag, factory, inbox := streamer.packetFlag, streamer.factory, View();
      ghost var whole := Parse(true, flag, State(), input.View().unread);
      EmptyLeft(whole.packets);
      var n := input.Length();
      while n > 0
        invariant Valid() && input.Valid() && n == |input.View().unread| && !broken
        invariant whole == After(done, Parse(true, flag, State(), input.View().unread))
        invariant View() == HandleAll(factory, batchPushPacket, inbox, done)
        decreases n + (if gotHeader then 1 else 0)
      {
        var more;
        ghost var packet;
        more, broken, packet := Round(input);
        if !more {
          break;
        }
        Delivered(whole, done, packet.value, Parse(true, flag, None, input.View().unread));
        HandleNext(factory, batchPushPacket, inbox, done, packet.value);
        done := done + [packet.value];
        n := input.Length();
      }
      EmptyRight(done);
    }

    /** The message callback: parses as much of the input as it can and hands every packet on. */
    method OnMessage(input: Buffer)
      requires Valid() && input.Valid()
      modifies this, input`readIndex, input`writeIndex
      ensures Valid() && input.Valid()
      ensures var o := Parse(true, streamer.packetFlag, old(State()), old(input.View()).unread);
              && State() == o.state
              && input.View().unread == o.unread
              && View() == HandleAll(streamer.factory, batchPushPacket, old(View()), o.packets)
    {
      assert this !in input.Repr && streamer !in input.Repr;
      ghost var packets;
      var broken;
      broken, packets := Drain(input);
      if broken {
        gotHeader := false;
      }
    }
  }

  /** A header, kept from an earlier call or read now, whose payload is complete. */
  lemma FrameReady(flag: int32, st: Option<Header>, s: seq<byte>, h: Header, body: seq<byte>)
    requires s != [] && SizeOk(h) && Complete(true, |body|, h.dataLen)
    requires if st.Some? then h == st.value && body == s
             else |s| >= HEADER_SIZE && FlagOf(s) == flag && h == HeaderOf(s) && body == s[HEADER_SIZE..]
    ensures Parse(true, flag, st, s)
            == After([Packet(h, body[..h.dataLen])], Parse(true, flag, None, body[h.dataLen..]))
  {
  }

  /** No packet is complete: too few bytes for a header, or for the payload after it. */
  lemma FrameNotReady(flag: int32, st: Option<Header>, s: seq<byte>, now: Option<Header>, body: seq<byte>)
    requires s != [] && StateOk(st) && StateOk(now)
    requires now.Some? ==> !Complete(true, |body|, now.value.dataLen)
    requires if st.Some? then now == st && body == s
             else if now.Some? then |s| >= HEADER_SIZE && FlagOf(s) == flag && now.value == HeaderOf(s)
                                    && body == s[HEADER_SIZE..]
             else |s| < HEADER_SIZE && body == s
    ensures Parse(true, flag, st, s) == Outcome([], now, body, false)
  {
  }

  lemma HandleNext(factory: Factory, batching: bool, inbox: Inbox, done: seq<Packet>, p: Packet)
    ensures HandleAll(factory, batching, inbox, done + [p])
            == Handle(factory, batching, HandleAll(factory, batching, inbox, done), p)
  {
    assert (done + [p])[..|done|] == done;
  }

  lemma Delivered(whole: Outcome, done: seq<Packet>, p: Packet, o: Outcome)
    requires whole == After(done, After([p], o))
    ensures whole == After(done + [p], o)
  {
    Associative(done, [p], o.packets);
  }

  // ----- Batching -----

  /** The packets whose code the factory knows and whose payload it decodes. */
  function Accepted(factory: Factory, ps: seq<Packet>): seq<Packet> {
    if ps == [] then []
    else
      var rest, p := Accepted(factory, ps[..|ps| - 1]), ps[|ps| - 1];
      if factory.creates(p.header.pcode) && factory.decodes(p.header, p.body) then rest + [p] else rest
  }

  /** Everything handed over in batches. */
  function Batched(calls: seq<Call>): seq<Packet> {
    if calls == [] then []
    else
      var rest := Batched(calls[..|calls| - 1]);
      if calls[|calls| - 1].Batch? then rest + calls[|calls| - 1].packets else rest
  }

  function BadCalls(calls: seq<Call>): nat {
    if calls == [] then 0
    else BadCalls(calls[..|calls| - 1]) + (if calls[|calls| - 1].BadPacket? then 1 else 0)
  }

  predicate BatchesFull(calls: seq<Call>) {
    forall i :: 0 <= i < |calls| ==> !calls[i].Single? && (calls[i].Batch? ==> |calls[i].packets| == 15)
  }

  predicate Conserved(factory: Factory, inbox: Inbox, ps: seq<Packet>) {
    && Batched(inbox.calls) + inbox.queue == Accepted(factory, ps)
    && |inbox.queue| < 15
    && BatchesFull(inbox.calls)
    && BadCalls(inbox.calls) == |ps| - |Accepted(factory, ps)|
  }

  lemma CallAppended(calls: seq<Call>, c: Call)
    ensures Batched(calls + [c]) == if c.Batch? then Batched(calls) + c.packets else Batched(calls)
    ensures BadCalls(calls + [c]) == BadCalls(calls) + (if c.BadPacket? then 1 else 0)
  {
    assert (calls + [c])[..|calls|] == calls;
  }

  lemma FullAppended(calls: seq<Call>, queue: seq<Packet>)
    requires BatchesFull(calls) && |queue| == BATCH_SIZE
    ensures BatchesFull(calls + [Batch(queue)])
  {
  }

  lemma AcceptedAppended(factory: Factory, ps: seq<Packet>, p: Packet)
    ensures Accepted(factory, ps + [p])
            == if factory.Accepts(p) then Accepted(factory, ps) + [p] else Accepted(factory, ps)
  {
    assert (ps + [p])[..|ps|] == ps;
  }

  lemma RefusedConserves(factory: Factory, inbox: Inbox, ps: seq<Packet>, p: Packet)
    requires Conserved(factory, inbox, ps) && !factory.Accepts(p)
    ensures Conserved(factory, Inbox(inbox.queue, inbox.calls + [BadPacket]), ps + [p])
  {
    AcceptedAppended(factory, ps, p);
    CallAppended(inbox.calls, BadPacket);
  }

  lemma QueuedConserves(factory: Factory, inbox: Inbox, ps: seq<Packet>, p: Packet)
    requires Conserved(factory, inbox, ps) && factory.Accepts(p) && |inbox.queue| + 1 < BATCH_SIZE
    ensures Conserved(factory, Inbox(inbox.queue + [p], inbox.calls), ps + [p])
  {
    AcceptedAppended(factory, ps, p);
    Associative(Batched(inbox.calls), inbox.queue, [p]);
  }

  lemma BatchConserves(factory: Factory, inbox: Inbox, ps: seq<Packet>, p: Packet)
    requires Conserved(factory, inbox, ps) && factory.Accepts(p) && |inbox.queue| + 1 == BATCH_SIZE
    ensures Conserved(factory, Inbox([], inbox.calls + [Batch(inbox.queue + [p])]), ps + [p])
  {
    var queue := inbox.queue + [p];
    var calls := inbox.calls + [Batch(queue)];
    AcceptedAppended(factory, ps, p);
    CallAppended(inbox.calls, Batch(queue));
    FullAppended(inbox.calls, queue);
    Associative(Batched(inbox.calls), inbox.queue, [p]);
    EmptyRight(Batched(calls));
    assert Batched(calls) + [] == Accepted(factory, ps + [p]);
  }

  /** Batch conservation: the batches handed over followed by the queue are the accepted
      packets in arrival order; every batch has fifteen packets, the queue always fewer;
      and each refused packet is reported exactly once. */
  lemma {:induction false} BatchConservation(factory: Factory, ps: seq<Packet>)
    ensures Conserved(factory, HandleAll(factory, true, Inbox([], []), ps), ps)
  {
    if ps != [] {
      var n := |ps| - 1;
      BatchConservation(factory, ps[..n]);
      var before := HandleAll(factory, true, Inbox([], []), ps[..n]);
      if !factory.Accepts(ps[n]) {
        RefusedConserves(factory, before, ps[..n], ps[n]);
      } else if |before.queue| + 1 < BATCH_SIZE {
        QueuedConserves(factory, before, ps[..n], ps[n]);
      } else {
        BatchConserves(factory, before, ps[..n], ps[n]);
      }
      assert ps[..n] + [ps[n]] == ps;
    }
  }

  /** A call once made stays, at its place. So `BatchConservation` for every prefix of the
      packets says after which packet each call is made. */
  lemma {:induction false} CallsStay(factory: Factory, batching: bool, inbox: Inbox, ps: seq<Packet>, n: nat)
    requires n <= |ps|
    ensures HandleAll(factory, batching, inbox, ps[..n]).calls <= HandleAll(factory, batching, inbox, ps).calls
    decreases |ps|
  {
    if n == |ps| {
      assert ps[..n] == ps;
    } else {
      var last := |ps| - 1;
      CallsStay(factory, batching, inbox, ps[..last], n);
      assert ps[..last][..n] == ps[..n];
    }
  }

  /** The batch call comes with the packet that fills the batch, and a refused packet is
      reported at once. */
  lemma CallsInStep(factory: Factory, ps: seq<Packet>, p: Packet)
    ensures var before := HandleAll(factory, true, Inbox([], []), ps);
            var after := HandleAll(factory, true, Inbox([], []), ps + [p]);
            if !(factory.creates(p.header.pcode) && factory.decodes(p.header, p.body)) then
              after.calls == before.calls + [BadPacket] && after.queue == before.queue
            else if |before.queue| == 14 then
              after.calls == before.calls + [Batch(before.queue + [p])] && after.queue == []
            else after.calls == before.calls && after.queue == before.queue + [p]
  {
    BatchConservation(factory, ps);
    HandleNext(factory, true, Inbox([], []), ps, p);
  }

  /** Without batching every packet causes exactly one call, in arrival order. */
  lemma {:induction false} OneCallPerPacket(factory: Factory, ps: seq<Packet>)
    ensures var inbox := HandleAll(factory, false, Inbox([], []), ps);
            && inbox.queue == [] && |inbox.calls| == |ps|
            && forall i :: 0 <= i < |ps| ==>
                 inbox.calls[i] == if factory.creates(ps[i].header.pcode) && factory.decodes(ps[i].header, ps[i].body)
                                   then Single(ps[i]) else BadPacket
  {
    if ps != [] {
      OneCallPerPacket(factory, ps[..|ps| - 1]);
    }
  }

  lemma {:induction false} HandleAllAppend(factory: Factory, batching: bool, inbox: Inbox, ps: seq<Packet>,
                                           qs: seq<Packet>)
    ensures HandleAll(factory, batching, inbox, ps + qs)
            == HandleAll(factory, batching, HandleAll(factory, batching, inbox, ps), qs)
  {
    if qs == [] {
      assert ps + qs == ps;
    } else {
      var n := |qs| - 1;
      HandleAllAppend(factory, batching, inbox, ps, qs[..n]);
      assert (ps + qs)[..|ps| + n] == ps + qs[..n];
    }
  }

  /** A connection fed chunk by chunk: each chunk is appended to the input buffer and the
      message callback runs. Its whole effect is that of `Feed`. */
  method Receive(conn: ServerConnection, input: Buffer, chunks: seq<seq<byte>>)
    requires conn.Valid() && input.Valid() && conn !in input.Repr && conn.streamer !in input.Repr
    modifies conn, input.Repr
    ensures conn.Valid() && input.Valid()
    ensures var o := Feed(true, conn.streamer.packetFlag, old(conn.State()), old(input.View()).unread, chunks);
            && conn.State() == o.state
            && input.View().unread == o.unread
            && conn.View() == HandleAll(conn.streamer.factory, conn.batchPushPacket, old(conn.View()), o.packets)
    decreases |chunks|
  {
    if chunks == [] {
      return;
    }
    ghost var flag, st, unread, inbox := conn.streamer.packetFlag, conn.State(), input.View().unread, conn.View();
    ghost var o := Parse(true, flag, st, unread + chunks[0]);
    input.Write(chunks[0]);
    conn.OnMessage(input);
    HandleAllAppend(conn.streamer.factory, conn.batchPushPacket, inbox, o.packets,
                    Feed(true, flag, o.state, o.unread, chunks[1..]).packets);
    Receive(conn, input, chunks[1..]);
  }

  /** End to end: whatever the reads, a fresh connection receives exactly the packets that
      were encoded, in order, hands each to the adapter once and ends with an empty buffer. */
  method ReceiveEncoded(conn: ServerConnection, input: Buffer, ms: seq<Message>, chunks: seq<seq<byte>>)
    requires conn.Valid() && input.Valid() && conn !in input.Repr && conn.streamer !in input.Repr
    requires conn.State() == None && conn.View() == Inbox([], []) && input.View().unread == []
    requires BodiesOk(ms)
    requires Concat(chunks) == EncodeAll(conn.streamer.packetFlag, ms) && SmallReads(chunks)
    modifies conn, input.Repr
    ensures conn.Valid() && input.Valid() && conn.State() == None && input.View().unread == []
    ensures exists ps :: Received(ps) == ms
                         && conn.View() == HandleAll(conn.streamer.factory, conn.batchPushPacket, Inbox([], []), ps)
  {
    RoundTrip(conn.streamer.packetFlag, ms, chunks);
    Receive(conn, input, chunks);
  }
}
