/** The reads of a connection as the program makes them: a scatter read into the input buffer,
    then the message callback. A well-formed stream keeps that buffer below a fixed size, so
    no read the kernel may deliver is too long for the parser's narrowed comparison, and the
    round trip holds for every way the kernel cuts the stream. */
module InputReads {
  import opened Bytes
  import opened ByteBuffer
  import opened PacketStreamer
  import opened FrameParser
  import opened ServerConn
  import opened Wrappers
  import opened Sequences

  /** Twice a frame and five overflow areas, about 128 MiB. */
  const INPUT_BOUND: nat := 2 * MAX_DATA_LEN + 5 * EXTRA_SIZE + 2 * CHEAP_PREPEND_SIZE

  /** The input buffer of a parser that is waiting for more bytes. */
  predicate Bounded(v: BufferView, st: Option<Header>) {
    v.Valid() && v.reserved == CHEAP_PREPEND_SIZE && v.Capacity() <= INPUT_BOUND && Waiting(st, v.unread)
  }

  /** A read grows the buffer only when nearly all of it is unread, and what is unread is less
      than a frame and an overflow area. */
  lemma ReadKeepsBound(v: BufferView, st: Option<Header>, d: seq<byte>)
    requires Bounded(v, st) && Permitted(v, ReadFromFd(d))
    ensures var w := Step(v, ReadFromFd(d));
            && w.Valid() && w.reserved == v.reserved && w.Capacity() <= INPUT_BOUND && w.unread == v.unread + d
    ensures |d| <= 0x8000_0000 - MAX_DATA_LEN
  {
    if |d| > v.back {
      var full := Appended(v, d[..v.back]);
      assert v.unread + d[..v.back] + d[v.back..] == v.unread + d;
      assert full.Capacity() == v.Capacity() && full.back == 0;
    }
  }

  /** One read event: the bytes delivered, and the buffer after the callback, which may have
      moved its indices in any way. */
  datatype Turn = Turn(read: seq<byte>, after: BufferView)

  function Reads(turns: seq<Turn>): seq<seq<byte>>
    decreases |turns|
  {
    if turns == [] then [] else [turns[0].read] + Reads(turns[1..])
  }

  /** What a read event does, seen from outside. */
  predicate TurnOk(flag: int32, v: BufferView, st: Option<Header>, t: Turn)
    requires v.Valid() && StateOk(st)
  {
    && Permitted(v, ReadFromFd(t.read))
    && var w := Step(v, ReadFromFd(t.read));
    && t.after.Valid() && t.after.Capacity() == w.Capacity() && t.after.reserved == w.reserved
    && t.after.unread == Parse(true, flag, st, w.unread).unread
  }

  predicate TurnsOk(flag: int32, v: BufferView, st: Option<Header>, turns: seq<Turn>)
    requires v.Valid() && StateOk(st)
    decreases |turns|
  {
    turns == []
    || (&& TurnOk(flag, v, st, turns[0])
        && var o := Parse(true, flag, st, v.unread + turns[0].read);
        && TurnsOk(flag, turns[0].after, o.state, turns[1..]))
  }

  /** After a read of a well-formed stream the parser waits again, within the bound. */
  lemma TurnKeepsBound(flag: int32, v: BufferView, st: Option<Header>, t: Turn, rest: seq<byte>)
    requires Bounded(v, st) && TurnOk(flag, v, st, t)
    requires !Parse(false, flag, st, v.unread + t.read + rest).broken
    ensures var o := Parse(true, flag, st, v.unread + t.read);
            && o == Parse(false, flag, st, v.unread + t.read) && !o.broken && Bounded(t.after, o.state)
            && !Parse(false, flag, o.state, t.after.unread + rest).broken
    ensures |t.read| <= 0x8000_0000 - MAX_DATA_LEN
  {
    ReadKeepsBound(v, st, t.read);
    NarrowIsWide(flag, st, v.unread + t.read);
    ParseAppend(flag, st, v.unread + t.read, rest);
    StillWaiting(flag, st, v.unread, t.read);
  }

  /** Over any run of read events on a well-formed stream every read is short enough for the
      narrowed comparison, and the buffer stays within the bound. */
  lemma {:induction false} ReadsStaySmall(flag: int32, v: BufferView, st: Option<Header>, turns: seq<Turn>)
    requires Bounded(v, st) && TurnsOk(flag, v, st, turns)
    requires !Parse(false, flag, st, v.unread + Concat(Reads(turns))).broken
    ensures SmallReads(Reads(turns))
    ensures forall i :: 0 <= i < |turns| ==> turns[i].after.Capacity() <= INPUT_BOUND
    decreases |turns|
  {
    if turns != [] {
      var t, rest := turns[0], turns[1..];
      assert Reads(turns)[1..] == Reads(rest);
      ConcatCut(v.unread, Reads(turns));
      TurnKeepsBound(flag, v, st, t, Concat(Reads(rest)));
      var o := Parse(true, flag, st, v.unread + t.read);
      ReadsStaySmall(flag, t.after, o.state, rest);
    }
  }

  /** The round trip with no hypothesis on the reads: packets within the limit that arrive
      through a fresh input buffer come back, however the kernel cuts their bytes, and the
      buffer never exceeds the bound. */
  lemma RoundTripOverReads(flag: int32, ms: seq<Message>, turns: seq<Turn>)
    requires BodiesOk(ms) && Concat(Reads(turns)) == EncodeAll(flag, ms)
    requires TurnsOk(flag, FreshInput(), None, turns)
    ensures var o := Feed(true, flag, None, [], Reads(turns));
            Received(o.packets) == ms && o.state == None && o.unread == []
    ensures forall i :: 0 <= i < |turns| ==> turns[i].after.Capacity() <= INPUT_BOUND
  {
    ParseEncoded(flag, ms);
    EmptyLeft(Concat(Reads(turns)));
    ReadsStaySmall(flag, FreshInput(), None, turns);
    RoundTrip(flag, ms, Reads(turns));
  }

  function FreshInput(): (v: BufferView)
    ensures Bounded(v, None) && v.unread == []
  {
    BufferView(CHEAP_PREPEND_SIZE, [], INITIAL_SIZE, CHEAP_PREPEND_SIZE)
  }

  /** A read event on the real buffer is such a turn. */
  method HandleReadEvent(conn: ServerConnection, input: Buffer, received: seq<byte>)
    requires conn.Valid() && input.Valid() && conn !in input.Repr && conn.streamer !in input.Repr
    requires Permitted(input.View(), ReadFromFd(received))
    modifies conn, input.Repr
    ensures conn.Valid() && input.Valid() && fresh(input.Repr - old(input.Repr))
    ensures TurnOk(conn.streamer.packetFlag, old(input.View()), old(conn.State()), Turn(received, input.View()))
    ensures var s := old(input.View()).unread + received;
            var o := Parse(true, conn.streamer.packetFlag, old(conn.State()), s);
            && conn.State() == o.state
            && conn.View() == HandleAll(conn.streamer.factory, conn.batchPushPacket, old(conn.View()), o.packets)
  {
    var _ := input.ReadFromFD(received, false);
    ReadAppends(old(input.View()), received);
    conn.OnMessage(input);
  }

  lemma ReadAppends(v: BufferView, d: seq<byte>)
    requires v.Valid() && Permitted(v, ReadFromFd(d))
    ensures Step(v, ReadFromFd(d)).Valid() && Step(v, ReadFromFd(d)).unread == v.unread + d
  {
    if |d| > v.back {
      assert v.unread + d[..v.back] + d[v.back..] == v.unread + d;
    }
  }

  /** A whole stream through the real buffer. The kernel is free in how much it delivers each
      time, `sizes` being what it would like to, up to what the read asks for and what is
      there. Whatever it does, what was read so far has been parsed as the frame grammar
      says and the buffer is within its bound. */
  method ReceiveStream(conn: ServerConnection, input: Buffer, stream: seq<byte>, sizes: seq<nat>) returns (n: nat)
    requires conn.Valid() && input.Valid() && conn !in input.Repr && conn.streamer !in input.Repr
    requires Bounded(input.View(), conn.State())
    requires !Parse(false, conn.streamer.packetFlag, conn.State(), input.View().unread + stream).broken
    modifies conn, input.Repr
    ensures n <= |stream| && conn.Valid() && input.Valid() && Bounded(input.View(), conn.State())
    ensures var s := old(input.View()).unread + stream[..n];
            var o := Parse(false, conn.streamer.packetFlag, old(conn.State()), s);
            && conn.State() == o.state && input.View().unread == o.unread
            && conn.View() == HandleAll(conn.streamer.factory, conn.batchPushPacket, old(conn.View()), o.packets)
    decreases |sizes|
  {
    ghost var flag, v, st, inbox := conn.streamer.packetFlag, input.View(), conn.State(), conn.View();
    if sizes == [] {
      WaitingIsIdle(flag, st, v.unread);
      EmptyRight(v.unread);
      return 0;
    }
    var k := ReadSome(conn, input, stream, sizes[0]);
    n := ReceiveStream(conn, input, stream[k..], sizes[1..]);
    Compose(flag, st, v.unread, stream, k, n, conn.streamer.factory, conn.batchPushPacket, inbox);
    n := k + n;
  }

  /** One read event, of as much as the kernel likes, the read asks for and there is. */
  method ReadSome(conn: ServerConnection, input: Buffer, stream: seq<byte>, size: nat) returns (k: nat)
    requires conn.Valid() && input.Valid() && conn !in input.Repr && conn.streamer !in input.Repr
    requires Bounded(input.View(), conn.State())
    requires !Parse(false, conn.streamer.packetFlag, conn.State(), input.View().unread + stream).broken
    modifies conn, input.Repr
    ensures k <= |stream| && conn.Valid() && input.Valid() && fresh(input.Repr - old(input.Repr))
    ensures Bounded(input.View(), conn.State())
    ensures var flag := conn.streamer.packetFlag;
            var o := Parse(false, flag, old(conn.State()), old(input.View()).unread + stream[..k]);
            && !o.broken && conn.State() == o.state && input.View().unread == o.unread
            && conn.View() == HandleAll(conn.streamer.factory, conn.batchPushPacket, old(conn.View()), o.packets)
            && !Parse(false, flag, o.state, o.unread + stream[k..]).broken
  {
    var back := input.WritableBytes();
    var most := back + (if back < EXTRA_SIZE then EXTRA_SIZE else 0);
    k := Least(size, Least(most, |stream|));
    assert stream == stream[..k] + stream[k..];
    Associative(input.View().unread, stream[..k], stream[k..]);
    Deliver(conn, input, stream[..k], stream[k..]);
  }

  /** A read event on a well-formed stream. */
  method Deliver(conn: ServerConnection, input: Buffer, received: seq<byte>, ghost rest: seq<byte>)
    requires conn.Valid() && input.Valid() && conn !in input.Repr && conn.streamer !in input.Repr
    requires Bounded(input.View(), conn.State()) && Permitted(input.View(), ReadFromFd(received))
    requires !Parse(false, conn.streamer.packetFlag, conn.State(), input.View().unread + received + rest).broken
    modifies conn, input.Repr
    ensures conn.Valid() && input.Valid() && fresh(input.Repr - old(input.Repr))
    ensures Bounded(input.View(), conn.State())
    ensures var flag := conn.streamer.packetFlag;
            var o := Parse(false, flag, old(conn.State()), old(input.View()).unread + received);
            && !o.broken && conn.State() == o.state && input.View().unread == o.unread
            && conn.View() == HandleAll(conn.streamer.factory, conn.batchPushPacket, old(conn.View()), o.packets)
            && !Parse(false, flag, o.state, o.unread + rest).broken
  {
    ghost var flag, v, st := conn.streamer.packetFlag, input.View(), conn.State();
    HandleReadEvent(conn, input, received);
    ghost var turn := Turn(received, input.View());
    ReadAppends(v, received);
    TurnKeepsBound(flag, v, st, turn, rest);
  }

  /** Two portions of a stream, parsed and handled one after the other, are one. */
  lemma Compose(flag: int32, st: Option<Header>, unread: seq<byte>, stream: seq<byte>, k: nat, n: nat,
                factory: Factory, batching: bool, inbox: Inbox)
    requires StateOk(st) && k + n <= |stream| && !Parse(false, flag, st, unread + stream[..k]).broken
    ensures var o1 := Parse(false, flag, st, unread + stream[..k]);
            var o2 := Parse(false, flag, o1.state, o1.unread + stream[k..][..n]);
            var o := Parse(false, flag, st, unread + stream[..k + n]);
            && o.state == o2.state && o.unread == o2.unread
            && HandleAll(factory, batching, inbox, o.packets)
               == HandleAll(factory, batching, HandleAll(factory, batching, inbox, o1.packets), o2.packets)
  {
    var a, b := stream[..k], stream[k..][..n];
    var o1 := Parse(false, flag, st, unread + a);
    assert stream[..k + n] == a + b;
    Associative(unread, a, b);
    ParseAppend(flag, st, unread + a, b);
    HandleAllAppend(factory, batching, inbox, o1.packets, Parse(false, flag, o1.state, o1.unread + b).packets);
  }

  function Least(a: nat, b: nat): nat {
    if a < b then a else b
  }
}
