/** The sending half of a server connection: encode a packet into the shared output buffer
    and hand the buffer to the TCP connection. */
module PacketSender {
  import opened Bytes
  import opened ByteBuffer
  import opened PacketStreamer
  import opened FrameParser
  import opened Sequences
  import opened TcpConn
  import Spec = TcpConnSpec

  class Sender {
    const conn: TCPConn
    const streamer: DefaultPacketStreamer
    const output: Buffer

    ghost predicate Valid()
      reads this, conn, conn.outputBuffer, conn.outputBuffer.Repr, output, output.Repr
    {
      && conn.Valid() && output.Valid() && output.Repr !! conn.outputBuffer.Repr
      && conn !in output.Repr && conn.chan !in output.Repr
      && streamer !in output.Repr && streamer !in conn.outputBuffer.Repr
    }

    constructor (conn: TCPConn, streamer: DefaultPacketStreamer)
      requires conn.Valid() && streamer !in conn.outputBuffer.Repr
      ensures Valid() && output.View().unread == [] && this.conn == conn && this.streamer == streamer
    {
      this.conn := conn;
      this.streamer := streamer;
      output := new Buffer(INITIAL_SIZE, CHEAP_PREPEND_SIZE);
    }

    /** What one packet leaves in an output buffer that held `left`. */
    ghost function Encoding(left: seq<byte>, chid: uint32, pcode: int32, payload: Payload): seq<byte>
      reads streamer
    {
      match payload
      case Encoded(_) => EncodeEffect(streamer.packetFlag, 0, left, Header(chid, pcode, 0), payload).value
      case Failed(_) => left
    }

    /** With room for the narrowed lengths that is its frame added, or nothing. */
    lemma EncodingAddsFrame(left: seq<byte>, chid: uint32, pcode: int32, payload: Payload)
      requires |left| + 12 < 0x8000_0000
      ensures Encoding(left, chid, pcode, payload) ==
                match payload
                case Encoded(body) => left + FrameOf(streamer.packetFlag, Message.Message(chid, pcode, body))
                case Failed(_) => left
    {
      if payload.Encoded? {
        var h := Header(chid, pcode, 0);
        PatchedInPlace(streamer.packetFlag, left, h, payload.body);
        Associative(left, HeaderBytes(streamer.packetFlag, h.(dataLen := ToInt32(|payload.body|))), payload.body);
      }
    }

    /** Encoding into the output buffer. A failed payload is given up cleanly while the length
        of the buffer fits an `int`; beyond, the indices of the buffer may cross. */
    method EncodeFrame(chid: uint32, pcode: int32, payload: Payload) returns (n: nat)
      requires Valid() && (payload.Failed? ==> |output.View().unread| < 0x8000_0000)
      modifies output.Repr
      ensures Valid() && fresh(output.Repr - old(output.Repr)) && n == |output.View().unread|
      ensures output.View().unread == old(Encoding(output.View().unread, chid, pcode, payload))
      ensures conn.View() == old(conn.View())
    {
      ghost var left, h := output.View().unread, Header(chid, pcode, 0);
      var encoded, header, front := streamer.Encode(chid, pcode, payload, output);
      if payload.Failed? {
        RollBackIff(streamer.packetFlag, front, left, h, payload.partial);
      }
      n := output.Length();
    }

    /** What runs under the lock. On a connected connection what was left in the output buffer,
        if a send was dropped before, and the packet's frame reach the connection in one piece
        and nothing stays behind; a packet whose own encoder fails adds nothing. Otherwise
        nothing happens. */
    method PostPacket(chid: uint32, pcode: int32, payload: Payload, inLoopThread: bool, k: Spec.SendResult, closes: nat)
      returns (ok: bool)
      requires Valid() && chid != 0 && (payload.Failed? ==> |output.View().unread| < 0x8000_0000)
      requires conn.status != Spec.Disconnected ==> conn.chan.View().Valid() && !conn.chan.closed
      requires Spec.SendAllowed(Encoding(output.View().unread, chid, pcode, payload), k)
      modifies conn, conn.chan, conn.outputBuffer.Repr, output.Repr
      ensures Valid() && ok == (old(conn.status) == Spec.Connected)
      ensures output.View().unread == if ok then [] else old(output.View().unread)
      ensures var data := old(Encoding(output.View().unread, chid, pcode, payload));
              conn.View() ==
                if !ok || data == [] then old(conn.View())
                else if inLoopThread then Spec.SendInLoop(old(conn.View()), data, k, closes)
                else old(conn.View()).(queue := old(conn.View()).queue + [Spec.SendTask(data)])
    {
      if conn.status != Spec.Connected {
        return false;
      }
      var n := EncodeFrame(chid, pcode, payload);
      if n > 0 {
        conn.Send(output, inLoopThread, k, closes);
      }
      ok := true;
    }
  }
}
