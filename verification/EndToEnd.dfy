/** From the threads that post packets to the peer's parser: what arrives is what was sent. */
module EndToEnd {
  import opened Bytes
  import opened PacketStreamer
  import opened FrameParser
  import opened Wrappers
  import opened Sequences
  import opened FrameAtomicity
  import Net = TcpConnSpec

  lemma ReceivedConcat(ps: seq<Packet>, qs: seq<Packet>)
    ensures Received(ps + qs) == Received(ps) + Received(qs)
  {
  }

  /** Of a stream of whole frames the first bytes give the first packets, and never a bad
      header. */
  lemma PrefixOfFrames(flag: int32, ms: seq<Message>, a: seq<byte>, b: seq<byte>)
    requires a + b == EncodeAll(flag, ms) && BodiesOk(ms)
    ensures var o := Parse(false, flag, None, a);
            && !o.broken && Received(o.packets) <= ms
            && (b == [] ==> Received(o.packets) == ms && o.state == None && o.unread == [])
  {
    ParseEncoded(flag, ms);
    ParseAppend(flag, None, a, b);
    var o := Parse(false, flag, None, a);
    if b == [] {
      assert a + b == a;
    } else if !o.broken {
      ReceivedConcat(o.packets, Parse(false, flag, o.state, o.unread + b).packets);
    }
  }

  lemma ChunksOfFrames(flag: int32, ms: seq<Message>, a: seq<byte>, b: seq<byte>, chunks: seq<seq<byte>>)
    requires a + b == EncodeAll(flag, ms) && BodiesOk(ms)
    requires Concat(chunks) == a && SmallReads(chunks)
    ensures var o := Feed(true, flag, None, [], chunks);
            Received(o.packets) <= ms && (b == [] ==> Received(o.packets) == ms && o.state == None && o.unread == [])
  {
    PrefixOfFrames(flag, ms, a, b);
    assert [] + Concat(chunks) == a;
    SmallReadsFit(flag, None, [], chunks);
    ChunkingIndependence(flag, None, [], chunks);
  }

  lemma SentFirst(sent: seq<Post>, inflight: seq<Post>, held: seq<Post>, posted: seq<Post>)
    requires Accounted(sent, inflight, held, posted)
    ensures forall t: nat :: Of(sent, t) <= Of(posted, t)
  {
    forall t: nat ensures Of(sent, t) <= Of(posted, t) {
      assert Of(sent, t) + Of(inflight, t) + Of(held, t) == Of(posted, t);
    }
  }

  /** The whole way: while the connection is open, in every interleaving of posting threads,
      loop steps and short writes, and however the peer's reads cut the bytes the kernel
      took, the peer delivers a prefix of the frames given to the connection, all of them
      once the output buffer has drained; and of each thread's packets these are the first
      it came with, as read off the steps of the run, in its order. */
  lemma DeliveredIsSent(flag: int32, cfg: Net.Config, threads: nat, acts: seq<Act>, chunks: seq<seq<byte>>)
    requires FrameAtomicity.Path(Start(flag, cfg, threads), acts)
    requires var s := FrameAtomicity.After(Start(flag, cfg, threads), acts);
             && s.net.conn.started && !s.net.conn.chan.closed
             && (forall i :: 0 <= i < |s.sent| ==> BodyOk(s.sent[i].message))
             && Concat(chunks) == s.net.conn.wire
    requires SmallReads(chunks)
    ensures var s := FrameAtomicity.After(Start(flag, cfg, threads), acts);
            var o := Feed(true, flag, None, [], chunks);
            && Received(o.packets) <= Messages(s.sent)
            && (s.net.conn.out == [] ==> Received(o.packets) == Messages(s.sent) && o.state == None && o.unread == [])
            && (forall t: nat :: t < threads ==> Of(s.sent, t) <= PostsOf(acts, t, None))
  {
    var s := FrameAtomicity.After(Start(flag, cfg, threads), acts);
    FramesStayWhole(flag, cfg, threads, acts);
    ChunksOfFrames(flag, Messages(s.sent), s.net.conn.wire, s.net.conn.out, chunks);
    SentFirst(s.sent, s.inflight, s.held, s.posted);
    forall t: nat | t < threads ensures Of(s.sent, t) <= PostsOf(acts, t, None) {
      RunPosts(Start(flag, cfg, threads), acts, t, None);
      EmptyLeft(PostsOf(acts, t, None));
    }
  }
}
