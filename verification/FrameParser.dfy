/** The resumable frame parser of a server connection, as a function on byte sequences,
    and what it promises: the delivered packets do not depend on how the bytes were cut
    into reads, and it inverts the packet encoder. */
module FrameParser {
  import opened Bytes
  import opened PacketStreamer
  import opened Wrappers
  import opened Sequences

  /** What one call of the message callback leaves behind: the packets it delivered, the
      header it is still waiting on, the bytes it did not consume, and whether it stopped
      at a bad header. */
  datatype Outcome = Outcome(packets: seq<Packet>, state: Option<Header>, unread: seq<byte>, broken: bool)

  predicate Same(a: Outcome, b: Outcome) {
    a.packets == b.packets && a.state == b.state && a.unread == b.unread
  }

  function After(packets: seq<Packet>, o: Outcome): Outcome {
    o.(packets := packets + o.packets)
  }

  predicate StateOk(st: Option<Header>) {
    st.Some? ==> SizeOk(st.value)
  }

  /** The program compares the payload length with the unread length narrowed to `int`.
      `narrow` selects that comparison; without it the lengths are compared as they are. */
  predicate Complete(narrow: bool, available: nat, dataLen: int) {
    (if narrow then ToInt32(available) else available) >= dataLen
  }

  function Parse(narrow: bool, flag: int32, st: Option<Header>, s: seq<byte>): (o: Outcome)
    requires StateOk(st)
    ensures StateOk(o.state) && |o.unread| <= |s|
    ensures o.broken ==> o.state == None
    decreases |s| + (if st.Some? then 1 else 0), 1
  {
    if s == [] then Outcome([], st, s, false)
    else if st.Some? then ParseBody(narrow, flag, st.value, s)
    else if |s| < HEADER_SIZE then Outcome([], None, s, false)
    else
      var rest := s[HEADER_SIZE..];
      if FlagOf(s) != flag || !SizeOk(HeaderOf(s)) then Outcome([], None, rest, true)
      else ParseBody(narrow, flag, HeaderOf(s), rest)
  }

  function ParseBody(narrow: bool, flag: int32, h: Header, s: seq<byte>): (o: Outcome)
    requires SizeOk(h)
    ensures StateOk(o.state) && |o.unread| <= |s|
    ensures o.broken ==> o.state == None
    decreases |s| + 1, 0
  {
    if Complete(narrow, |s|, h.dataLen) then
      After([Packet(h, s[..h.dataLen])], Parse(narrow, flag, None, s[h.dataLen..]))
    else Outcome([], Some(h), s, false)
  }

  /** One call per chunk, each on the bytes left over from the previous call. */
  function Feed(narrow: bool, flag: int32, st: Option<Header>, unread: seq<byte>, chunks: seq<seq<byte>>): (o: Outcome)
    requires StateOk(st)
    ensures StateOk(o.state)
    decreases |chunks|
  {
    if chunks == [] then Outcome([], st, unread, false)
    else
      var o := Parse(narrow, flag, st, unread + chunks[0]);
      After(o.packets, Feed(narrow, flag, o.state, o.unread, chunks[1..]))
  }

  function Concat(chunks: seq<seq<byte>>): seq<byte>
    decreases |chunks|
  {
    if chunks == [] then [] else chunks[0] + Concat(chunks[1..])
  }

  // ----- The narrowed comparison -----

  /** The narrowed test agrees with the intended one exactly when the unread length fits an
      `int`, or wraps to a value that still reaches the payload length. */
  lemma NarrowedTest(available: nat, dataLen: int)
    requires 0 <= dataLen <= MAX_DATA_LEN
    ensures Complete(true, available, dataLen) == Complete(false, available, dataLen)
            <==> available < 0x8000_0000 || dataLen <= available % 0x1_0000_0000 < 0x8000_0000
  {
  }

  /** With two gigabytes unread and a header already read, a call consumes nothing although
      the payload is complete. */
  lemma NarrowedTestStalls(flag: int32, h: Header, s: seq<byte>)
    requires SizeOk(h) && 0x8000_0000 <= |s| < 0x1_0000_0000
    ensures Parse(true, flag, Some(h), s) == Outcome([], Some(h), s, false)
    ensures h.dataLen <= |s|
  {
  }

  lemma {:induction false} NarrowIsWide(flag: int32, st: Option<Header>, s: seq<byte>)
    requires StateOk(st) && |s| < 0x8000_0000
    ensures Parse(true, flag, st, s) == Parse(false, flag, st, s)
    decreases |s| + (if st.Some? then 1 else 0), 1
  {
    if s == [] {
    } else if st.Some? {
      NarrowBodyIsWide(flag, st.value, s);
    } else if |s| >= HEADER_SIZE && FlagOf(s) == flag && SizeOk(HeaderOf(s)) {
      NarrowBodyIsWide(flag, HeaderOf(s), s[HEADER_SIZE..]);
    }
  }

  lemma {:induction false} NarrowBodyIsWide(flag: int32, h: Header, s: seq<byte>)
    requires SizeOk(h) && |s| < 0x8000_0000
    ensures ParseBody(true, flag, h, s) == ParseBody(false, flag, h, s)
    decreases |s| + 1, 0
  {
    if Complete(false, |s|, h.dataLen) {
      NarrowIsWide(flag, None, s[h.dataLen..]);
    }
  }

  // ----- Bytes that arrive later -----

  /** Parsing is incremental: stopping after `a` and resuming with `b` is the same as having
      had all the bytes at once, unless `a` ended the call at a bad header. */
  lemma {:induction false} ParseAppend(flag: int32, st: Option<Header>, a: seq<byte>, b: seq<byte>)
    requires StateOk(st)
    ensures var o := Parse(false, flag, st, a);
            Parse(false, flag, st, a + b) ==
              if o.broken then o.(unread := o.unread + b)
              else After(o.packets, Parse(false, flag, o.state, o.unread + b))
    decreases |a| + (if st.Some? then 1 else 0), 1
  {
    var s := a + b;
    if a == [] {
      assert s == b;
      assert After([], Parse(false, flag, st, b)) == Parse(false, flag, st, b);
    } else if st.Some? {
      ParseBodyAppend(flag, st.value, a, b);
    } else if |a| < HEADER_SIZE {
      assert After([], Parse(false, flag, st, s)) == Parse(false, flag, st, s);
    } else {
      HeaderPrefix(a, b);
      var rest := a[HEADER_SIZE..];
      assert s[HEADER_SIZE..] == rest + b;
      if FlagOf(a) == flag && SizeOk(HeaderOf(a)) {
        ParseBodyAppend(flag, HeaderOf(a), rest, b);
      }
    }
  }

  lemma {:induction false} ParseBodyAppend(flag: int32, h: Header, a: seq<byte>, b: seq<byte>)
    requires SizeOk(h)
    ensures var o := ParseBody(false, flag, h, a);
            ParseBody(false, flag, h, a + b) ==
              if o.broken then o.(unread := o.unread + b)
              else After(o.packets, Parse(false, flag, o.state, o.unread + b))
    decreases |a| + 1, 0
  {
    var n := h.dataLen;
    if |a| >= n {
      assert (a + b)[..n] == a[..n] && (a + b)[n..] == a[n..] + b;
      ParseAppend(flag, None, a[n..], b);
      AfterAfter([Packet(h, a[..n])], flag, a[n..], b);
    } else if a + b == [] {
    } else {
      assert After([], ParseBody(false, flag, h, a + b)) == ParseBody(false, flag, h, a + b);
    }
  }

  lemma AfterAfter(head: seq<Packet>, flag: int32, a: seq<byte>, b: seq<byte>)
    ensures var o := Parse(false, flag, None, a);
            After(head, After(o.packets, Parse(false, flag, o.state, o.unread + b)))
            == After(head + o.packets, Parse(false, flag, o.state, o.unread + b))
  {
    var o := Parse(false, flag, None, a);
    var t := Parse(false, flag, o.state, o.unread + b);
    assert head + (o.packets + t.packets) == head + o.packets + t.packets;
  }

  lemma HeaderPrefix(a: seq<byte>, b: seq<byte>)
    requires |a| >= HEADER_SIZE
    ensures FlagOf(a + b) == FlagOf(a) && HeaderOf(a + b) == HeaderOf(a)
  {
    var s := a + b;
    assert s[0..4] == a[0..4] && s[4..8] == a[4..8] && s[8..12] == a[8..12] && s[12..16] == a[12..16];
  }

  // ----- Chunking -----

  lemma ConcatCut(unread: seq<byte>, chunks: seq<seq<byte>>)
    requires chunks != []
    ensures unread + Concat(chunks) == unread + chunks[0] + Concat(chunks[1..])
  {
  }

  /** Every call sees a buffer whose length fits an `int`. */
  predicate FitsInt(flag: int32, st: Option<Header>, unread: seq<byte>, chunks: seq<seq<byte>>)
    requires StateOk(st)
    decreases |chunks|
  {
    chunks == [] ||
    (|unread + chunks[0]| < 0x8000_0000 &&
     var o := Parse(false, flag, st, unread + chunks[0]);
     FitsInt(flag, o.state, o.unread, chunks[1..]))
  }

  lemma {:induction false} FeedNarrowIsWide(flag: int32, st: Option<Header>, unread: seq<byte>, chunks: seq<seq<byte>>)
    requires StateOk(st) && FitsInt(flag, st, unread, chunks)
    ensures Feed(true, flag, st, unread, chunks) == Feed(false, flag, st, unread, chunks)
    decreases |chunks|
  {
    if chunks != [] {
      NarrowIsWide(flag, st, unread + chunks[0]);
      var o := Parse(false, flag, st, unread + chunks[0]);
      FeedNarrowIsWide(flag, o.state, o.unread, chunks[1..]);
    }
  }

  /** A call that does not stop at a bad header leaves less than one frame behind, so reads
      of up to 2^31 - 2^26 bytes keep every call within the `int` range. */
  lemma {:induction false} BacklogIsSmall(flag: int32, st: Option<Header>, s: seq<byte>)
    requires StateOk(st)
    ensures var o := Parse(false, flag, st, s);
            !o.broken && s != [] ==> |o.unread| < (if o.state.Some? then o.state.value.dataLen else HEADER_SIZE)
    decreases |s| + (if st.Some? then 1 else 0), 1
  {
    if s == [] {
    } else if st.Some? {
      BodyBacklogIsSmall(flag, st.value, s);
    } else if |s| >= HEADER_SIZE && FlagOf(s) == flag && SizeOk(HeaderOf(s)) {
      BodyBacklogIsSmall(flag, HeaderOf(s), s[HEADER_SIZE..]);
    }
  }

  lemma {:induction false} BodyBacklogIsSmall(flag: int32, h: Header, s: seq<byte>)
    requires SizeOk(h)
    ensures var o := ParseBody(false, flag, h, s);
            !o.broken ==> |o.unread| < (if o.state.Some? then o.state.value.dataLen else HEADER_SIZE)
    decreases |s| + 1, 0
  {
    if Complete(false, |s|, h.dataLen) {
      BacklogIsSmall(flag, None, s[h.dataLen..]);
    }
  }

  predicate ReadsUpTo(n: nat, chunks: seq<seq<byte>>) {
    forall i :: 0 <= i < |chunks| ==> |chunks[i]| <= n
  }

  predicate SmallReads(chunks: seq<seq<byte>>) {
    ReadsUpTo(0x8000_0000 - MAX_DATA_LEN, chunks)
  }

  /** A parse waiting for a payload has something to wait for. */
  predicate Waiting(st: Option<Header>, unread: seq<byte>) {
    StateOk(st) && |unread| < (if st.Some? then st.value.dataLen else HEADER_SIZE)
  }

  /** A parser that has consumed all it can does nothing more until bytes arrive. */
  lemma WaitingIsIdle(flag: int32, st: Option<Header>, unread: seq<byte>)
    requires Waiting(st, unread)
    ensures Parse(false, flag, st, unread) == Outcome([], st, unread, false)
  {
  }

  lemma {:induction false} WideChunking(flag: int32, st: Option<Header>, unread: seq<byte>, chunks: seq<seq<byte>>)
    requires Waiting(st, unread)
    requires !Parse(false, flag, st, unread + Concat(chunks)).broken
    ensures Same(Feed(false, flag, st, unread, chunks), Parse(false, flag, st, unread + Concat(chunks)))
    decreases |chunks|
  {
    if chunks == [] {
      assert unread + Concat(chunks) == unread;
      WaitingIsIdle(flag, st, unread);
    } else {
      var a := unread + chunks[0];
      var o := Parse(false, flag, st, a);
      ParseAppend(flag, st, a, Concat(chunks[1..]));
      ConcatCut(unread, chunks);
      StillWaiting(flag, st, unread, chunks[0]);
      WideChunking(flag, o.state, o.unread, chunks[1..]);
    }
  }

  lemma StillWaiting(flag: int32, st: Option<Header>, unread: seq<byte>, chunk: seq<byte>)
    requires Waiting(st, unread)
    ensures var o := Parse(false, flag, st, unread + chunk); !o.broken ==> Waiting(o.state, o.unread)
  {
    if unread + chunk == [] {
      WaitingIsIdle(flag, st, unread);
      assert unread == unread + chunk;
    } else {
      BacklogIsSmall(flag, st, unread + chunk);
    }
  }

  /** Reads of at most 2^31 - 2^26 bytes never push a well-formed stream out of `int` range. */
  lemma {:induction false} SmallReadsFit(flag: int32, st: Option<Header>, unread: seq<byte>, chunks: seq<seq<byte>>)
    requires Waiting(st, unread) && SmallReads(chunks)
    requires !Parse(false, flag, st, unread + Concat(chunks)).broken
    ensures FitsInt(flag, st, unread, chunks)
    decreases |chunks|
  {
    if chunks != [] {
      var a := unread + chunks[0];
      var o := Parse(false, flag, st, a);
      ParseAppend(flag, st, a, Concat(chunks[1..]));
      ConcatCut(unread, chunks);
      StillWaiting(flag, st, unread, chunks[0]);
      SmallReadsFit(flag, o.state, o.unread, chunks[1..]);
    }
  }

  /** Chunking independence, through the narrowed comparison the program makes. From any point
      where the parser is waiting, for every way of cutting a stream with only valid headers
      in which no call sees more bytes than an `int` counts, the packets delivered, the parser
      state and the unread bytes are those of the frame grammar on the whole stream. */
  lemma ChunkingIndependence(flag: int32, st: Option<Header>, unread: seq<byte>, chunks: seq<seq<byte>>)
    requires Waiting(st, unread) && FitsInt(flag, st, unread, chunks)
    requires !Parse(false, flag, st, unread + Concat(chunks)).broken
    ensures Same(Feed(true, flag, st, unread, chunks), Parse(false, flag, st, unread + Concat(chunks)))
  {
    WideChunking(flag, st, unread, chunks);
    FeedNarrowIsWide(flag, st, unread, chunks);
  }

  /** A stream shorter than two gigabytes fits in every chunking. */
  lemma {:induction false} ShortStreamFits(flag: int32, st: Option<Header>, unread: seq<byte>, chunks: seq<seq<byte>>)
    requires StateOk(st) && |unread + Concat(chunks)| < 0x8000_0000
    ensures FitsInt(flag, st, unread, chunks)
    decreases |chunks|
  {
    if chunks != [] {
      ConcatCut(unread, chunks);
      var o := Parse(false, flag, st, unread + chunks[0]);
      ShortStreamFits(flag, o.state, o.unread, chunks[1..]);
    }
  }

  /** After a bad header fewer than sixteen further bytes are never consumed. */
  lemma {:induction false} ShortTailIsKept(flag: int32, unread: seq<byte>, chunks: seq<seq<byte>>)
    requires |unread + Concat(chunks)| < HEADER_SIZE
    ensures Same(Feed(false, flag, None, unread, chunks), Outcome([], None, unread + Concat(chunks), false))
    decreases |chunks|
  {
    if chunks == [] {
      assert unread + Concat(chunks) == unread;
    } else {
      ConcatCut(unread, chunks);
      ShortTailIsKept(flag, unread + chunks[0], chunks[1..]);
    }
  }

  /** A bad header followed by fewer than sixteen bytes does not depend on the chunking
      either. */
  lemma {:induction false} BrokenWithShortTail(flag: int32, st: Option<Header>, unread: seq<byte>,
                                               chunks: seq<seq<byte>>)
    requires Waiting(st, unread)
    requires Parse(false, flag, st, unread + Concat(chunks)).broken
    requires |Parse(false, flag, st, unread + Concat(chunks)).unread| < HEADER_SIZE
    ensures Same(Feed(false, flag, st, unread, chunks), Parse(false, flag, st, unread + Concat(chunks)))
    decreases |chunks|
  {
    if chunks == [] {
      NothingMore(flag, st, unread, chunks);
    } else {
      var a := unread + chunks[0];
      var o := Parse(false, flag, st, a);
      ParseAppend(flag, st, a, Concat(chunks[1..]));
      ConcatCut(unread, chunks);
      if o.broken {
        ShortTailIsKept(flag, o.unread, chunks[1..]);
      } else {
        StillWaiting(flag, st, unread, chunks[0]);
        BrokenWithShortTail(flag, o.state, o.unread, chunks[1..]);
      }
    }
  }

  lemma NothingMore(flag: int32, st: Option<Header>, unread: seq<byte>, chunks: seq<seq<byte>>)
    requires Waiting(st, unread) && chunks == []
    ensures !Parse(false, flag, st, unread + Concat(chunks)).broken
  {
    assert unread + Concat(chunks) == unread;
    WaitingIsIdle(flag, st, unread);
  }

  lemma BadHeaderAlone(flag: int32, s: seq<byte>)
    requires |s| >= HEADER_SIZE && (FlagOf(s) != flag || !SizeOk(HeaderOf(s)))
    ensures Parse(false, flag, None, s) == Outcome([], None, s[HEADER_SIZE..], true)
    ensures Parse(false, flag, None, s[..HEADER_SIZE]) == Outcome([], None, [], true)
  {
    var a, rest := s[..HEADER_SIZE], s[HEADER_SIZE..];
    HeaderPrefix(a, rest);
    assert a + rest == s && a[HEADER_SIZE..] == [];
  }

  /** A call that meets a bad header has the whole payload it was waiting for. */
  lemma BrokenBody(flag: int32, h: Header, s: seq<byte>)
    requires SizeOk(h) && ParseBody(false, flag, h, s).broken
    ensures h.dataLen <= |s|
    ensures ParseBody(false, flag, h, s)
            == After([Packet(h, s[..h.dataLen])], Parse(false, flag, None, s[h.dataLen..]))
  {
  }

  /** The bytes up to and including a bad header parse the same without what follows. */
  lemma {:induction false} BrokenPrefix(flag: int32, s: seq<byte>) returns (k: nat)
    requires Parse(false, flag, None, s).broken
    ensures k <= |s| && s[k..] == Parse(false, flag, None, s).unread
    ensures Parse(false, flag, None, s[..k]) == Parse(false, flag, None, s).(unread := [])
    decreases |s|
  {
    var rest := s[HEADER_SIZE..];
    if FlagOf(s) != flag || !SizeOk(HeaderOf(s)) {
      k := HEADER_SIZE;
      BadHeaderAlone(flag, s);
    } else {
      var h := HeaderOf(s);
      BrokenBody(flag, h, rest);
      var tail := rest[h.dataLen..];
      var j := BrokenPrefix(flag, tail);
      k := HEADER_SIZE + h.dataLen + j;
      FrameThenPrefix(flag, s, j);
      assert s[k..] == tail[j..];
    }
  }

  /** A complete frame followed by a cut of the remaining bytes. */
  lemma FrameThenPrefix(flag: int32, s: seq<byte>, j: nat)
    requires |s| >= HEADER_SIZE && FlagOf(s) == flag && SizeOk(HeaderOf(s))
    requires HEADER_SIZE + HeaderOf(s).dataLen + j <= |s|
    ensures var h := HeaderOf(s); var rest := s[HEADER_SIZE..];
            Parse(false, flag, None, s[..HEADER_SIZE + h.dataLen + j])
            == After([Packet(h, rest[..h.dataLen])], Parse(false, flag, None, rest[h.dataLen..][..j]))
  {
    var h, rest := HeaderOf(s), s[HEADER_SIZE..];
    var p := s[..HEADER_SIZE + h.dataLen + j];
    HeaderPrefix(p, s[|p|..]);
    assert p + s[|p|..] == s;
    var body := p[HEADER_SIZE..];
    assert body == rest[..h.dataLen + j];
    assert body[..h.dataLen] == rest[..h.dataLen] && body[h.dataLen..] == rest[h.dataLen..][..j];
    assert Parse(false, flag, None, p) == ParseBody(false, flag, h, body);
  }

  /** The exact condition, through the narrowed comparison, for every stream an `int` can
      count: its outcome is the same for every chunking if and only if no header in it is
      bad, or the first bad one is followed by fewer bytes than a header. */
  lemma ChunkingIndependentIff(flag: int32, s: seq<byte>)
    requires |s| < 0x8000_0000
    ensures var o := Parse(true, flag, None, s);
            (forall chunks :: Concat(chunks) == s ==> Same(Feed(true, flag, None, [], chunks), o))
            <==> !o.broken || |o.unread| < HEADER_SIZE
  {
    NarrowIsWide(flag, None, s);
    var o := Parse(false, flag, None, s);
    forall chunks | Concat(chunks) == s
      ensures Feed(true, flag, None, [], chunks) == Feed(false, flag, None, [], chunks)
      ensures !o.broken || |o.unread| < HEADER_SIZE ==> Same(Feed(false, flag, None, [], chunks), o)
    {
      assert [] + Concat(chunks) == s;
      ShortStreamFits(flag, None, [], chunks);
      FeedNarrowIsWide(flag, None, [], chunks);
      if !o.broken {
        WideChunking(flag, None, [], chunks);
      } else if |o.unread| < HEADER_SIZE {
        BrokenWithShortTail(flag, None, [], chunks);
      }
    }
    if o.broken && |o.unread| >= HEADER_SIZE {
      var k := BrokenPrefix(flag, s);
      SplitAtBadHeader(flag, s, k);
    }
  }

  lemma SplitAtBadHeader(flag: int32, s: seq<byte>, k: nat)
    requires k <= |s| && Parse(false, flag, None, s).broken
    requires s[k..] == Parse(false, flag, None, s).unread && |s[k..]| >= HEADER_SIZE
    requires Parse(false, flag, None, s[..k]) == Parse(false, flag, None, s).(unread := [])
    ensures var chunks := [s[..k], s[k..]];
            Concat(chunks) == s && !Same(Feed(false, flag, None, [], chunks), Parse(false, flag, None, s))
  {
    var a, b := s[..k], s[k..];
    var one, none: seq<seq<byte>> := [b], [];
    assert [a, b][1..] == one && one[1..] == none;
    assert Concat(one) == b + [] == b;
    assert Concat([a, b]) == a + b == s;
    assert [] + a == a && [] + b == b;
    var o1 := Parse(false, flag, None, a);
    var o2 := Parse(false, flag, None, b);
    assert Feed(false, flag, None, [], one) == After(o2.packets, Feed(false, flag, o2.state, o2.unread, none));
    assert Feed(false, flag, None, [], [a, b]).unread == o2.unread;
    ConsumesHeader(flag, b);
  }

  lemma ConsumesHeader(flag: int32, s: seq<byte>)
    requires |s| >= HEADER_SIZE
    ensures |Parse(false, flag, None, s).unread| < |s|
  {
  }

  // ----- Round trip -----

  /** A packet handed to the encoder, with the bytes its own `Encode` appends. */
  datatype Message = Message(chid: uint32, pcode: int32, body: seq<byte>)

  /** The frame that `Encode` appends: the length word is the payload length narrowed to `int`. */
  function FrameOf(flag: int32, m: Message): seq<byte> {
    HeaderBytes(flag, Header(m.chid, m.pcode, ToInt32(|m.body|))) + m.body
  }

  function EncodeAll(flag: int32, ms: seq<Message>): seq<byte> {
    if ms == [] then [] else FrameOf(flag, ms[0]) + EncodeAll(flag, ms[1..])
  }

  /** What a received packet says about the message it came from. */
  function Received(ps: seq<Packet>): seq<Message> {
    seq(|ps|, i requires 0 <= i < |ps| => Message(ps[i].header.chid, ps[i].header.pcode, ps[i].body))
  }

  predicate BodyOk(m: Message) {
    |m.body| <= MAX_DATA_LEN
  }

  predicate BodiesOk(ms: seq<Message>) {
    forall i :: 0 <= i < |ms| ==> BodyOk(ms[i])
  }

  lemma ReceivedAfter(p: Packet, ps: seq<Packet>)
    ensures Received([p] + ps) == [Message(p.header.chid, p.header.pcode, p.body)] + Received(ps)
  {
  }

  lemma FrameThenRest(flag: int32, m: Message, rest: seq<byte>)
    ensures var s := FrameOf(flag, m) + rest; var h := Header(m.chid, m.pcode, ToInt32(|m.body|));
            && |s| >= HEADER_SIZE && FlagOf(s) == flag && HeaderOf(s) == h && s[HEADER_SIZE..] == m.body + rest
  {
    var h := Header(m.chid, m.pcode, ToInt32(|m.body|));
    assert FrameOf(flag, m) + rest == HeaderBytes(flag, h) + (m.body + rest);
    HeaderRoundTrip(flag, h, m.body + rest);
  }

  /** Encoding any list of packets and parsing the bytes gives the list back, in order, with
      nothing left over and no header pending. */
  lemma {:induction false} ParseEncoded(flag: int32, ms: seq<Message>)
    requires BodiesOk(ms)
    ensures var o := Parse(false, flag, None, EncodeAll(flag, ms));
            Received(o.packets) == ms && o.state == None && o.unread == [] && !o.broken
  {
    if ms != [] {
      var m, rest := ms[0], EncodeAll(flag, ms[1..]);
      FrameThenRest(flag, m, rest);
      assert (m.body + rest)[..|m.body|] == m.body && (m.body + rest)[|m.body|..] == rest;
      ParseEncoded(flag, ms[1..]);
      ReceivedAfter(Packet(Header(m.chid, m.pcode, |m.body|), m.body), Parse(false, flag, None, rest).packets);
    }
  }

  /** The round trip over any chunking, through the narrowed comparison the program makes. */
  lemma RoundTrip(flag: int32, ms: seq<Message>, chunks: seq<seq<byte>>)
    requires BodiesOk(ms)
    requires Concat(chunks) == EncodeAll(flag, ms) && SmallReads(chunks)
    ensures var o := Feed(true, flag, None, [], chunks);
            Received(o.packets) == ms && o.state == None && o.unread == []
  {
    EmptyLeft(Concat(chunks));
    ParseEncoded(flag, ms);
    SmallReadsFit(flag, None, [], chunks);
    ChunkingIndependence(flag, None, [], chunks);
  }

  predicate SmallBodies(ps: seq<Packet>) {
    forall i :: 0 <= i < |ps| ==> |ps[i].body| <= MAX_DATA_LEN
  }

  /** No packet longer than the receiver's limit is ever delivered. */
  lemma {:induction false} ParsedAreSmall(narrow: bool, flag: int32, st: Option<Header>, s: seq<byte>)
    requires StateOk(st)
    ensures SmallBodies(Parse(narrow, flag, st, s).packets)
    decreases |s| + (if st.Some? then 1 else 0), 1
  {
    if s == [] {
    } else if st.Some? {
      ParsedBodyIsSmall(narrow, flag, st.value, s);
    } else if |s| >= HEADER_SIZE && FlagOf(s) == flag && SizeOk(HeaderOf(s)) {
      ParsedBodyIsSmall(narrow, flag, HeaderOf(s), s[HEADER_SIZE..]);
    }
  }

  lemma {:induction false} ParsedBodyIsSmall(narrow: bool, flag: int32, h: Header, s: seq<byte>)
    requires SizeOk(h)
    ensures SmallBodies(ParseBody(narrow, flag, h, s).packets)
    decreases |s| + 1, 0
  {
    if Complete(narrow, |s|, h.dataLen) {
      ParsedAreSmall(narrow, flag, None, s[h.dataLen..]);
    }
  }

  lemma {:induction false} FedAreSmall(narrow: bool, flag: int32, st: Option<Header>, unread: seq<byte>,
                                       chunks: seq<seq<byte>>)
    requires StateOk(st)
    ensures SmallBodies(Feed(narrow, flag, st, unread, chunks).packets)
    decreases |chunks|
  {
    if chunks != [] {
      var o := Parse(narrow, flag, st, unread + chunks[0]);
      ParsedAreSmall(narrow, flag, st, unread + chunks[0]);
      FedAreSmall(narrow, flag, o.state, o.unread, chunks[1..]);
    }
  }

  /** The exact condition for the round trip, for reads of bounded size: every payload within
      the receiver's 64 MiB limit. A larger one is encoded without complaint but never comes
      back. */
  lemma RoundTripIff(flag: int32, ms: seq<Message>, chunks: seq<seq<byte>>)
    requires Concat(chunks) == EncodeAll(flag, ms) && SmallReads(chunks)
    ensures Received(Feed(true, flag, None, [], chunks).packets) == ms
            <==> BodiesOk(ms)
  {
    if BodiesOk(ms) {
      RoundTrip(flag, ms, chunks);
    } else {
      OversizedIsLost(true, flag, ms, chunks);
    }
  }

  /** Whatever bytes arrive and however they are cut, an oversized message is not received. */
  lemma OversizedIsLost(narrow: bool, flag: int32, ms: seq<Message>, chunks: seq<seq<byte>>)
    requires !BodiesOk(ms)
    ensures Received(Feed(narrow, flag, None, [], chunks).packets) != ms
  {
    var ps := Feed(narrow, flag, None, [], chunks).packets;
    FedAreSmall(narrow, flag, None, [], chunks);
    var i :| 0 <= i < |ms| && !BodyOk(ms[i]);
    assert i < |ps| ==> |Received(ps)[i].body| <= MAX_DATA_LEN;
  }

  /** Thirty-three frames of the largest size in one read leave
      the narrowed length negative, and nothing is delivered. */
  lemma LargeReadStalls(flag: int32, ms: seq<Message>)
    requires |ms| == 33 && forall i :: 0 <= i < |ms| ==> |ms[i].body| == MAX_DATA_LEN
    ensures Feed(true, flag, None, [], [EncodeAll(flag, ms)]).packets == [] && BodiesOk(ms)
  {
    var s := EncodeAll(flag, ms);
    EncodedLength(flag, ms);
    FrameThenRest(flag, ms[0], EncodeAll(flag, ms[1..]));
    ReadStalls(flag, s);
    var read: seq<seq<byte>> := [s];
    assert [] + s == s && read[1..] == [];
  }

  lemma ReadStalls(flag: int32, s: seq<byte>)
    requires HEADER_SIZE + 0x8000_0000 <= |s| < 0x1_0000_0000 && FlagOf(s) == flag && SizeOk(HeaderOf(s))
    ensures Parse(true, flag, None, s).packets == [] && Parse(true, flag, None, s).state.Some?
  {
    NarrowedTestStalls(flag, HeaderOf(s), s[HEADER_SIZE..]);
  }

  lemma {:induction false} EncodedLength(flag: int32, ms: seq<Message>)
    requires forall i :: 0 <= i < |ms| ==> |ms[i].body| == MAX_DATA_LEN
    ensures |EncodeAll(flag, ms)| == |ms| * (HEADER_SIZE + MAX_DATA_LEN)
  {
    if ms != [] {
      EncodedLength(flag, ms[1..]);
    }
  }

  // ----- What every stream is made of -----

  /** A header with another flag, or a payload length below zero or above 64 MiB. */
  predicate IsBadHeader(flag: int32, b: seq<byte>) {
    |b| == 16 && (FlagOf(b) != flag || HeaderOf(b).dataLen < 0 || HeaderOf(b).dataLen > 0x400_0000)
  }

  predicate LengthsMatch(ps: seq<Packet>) {
    forall i :: 0 <= i < |ps| ==> ps[i].header.dataLen == |ps[i].body| <= 0x400_0000
  }

  /** What is left after the packets: a header whose payload is not complete, or a bad header,
      or too few bytes for a header. */
  predicate IsRest(flag: int32, o: Outcome, tail: seq<byte>) {
    match o.state
    case Some(h) => !o.broken && tail == HeaderBytes(flag, h) + o.unread && |o.unread| < h.dataLen <= 0x400_0000
    case None =>
      if o.broken then |tail| >= 16 && IsBadHeader(flag, tail[..16]) && o.unread == tail[16..]
      else tail == o.unread && |tail| < 16
  }

  /** The parse accounts for every byte: the stream is the frames of the delivered packets, in
      order, followed by what is left. So no frame is invented, skipped or cut short. */
  lemma {:induction false} ParseAccounts(flag: int32, s: seq<byte>) returns (tail: seq<byte>)
    ensures Accounts(flag, s, Parse(false, flag, None, s), tail)
    decreases |s|
  {
    if StartsWithFrame(flag, s) {
      var p := FirstPacket(s);
      var more := s[HEADER_SIZE + |p.body|..];
      tail := ParseAccounts(flag, more);
      FirstFrame(flag, s);
      FrameAccounts(flag, p, Parse(false, flag, None, more), more, tail);
    } else {
      tail := s;
      EmptyLeft(s);
      NoFrame(flag, s);
    }
  }

  predicate Accounts(flag: int32, s: seq<byte>, o: Outcome, tail: seq<byte>) {
    && s == EncodeAll(flag, Received(o.packets)) + tail
    && LengthsMatch(o.packets) && IsRest(flag, o, tail)
  }

  predicate StartsWithFrame(flag: int32, s: seq<byte>) {
    && |s| >= HEADER_SIZE && FlagOf(s) == flag && SizeOk(HeaderOf(s))
    && |s| >= HEADER_SIZE + HeaderOf(s).dataLen
  }

  function FirstPacket(s: seq<byte>): Packet
    requires |s| >= HEADER_SIZE && SizeOk(HeaderOf(s)) && |s| >= HEADER_SIZE + HeaderOf(s).dataLen
  {
    Packet(HeaderOf(s), s[HEADER_SIZE..][..HeaderOf(s).dataLen])
  }

  lemma FirstFrame(flag: int32, s: seq<byte>)
    requires StartsWithFrame(flag, s)
    ensures var p := FirstPacket(s); var more := s[HEADER_SIZE + |p.body|..];
            && Parse(false, flag, None, s) == After([p], Parse(false, flag, None, more))
            && s == HeaderBytes(flag, p.header) + p.body + more
            && p.header.dataLen == |p.body| <= 0x400_0000
  {
    HeaderReadBack(s);
    var rest := s[HEADER_SIZE..];
    assert rest[HeaderOf(s).dataLen..] == s[HEADER_SIZE + HeaderOf(s).dataLen..];
  }

  lemma NoFrame(flag: int32, s: seq<byte>)
    requires !StartsWithFrame(flag, s)
    ensures var o := Parse(false, flag, None, s); o.packets == [] && IsRest(flag, o, s)
  {
    if |s| >= HEADER_SIZE {
      HeaderReadBack(s);
      BadHeaderPrefix(s);
    }
  }

  lemma BadHeaderPrefix(s: seq<byte>)
    requires |s| >= HEADER_SIZE
    ensures FlagOf(s[..HEADER_SIZE]) == FlagOf(s) && HeaderOf(s[..HEADER_SIZE]) == HeaderOf(s)
  {
    assert s == s[..HEADER_SIZE] + s[HEADER_SIZE..];
    HeaderPrefix(s[..HEADER_SIZE], s[HEADER_SIZE..]);
  }

  /** One frame more in front. */
  lemma FrameAccounts(flag: int32, p: Packet, o: Outcome, more: seq<byte>, tail: seq<byte>)
    requires p.header.dataLen == |p.body| <= 0x400_0000 && Accounts(flag, more, o, tail)
    ensures Accounts(flag, HeaderBytes(flag, p.header) + p.body + more, After([p], o), tail)
  {
    var frame := HeaderBytes(flag, p.header) + p.body;
    FrameFirst(flag, p, o.packets);
    Associative(frame, EncodeAll(flag, Received(o.packets)), tail);
  }

  lemma FrameFirst(flag: int32, p: Packet, ps: seq<Packet>)
    requires p.header.dataLen == |p.body|
    ensures EncodeAll(flag, Received([p] + ps))
            == HeaderBytes(flag, p.header) + p.body + EncodeAll(flag, Received(ps))
  {
    ReceivedAfter(p, ps);
    var m := Message(p.header.chid, p.header.pcode, p.body);
    assert Received([p] + ps)[0] == m && Received([p] + ps)[1..] == Received(ps);
    assert FrameOf(flag, m) == HeaderBytes(flag, p.header) + p.body;
  }

  // ----- The exact bound on reads -----

  /** Every list of packets within the limit comes back, however its bytes are cut into reads
      of at most `n` bytes. */
  ghost predicate SafeReadSize(flag: int32, n: nat) {
    forall ms: seq<Message>, chunks: seq<seq<byte>> ::
      BodiesOk(ms) && Concat(chunks) == EncodeAll(flag, ms) && ReadsUpTo(n, chunks) ==>
        Received(Feed(true, flag, None, [], chunks).packets) == ms
  }

  function Filler(n: nat): Message {
    Message(1, 0, seq(n, _ => 0))
  }

  /** Thirty-one frames of the largest size and one a little shorter: 2^31 + 16 bytes. */
  function LongStream(): seq<Message> {
    seq(31, _ => Filler(MAX_DATA_LEN)) + [Filler(MAX_DATA_LEN - 496)]
  }

  lemma {:induction false} EncodedConcat(flag: int32, ms: seq<Message>, ns: seq<Message>)
    ensures EncodeAll(flag, ms + ns) == EncodeAll(flag, ms) + EncodeAll(flag, ns)
  {
    if ms == [] {
      assert ms + ns == ns;
    } else {
      EncodedConcat(flag, ms[1..], ns);
      assert (ms + ns)[0] == ms[0] && (ms + ns)[1..] == ms[1..] + ns;
      Associative(FrameOf(flag, ms[0]), EncodeAll(flag, ms[1..]), EncodeAll(flag, ns));
    }
  }

  lemma LongStreamLength(flag: int32)
    ensures |EncodeAll(flag, LongStream())| == 0x8000_0000 + HEADER_SIZE
  {
    var most, last := seq(31, _ => Filler(MAX_DATA_LEN)), Filler(MAX_DATA_LEN - 496);
    EncodedConcat(flag, most, [last]);
    EncodedLength(flag, most);
    var none: seq<Message> := [];
    assert [last][1..] == none;
    assert |EncodeAll(flag, [last])| == |FrameOf(flag, last)| + |EncodeAll(flag, none)|;
  }

  /** Cut when all but one byte of the first payload is there, the next read brings the unread
      bytes to 2^31. */
  lemma TooLongARead(flag: int32, n: nat)
    requires n > 0x8000_0000 - MAX_DATA_LEN
    ensures !SafeReadSize(flag, n)
  {
    var ms := LongStream();
    var s := EncodeAll(flag, ms);
    var cut := HEADER_SIZE + MAX_DATA_LEN - 1;
    var chunks := [s[..cut], s[cut..]];
    LongStreamLength(flag);
    LongStreamStarts(flag);
    TwoReadsStall(flag, s, cut);
    assert |chunks[0]| == cut && |chunks[1]| == |s| - cut && ReadsUpTo(n, chunks);
    NothingComes(flag, n, ms, chunks);
  }

  lemma LongStreamStarts(flag: int32)
    ensures LongStream() != [] && BodiesOk(LongStream())
    ensures var s := EncodeAll(flag, LongStream());
            |s| >= HEADER_SIZE && FlagOf(s) == flag && HeaderOf(s).dataLen == MAX_DATA_LEN
  {
    var ms := LongStream();
    FrameThenRest(flag, ms[0], EncodeAll(flag, ms[1..]));
  }

  lemma NothingComes(flag: int32, n: nat, ms: seq<Message>, chunks: seq<seq<byte>>)
    requires BodiesOk(ms) && ms != [] && Concat(chunks) == EncodeAll(flag, ms) && ReadsUpTo(n, chunks)
    requires Feed(true, flag, None, [], chunks).packets == []
    ensures !SafeReadSize(flag, n)
  {
    assert Received(Feed(true, flag, None, [], chunks).packets) != ms;
  }

  lemma TwoReadsStall(flag: int32, s: seq<byte>, cut: nat)
    requires |s| == 0x8000_0000 + HEADER_SIZE && cut == HEADER_SIZE + MAX_DATA_LEN - 1
    requires FlagOf(s) == flag && HeaderOf(s).dataLen == MAX_DATA_LEN
    ensures var chunks := [s[..cut], s[cut..]];
            Concat(chunks) == s && Feed(true, flag, None, [], chunks).packets == []
  {
    var a, b := s[..cut], s[cut..];
    var one, none: seq<seq<byte>> := [b], [];
    assert [a, b][1..] == one && one[1..] == none;
    assert Concat(one) == b + [] == b && Concat([a, b]) == a + b == s;
    HeaderPrefix(a, b);
    var h := HeaderOf(a);
    var rest := a[HEADER_SIZE..];
    assert [] + a == a && Parse(true, flag, None, a) == ParseBody(true, flag, h, rest);
    assert Parse(true, flag, None, a) == Outcome([], Some(h), rest, false);
    NarrowedTestStalls(flag, h, rest + b);
    assert Feed(true, flag, Some(h), rest, one)
        == After([], Feed(true, flag, Some(h), rest + b, none));
  }

  /** The exact bound: reads of at most `n` bytes are safe for every list of packets within the
      limit and every cutting if and only if `n` is at most 2^31 - 2^26. */
  lemma ReadBoundIff(flag: int32, n: nat)
    ensures SafeReadSize(flag, n) <==> n <= 0x8000_0000 - MAX_DATA_LEN
  {
    if n <= 0x8000_0000 - MAX_DATA_LEN {
      forall ms: seq<Message>, chunks: seq<seq<byte>> |
        BodiesOk(ms) && Concat(chunks) == EncodeAll(flag, ms) && ReadsUpTo(n, chunks)
        ensures Received(Feed(true, flag, None, [], chunks).packets) == ms
      {
        RoundTrip(flag, ms, chunks);
      }
    } else {
      TooLongARead(flag, n);
    }
  }
}
