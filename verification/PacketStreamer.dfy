/** The packet format: a 16-byte header of four network-order words (flag, channel id,
    packet code, payload length) followed by the payload. */
module PacketStreamer {
  import opened Bytes
  import opened ByteBuffer
  import opened Wrappers

  const PACKET_FLAG: int32 := 0x51594b4a
  const HEADER_SIZE: nat := 16
  const WORD_SIZE: nat := 4
  const MAX_DATA_LEN: int32 := 0x400_0000

  datatype Header = Header(chid: uint32, pcode: int32, dataLen: int32)

  /** A packet as the receiver sees it: its header and its payload bytes. */
  datatype Packet = Packet(header: Header, body: seq<byte>)

  /** What the virtual `Packet::Encode` of a packet does: append its payload, or append
      some bytes and then report failure. */
  datatype Payload = Encoded(body: seq<byte>) | Failed(partial: seq<byte>)

  /** The packet factory: which codes it knows, and which payloads its packets accept. */
  datatype Factory = Factory(creates: int32 -> bool, decodes: (Header, seq<byte>) -> bool) {
    predicate Accepts(p: Packet) {
      creates(p.header.pcode) && decodes(p.header, p.body)
    }
  }

  lemma WordModulus()
    ensures Pow256(WORD_SIZE) == 0x1_0000_0000
  {
    assert Pow256(4) == 0x1_0000_0000;
  }

  function Word(x: int): (s: seq<byte>)
    ensures |s| == 4
  {
    BigEndian(Unsigned(x, WORD_SIZE), WORD_SIZE)
  }

  function HeaderBytes(flag: int32, h: Header): (s: seq<byte>)
    ensures |s| == HEADER_SIZE
  {
    Word(flag) + Word(h.chid) + Word(h.pcode) + Word(h.dataLen)
  }

  function ReadWord(s: seq<byte>, i: nat): (x: int32)
    requires i + 4 <= |s|
  {
    FromBigEndianBound(s[i..i + 4]);
    WordModulus();
    Signed(FromBigEndian(s[i..i + 4]), WORD_SIZE)
  }

  function FlagOf(s: seq<byte>): int32
    requires |s| >= HEADER_SIZE
  {
    ReadWord(s, 0)
  }

  function HeaderOf(s: seq<byte>): Header
    requires |s| >= HEADER_SIZE
  {
    Header(ReadWord(s, 4) % 0x1_0000_0000, ReadWord(s, 8), ReadWord(s, 12))
  }

  predicate SizeOk(h: Header) {
    0 <= h.dataLen <= MAX_DATA_LEN
  }

  lemma WordRoundTrip(x: int, s: seq<byte>, i: nat)
    requires -0x8000_0000 <= x < 0x1_0000_0000
    requires i + 4 <= |s| && s[i..i + 4] == Word(x)
    ensures ReadWord(s, i) == ToInt32(x)
  {
    WordModulus();
    UnsignedValue(x, Pow256(WORD_SIZE));
    BigEndianRoundTrip(Unsigned(x, WORD_SIZE), WORD_SIZE);
  }

  /** A header that is written reads back unchanged, whatever follows it. */
  lemma HeaderRoundTrip(flag: int32, h: Header, rest: seq<byte>)
    ensures FlagOf(HeaderBytes(flag, h) + rest) == flag
    ensures HeaderOf(HeaderBytes(flag, h) + rest) == h
  {
    var s := HeaderBytes(flag, h) + rest;
    assert s[0..4] == Word(flag) && s[4..8] == Word(h.chid);
    assert s[8..12] == Word(h.pcode) && s[12..16] == Word(h.dataLen);
    WordRoundTrip(flag, s, 0);
    WordRoundTrip(h.chid, s, 4);
    WordRoundTrip(h.pcode, s, 8);
    WordRoundTrip(h.dataLen, s, 12);
  }

  /** The four bytes at `i` are the 32-bit word of `x`, the most significant first. */
  predicate WordAt(s: seq<byte>, i: nat, x: int)
    requires i + 4 <= |s|
  {
    && s[i] == x / 0x100_0000 % 0x100 && s[i + 1] == x / 0x1_0000 % 0x100
    && s[i + 2] == x / 0x100 % 0x100 && s[i + 3] == x % 0x100
  }

  lemma TopDigit(q: int, u: nat)
    ensures (q * 0x1_0000_0000 + u) / 0x100_0000 % 0x100 == u / 0x100_0000 % 0x100
  {
    var a := u / 0x100_0000;
    DivModUnique(q * 0x1_0000_0000 + u, 0x100_0000, q * 0x100 + a, u % 0x100_0000);
    DivModUnique(q * 0x100 + a, 0x100, q + a / 0x100, a % 0x100);
  }

  lemma SecondDigit(q: int, u: nat)
    ensures (q * 0x1_0000_0000 + u) / 0x1_0000 % 0x100 == u / 0x1_0000 % 0x100
  {
    var a := u / 0x1_0000;
    DivModUnique(q * 0x1_0000_0000 + u, 0x1_0000, q * 0x1_0000 + a, u % 0x1_0000);
    DivModUnique(q * 0x1_0000 + a, 0x100, q * 0x100 + a / 0x100, a % 0x100);
  }

  lemma ThirdDigit(q: int, u: nat)
    ensures (q * 0x1_0000_0000 + u) / 0x100 % 0x100 == u / 0x100 % 0x100
  {
    var a := u / 0x100;
    DivModUnique(q * 0x1_0000_0000 + u, 0x100, q * 0x100_0000 + a, u % 0x100);
    DivModUnique(q * 0x100_0000 + a, 0x100, q * 0x1_0000 + a / 0x100, a % 0x100);
  }

  lemma LastDigit(q: int, u: nat)
    ensures (q * 0x1_0000_0000 + u) % 0x100 == u % 0x100
  {
    DivModUnique(q * 0x1_0000_0000 + u, 0x100, q * 0x100_0000 + u / 0x100, u % 0x100);
  }

  /** The word of any integer is that of its last 32 bits. */
  lemma WordLayout(x: int)
    ensures WordAt(Word(x), 0, x)
  {
    WordModulus();
    var q, u := x / 0x1_0000_0000, x % 0x1_0000_0000;
    TopDigit(q, u);
    SecondDigit(q, u);
    ThirdDigit(q, u);
    LastDigit(q, u);
    BigEndianTail(u, WORD_SIZE);
    assert Word(x) == FourDigits(u);
  }

  /** The header on the wire: flag, channel, code and length, in this order. */
  lemma HeaderLayout(flag: int32, h: Header)
    ensures var s := HeaderBytes(flag, h);
            && |s| == 16 && WordAt(s, 0, flag) && WordAt(s, 4, h.chid)
            && WordAt(s, 8, h.pcode) && WordAt(s, 12, h.dataLen)
  {
    WordLayout(flag);
    WordLayout(h.chid);
    WordLayout(h.pcode);
    WordLayout(h.dataLen);
  }

  /** Writing back what a word reads as gives the bytes it was read from. */
  lemma WordReadBack(s: seq<byte>, i: nat)
    requires i + 4 <= |s|
    ensures Word(ReadWord(s, i)) == s[i..i + 4] == Word(ReadWord(s, i) % 0x1_0000_0000)
  {
    var u := FromBigEndian(s[i..i + 4]);
    WordModulus();
    FromBigEndianBound(s[i..i + 4]);
    UnsignedValue(ReadWord(s, i), Pow256(WORD_SIZE));
    assert Unsigned(ReadWord(s, i), WORD_SIZE) == u;
    ReadBack(s[i..i + 4]);
  }

  lemma FourCuts(s: seq<byte>)
    requires |s| >= 16
    ensures s[0..4] + s[4..8] + s[8..12] + s[12..16] == s[..16]
  {
  }

  /** A header that was read, written again, is the bytes it was read from. */
  lemma HeaderReadBack(s: seq<byte>)
    requires |s| >= HEADER_SIZE
    ensures HeaderBytes(FlagOf(s), HeaderOf(s)) == s[..HEADER_SIZE]
  {
    WordReadBack(s, 0);
    WordReadBack(s, 4);
    WordReadBack(s, 8);
    WordReadBack(s, 12);
    FourCuts(s);
    assert Word(FlagOf(s)) == s[0..4] && Word(HeaderOf(s).chid) == s[4..8];
    assert Word(HeaderOf(s).pcode) == s[8..12] && Word(HeaderOf(s).dataLen) == s[12..16];
  }

  /** Writing the length word over its placeholder yields the finished header. */
  lemma PatchedFrame(before: seq<byte>, flag: int32, h: Header, body: seq<byte>)
    ensures var s := before + HeaderBytes(flag, h.(dataLen := 0)) + body;
            s[..|before| + 12] + Word(h.dataLen) + s[|before| + 16..] == before + HeaderBytes(flag, h) + body
  {
  }

  lemma HeaderAppended(before: seq<byte>, flag: int32, h: Header)
    ensures before + Word(flag) + Word(h.chid) + Word(h.pcode) + Word(h.dataLen) == before + HeaderBytes(flag, h)
  {
  }

  lemma HeaderWords(s: seq<byte>)
    requires |s| >= HEADER_SIZE
    ensures var s1 := s[4..]; var s2 := s1[4..]; var s3 := s2[4..];
            && s3[4..] == s[HEADER_SIZE..]
            && ReadWord(s[..4], 0) == FlagOf(s)
            && HeaderOf(s) == Header((ReadWord(s1[..4], 0) as int) % 0x1_0000_0000,
                                     ReadWord(s2[..4], 0), ReadWord(s3[..4], 0))
  {
    assert s[..4][0..4] == s[0..4] && s[4..][..4][0..4] == s[4..8];
    assert s[4..][4..] == s[8..] && s[8..][..4][0..4] == s[8..12];
    assert s[8..][4..] == s[12..] && s[12..][..4][0..4] == s[12..16];
  }

  class DefaultPacketStreamer {
    var packetFlag: int32
    const factory: Factory

    constructor (factory: Factory)
      ensures packetFlag == PACKET_FLAG && this.factory == factory
    {
      packetFlag := PACKET_FLAG;
      this.factory := factory;
    }

    method ReadWordFrom(input: Buffer) returns (x: int32)
      requires input.Valid() && |input.View().unread| >= 4
      modifies input`readIndex, input`writeIndex
      ensures input.Valid() && input.Repr == old(input.Repr)
      ensures x == ReadWord(old(input.View()).unread[..4], 0)
      ensures input.View().unread == old(input.View()).unread[4..]
    {
      ghost var s := input.View().unread[..4];
      assert s[0..4] == s;
      FromBigEndianBound(s);
      WordModulus();
      x := input.ReadInt(WORD_SIZE);
    }

    method GetPacketInfo(input: Buffer, header: Header) returns (got: bool, h: Header, broken: bool)
      requires input.Valid()
      modifies input`readIndex, input`writeIndex
      ensures input.Valid() && input.Repr == old(input.Repr)
      ensures got == (|old(input.View()).unread| >= HEADER_SIZE)
      ensures !got ==> !broken && h == header && input.View() == old(input.View())
      ensures got ==>
                && input.View().unread == old(input.View()).unread[HEADER_SIZE..]
                && h == HeaderOf(old(input.View()).unread)
                && broken == (FlagOf(old(input.View()).unread) != packetFlag || !SizeOk(h))
    {
      broken := false;
      var n := input.Length();
      if n < 16 {
        return false, header, false;
      }
      ghost var s := input.View().unread;
      var flag := ReadWordFrom(input);
      var chid := ReadWordFrom(input);
      var pcode := ReadWordFrom(input);
      var dataLen := ReadWordFrom(input);
      HeaderWords(s);
      h := Header((chid as int) % 0x1_0000_0000, pcode, dataLen);
      if flag != packetFlag || dataLen < 0 || dataLen > 0x400_0000 {
        broken := true;
      }
      got := true;
    }

    /** A packet of unknown code is skipped; a known one consumes its payload whether or
        not it accepts it. */
    method Decode(input: Buffer, header: Header) returns (packet: Option<Packet>)
      requires input.Valid() && 0 <= header.dataLen <= |input.View().unread|
      modifies input`readIndex, input`writeIndex
      ensures input.Valid() && input.Repr == old(input.Repr)
      ensures input.View().unread == old(input.View()).unread[header.dataLen..]
      ensures var p := Packet(header, old(input.View()).unread[..header.dataLen]);
              packet == if factory.Accepts(p) then Some(p) else None
    {
      if factory.creates(header.pcode) {
        var body := input.Next(header.dataLen);
        if factory.decodes(header, body) {
          packet := Some(Packet(header, body));
        } else {
          packet := None;
        }
      } else {
        input.Skip(header.dataLen);
        packet := None;
      }
    }

    method AppendWord(x: int, output: Buffer)
      requires output.Valid()
      modifies output.Repr
      ensures output.Valid() && fresh(output.Repr - old(output.Repr))
      ensures output.View().unread == old(output.View()).unread + Word(x)
    {
      output.AppendInt(x, WORD_SIZE);
    }

    /** The four header words, with a placeholder for the length; returns its offset. */
    method AppendHeader(chid: uint32, pcode: int32, output: Buffer) returns (dataLenOffset: int32)
      requires output.Valid()
      modifies output.Repr
      ensures output.Valid() && fresh(output.Repr - old(output.Repr))
      ensures output.View().unread == old(output.View()).unread + HeaderBytes(packetFlag, Header(chid, pcode, 0))
      ensures dataLenOffset == ToInt32(|old(output.View()).unread| + 12)
    {
      ghost var before := output.View().unread;
      AppendThree(packetFlag, chid, pcode, output);
      var n := output.Length();
      dataLenOffset := ToInt32(n);
      AppendWord(0, output);
      HeaderAppended(before, packetFlag, Header(chid, pcode, 0));
    }

    method AppendThree(x: int, y: int, z: int, output: Buffer)
      requires output.Valid()
      modifies output.Repr
      ensures output.Valid() && fresh(output.Repr - old(output.Repr))
      ensures output.View().unread == old(output.View()).unread + Word(x) + Word(y) + Word(z)
    {
      AppendWord(x, output);
      AppendWord(y, output);
      AppendWord(z, output);
    }

    /** Does to `output` exactly what `EncodeEffect` says, from any prior state. `front` is the
        read index at the end of the writes. */
    method Encode(chid: uint32, pcode: int32, payload: Payload, output: Buffer)
      returns (ok: bool, header: Header, ghost front: nat)
      requires output.Valid()
      modifies output.Repr
      ensures fresh(output.Repr - old(output.Repr)) && ok == payload.Encoded?
      ensures match EncodeEffect(packetFlag, front, old(output.View()).unread, Header(chid, pcode, 0), payload)
              case Some(s) => output.Valid() && output.View().unread == s
              case None => output.writeIndex < output.readIndex
      ensures payload.Encoded? ==>
                header == Header(chid, pcode, LengthOf(|old(output.View()).unread|, |payload.body|))
    {
      ghost var before := output.View().unread;
      var n := output.Length();
      var oldLen := ToInt32(n);
      header := Header(chid, pcode, 0);
      var dataLenOffset := AppendHeader(chid, pcode, output);
      assert |output.View().unread| == |before| + HEADER_SIZE;
      match payload
      case Failed(partial) =>
        front := GiveUp(output, oldLen, partial);
        ok := false;
      case Encoded(body) =>
        header := Complete(output, oldLen, dataLenOffset, header, body);
        assert header.dataLen == LengthOf(|before|, |body|);
        ok, front := true, 0;
    }

    /** What a failed payload encoder appended is cut off, with the header, at the old length. */
    method GiveUp(output: Buffer, oldLen: int32, partial: seq<byte>) returns (ghost front: nat)
      requires output.Valid()
      modifies output.Repr
      ensures fresh(output.Repr - old(output.Repr))
      ensures match Shortened(front, old(output.View()).unread + partial, oldLen)
              case Some(s) => output.Valid() && output.View().unread == s
              case None => output.writeIndex < output.readIndex
    {
      output.Write(partial);
      front := output.View().front;
      output.TruncateInt(oldLen);
    }

    /** The payload after the header, and its length in the header. */
    method Complete(output: Buffer, oldLen: int32, dataLenOffset: int32, header: Header, body: seq<byte>)
      returns (full: Header)
      requires output.Valid() && dataLenOffset + 4 <= |output.View().unread|
      modifies output.Repr
      ensures output.Valid() && fresh(output.Repr - old(output.Repr))
      ensures full == header.(dataLen := ToInt32(|old(output.View()).unread| + |body| - oldLen - 16))
      ensures output.View().unread == Patched(old(output.View()).unread + body, dataLenOffset, Word(full.dataLen))
    {
      output.Write(body);
      var n := output.Length();
      full := header.(dataLen := ToInt32(n - oldLen - 16));
      PatchLength(output, dataLenOffset, full);
    }

    /** Writes the length word at its offset, unless that went negative. */
    method PatchLength(output: Buffer, dataLenOffset: int32, header: Header)
      requires output.Valid() && dataLenOffset + 4 <= |output.View().unread|
      modifies output.Repr
      ensures output.Valid() && output.Repr == old(output.Repr)
      ensures output.View().unread == Patched(old(output.View()).unread, dataLenOffset, Word(header.dataLen))
    {
      if dataLenOffset >= 0 {
        output.Patch(dataLenOffset, Word(header.dataLen));
      }
    }
  }

  // ----- What encoding does to the unread bytes -----

  /** The bytes overwritten at the offset, unless that is negative. */
  function Patched(s: seq<byte>, offset: int32, word: seq<byte>): seq<byte>
    requires offset + |word| <= |s|
  {
    if offset < 0 then s else s[..offset] + word + s[offset + |word|..]
  }

  /** The unread bytes after truncation by an `int`, with the read index at `front`; none when
      the write index ends below the read index. */
  function Shortened(front: nat, s: seq<byte>, len: int32): Option<seq<byte>> {
    if len >= 0 then Some(if len < |s| then s[..len] else s)
    else if front + len >= 0 then None
    else Some(s)
  }

  /** The length word of a payload after so many unread bytes: what is unread in the end, less
      the old length narrowed to `int`, less the header. */
  function LengthOf(before: nat, body: nat): int32 {
    ToInt32(before + HEADER_SIZE + body - ToInt32(before) - HEADER_SIZE)
  }

  /** Both the old length and the offset of the length word are narrowed to `int`. */
  function EncodeEffect(flag: int32, front: nat, before: seq<byte>, h: Header, payload: Payload): Option<seq<byte>>
    requires h.dataLen == 0
  {
    var s := before + HeaderBytes(flag, h);
    match payload
    case Failed(partial) => Shortened(front, s + partial, ToInt32(|before|))
    case Encoded(body) =>
      Some(Patched(s + body, ToInt32(|before| + 12), Word(LengthOf(|before|, |body|))))
  }

  /** The unread bytes with a whole frame after them, its length word that of the payload. */
  function Framed(flag: int32, before: seq<byte>, h: Header, body: seq<byte>): seq<byte> {
    before + HeaderBytes(flag, h.(dataLen := ToInt32(|body|))) + body
  }

  /** The length word is always that of the payload; only its place can be wrong. */
  lemma LengthIsPayload(before: nat, body: nat)
    ensures LengthOf(before, body) == ToInt32(body)
  {
    assert (before - ToInt32(before)) % 0x1_0000_0000 == 0;
    assert (before - ToInt32(before) + body) % 0x1_0000_0000 == body % 0x1_0000_0000;
  }

  lemma PatchedInPlace(flag: int32, before: seq<byte>, h: Header, body: seq<byte>)
    requires h.dataLen == 0 && |before| + 12 < 0x8000_0000
    ensures EncodeEffect(flag, 0, before, h, Encoded(body)) == Some(Framed(flag, before, h, body))
  {
    LengthIsPayload(|before|, |body|);
    var full := h.(dataLen := ToInt32(|body|));
    assert full.(dataLen := 0) == h;
    PatchedFrame(before, flag, full, body);
  }

  /** From 2^31 - 12 unread bytes on, a payload of one byte keeps a zero in its length word:
      the patch is skipped or lands in older bytes. */
  lemma PatchedElsewhere(flag: int32, before: seq<byte>, h: Header)
    requires h.dataLen == 0 && |before| + 12 >= 0x8000_0000
    ensures EncodeEffect(flag, 0, before, h, Encoded([0])) != Some(Framed(flag, before, h, [0]))
  {
    LengthIsPayload(|before|, 1);
    var s := before + HeaderBytes(flag, h) + [0];
    var offset := ToInt32(|before| + 12);
    var t := Patched(s, offset, Word(1));
    var at := |before| + 15;
    LastOfWord();
    assert offset + 4 <= |before|;
    assert t[at] == s[at] == Word(0)[3];
    assert Framed(flag, before, h, [0])[at] == Word(1)[3];
  }

  lemma LastOfWord()
    ensures Word(0)[3] == 0 && Word(1)[3] == 1
  {
    WordModulus();
    var n := WORD_SIZE;
    assert BigEndian(0, n) == BigEndian(0, n - 1) + [0];
    assert BigEndian(1, n) == BigEndian(0, n - 1) + [1];
  }

  /** The exact condition for the back-patch: every payload ends as a whole frame after the old
      bytes if and only if the offset of the length word fits an `int`. */
  lemma BackPatchIff(flag: int32, before: seq<byte>, h: Header)
    requires h.dataLen == 0
    ensures (forall front: nat, body: seq<byte> ::
               EncodeEffect(flag, front, before, h, Encoded(body)) == Some(Framed(flag, before, h, body)))
            <==> |before| + 12 < 0x8000_0000
  {
    if |before| + 12 < 0x8000_0000 {
      forall front: nat, body: seq<byte>
        ensures EncodeEffect(flag, front, before, h, Encoded(body)) == Some(Framed(flag, before, h, body))
      {
        PatchedInPlace(flag, before, h, body);
      }
    } else {
      PatchedElsewhere(flag, before, h);
    }
  }

  /** The exact condition for the rollback: a failed payload leaves the unread bytes as they
      were if and only if their number fits an `int`, whatever the payload encoder appended. */
  lemma RollBackIff(flag: int32, front: nat, before: seq<byte>, h: Header, partial: seq<byte>)
    requires h.dataLen == 0
    ensures EncodeEffect(flag, front, before, h, Failed(partial)) == Some(before) <==> |before| < 0x8000_0000
  {
    var s := before + HeaderBytes(flag, h) + partial;
    assert s[..|before|] == before;
    if EncodeEffect(flag, front, before, h, Failed(partial)) == Some(before) {
      assert |s| >= |before| + HEADER_SIZE;
    }
  }

  /** One failing input each: a buffer of 2^31 - 12 bytes, and one of 2^32 - 1, after which the
      write index ends below a read index of one or more. */
  lemma FullBufferFails(flag: int32, before: seq<byte>, h: Header, front: nat, partial: seq<byte>)
    requires h.dataLen == 0
    requires |before| == 0x8000_0000 - 12 || |before| == 0xffff_ffff
    ensures |before| == 0x8000_0000 - 12 ==> EncodeEffect(flag, front, before, h, Encoded([0]))
                                             == Some(before + HeaderBytes(flag, h) + [0])
    ensures |before| == 0xffff_ffff && front >= 1 ==> EncodeEffect(flag, front, before, h, Failed(partial)) == None
  {
  }
}
