# Models and proofs for the packet transport, its event loop and the JSPB message core

This project models, in Dafny, the parts of the repository where several pieces of state have
to stay in step, and proves what they are for.

- **Packet framing** (`Bytes`, `Buffer`, `PacketStreamer`, `FrameParser`, `ServerConn`, `InputReads`). The
  growable buffer is an array with moving indices; it is proved to be a byte queue for every
  run of operations. The encoder back-patches a length into a buffer that may have been
  reallocated meanwhile. The message callback is a parser that stops anywhere and resumes; it
  is proved equal to a recursive parser that accounts for every byte, independent of how the bytes
  were cut into chunks, and inverse to the encoder. Network byte order is that of RFC 791, Appendix B.
- **The event loop** (`EventLoop`, `EventLoopObject`). Queueing and draining are atomic steps of
  any number of producers and one loop thread, whose activations form a stack because a stop
  drains from inside a batch. The theorems are over all interleavings; the class has the
  methods as the program has them, each statement on shared state one such step.
- **TCP connection** (`TcpConnSpec`, `TcpConnLaws`, `TcpConn`). The handlers under every answer of the
  kernel. What is on the wire, what waits, which callbacks are made and what is queued are stated
  from the steps of a run and the kernel's answers in them, and proved of the handlers. The class
  methods over the real buffer and channel are proved equal to the pure handlers.
- **Posting from many threads** (`PacketSender`, `FrameAtomicity`, `EndToEnd`). Frames stay whole on the
  wire, and the peer's parser delivers exactly what was sent.
- **Server shutdown and dispatch** (`TcpServer`, `TcpServerObject`, `ThreadPool`).
- **JSPB messages** (`JspbCompare`, `JspbRoutines`, `JspbMessage`, `JspbMessageObject`, `JspbMap`).
  What equality of message arrays means, when the language's loose `==` spoils it, fields on both
  sides of the pivot, one-of groups, copying through the array, and a map with a lazily
  synchronised array.
- **Substring search** (`Memmem`).

`dafny verify dfyconfig.toml` checks everything.

## Results where the code falls short

Each is a theorem with the exact condition or with the run that fails:

- The parser compares a length narrowed to `int`; with 2^31 bytes unread a complete packet waits
  (`NarrowedTest`, `NarrowedTestStalls`). The round trip over reads of at most n bytes holds exactly up to
  n = 2^31 - 2^26 (`ReadBoundIff`). The program's own reads never come near: a well-formed stream keeps its
  input buffer below about 128 MiB, so there the round trip holds for every read the kernel may deliver
  (`RoundTripOverReads`).
- The encoder narrows the old length and the offset of the length word to `int`. Every payload ends as a
  whole frame exactly below 2^31 - 12 unread bytes (`BackPatchIff`), and a failed payload leaves the bytes
  as they were exactly below 2^31 (`RollBackIff`); beyond, the patch is skipped or lands in older bytes, and
  the truncation keeps too much, too little, or leaves the write index below the read index
  (`FullBufferFails`).
- A bad header ends the call with bytes left over, so the outcome of a stream below 2^31 bytes depends
  on the chunking exactly when at least sixteen bytes follow it (`ChunkingIndependentIff`).
- The encoder accepts payloads the receiver refuses; for reads of bounded size the round trip holds
  exactly up to 64 MiB (`RoundTripIff`).
- Tasks run in push order in every run exactly when none of those pushed stops the loop, or all are one
  task (`FifoIff`).
- A call of `Close` is harmless exactly when the status is not disconnected (`CloseIff`): on a
  torn-down connection some run closes the channel twice, on one not attached yet some run fails too.
- `TCPServer::Stop` on the listening loop looks at a connection and then closes it; a worker may tear it
  down in between, and the second close fails. It can never fail exactly when nothing known is attaching
  or open (`StopHereIff`); nothing else on the shutdown path can fail (`ShutdownSafety`).
- `TCPServer::Stop` from another thread can never fail exactly when, as it stores the status, no
  connection is known and no accept is past its check (`OffLoopStopIff`).
- Round robin over the wrap of the counter is fair exactly when the number of workers divides 2^64
  (`FairIff`).
- Message comparison is not transitive across kinds of values (`NotTransitiveAcrossKinds`). It means
  equality independently of the conversions exactly under `MeansEqualityIff`; for the language's own `==`
  the answer "equal" is right exactly when the values are aligned (`AnswerRightIff`).
- Copying a message succeeds with every field reading the same exactly when every repeated field holds
  something true and the extension object ends the array or holds nothing (`CopyReadsSameIff`).
- A map field is a map exactly when the texts of keys tell them apart and none is `__proto__` or
  `hasOwnProperty` (`RunsAreMapsIff`); with `has`, none may be any inherited name (`AnswersIff`).

## Reading the model

- Kernel answers are parameters: how many bytes a send took, what a read delivered, which kind of
  error. Interest registration with the loop always succeeds.
- `closes` in the connection handlers is how many times callbacks call `Close` again on the way.
- Packet classes are a factory: which codes exist, which payloads are accepted. Decoding consumes
  exactly the announced length and encoding only appends.
- `Sound` and `Language` describe the JavaScript engine: the number a string stands for and the text
  of objects and numbers. `null` and `undefined` are one value inside arrays; no modelled routine
  tells them apart there, and `Slot` does where one does.
- `==` on two references to one object is not modelled; such values compare equal anyway (`CompareSelf`).
- `Parse(false, ..)` is the frame grammar: a recursive parser that compares lengths as they are.
  `Parse(true, ..)` makes the program's narrowed comparison; the results about the program are stated
  over it.
- A step of the server system is one access to what another thread may change. `Tear` stands for the
  whole of `HandleClose` on the worker: a `Close` that comes during it has its status overwritten and
  no effect.
- The server's pool has at least one worker, so no connection lives on the listening loop.
- In `memmem.h` the hash is a signed `int`; the model lets it wrap.

## Model

| member | source | states |
|---|---|---|
| Bytes.BigEndianRoundTrip | thirdpartlibs/evpp/evpp/buffer.h:138-155 | reading the bytes of a number in network order gives the number back, for every width and value that fits it |
| Bytes.FromBigEndianBound | thirdpartlibs/evpp/evpp/buffer.h:295-320 | what is read from n bytes fits n bytes |
| Bytes.NetworkOrderRoundTrip | thirdpartlibs/evpp/evpp/buffer.h:137-155 | a signed integer appended in network order is read back unchanged, negative values included |
| Bytes.Bswap64IsNetworkOrder | thirdpartlibs/evpp/evpp/buffer.h:106-114 | the mask-and-shift byte swap, stored on a little-endian host, is network byte order |
| ByteBuffer.Buffer.constructor | thirdpartlibs/evpp/evpp/buffer.h:17-27 | an empty buffer with the requested writable and prependable room |
| ByteBuffer.Buffer.ToSlice | thirdpartlibs/evpp/evpp/buffer.h:222-224 | exactly the unread bytes |
| ByteBuffer.Buffer.Swap | thirdpartlibs/evpp/evpp/buffer.h:35-41 | the two buffers exchange everything |
| ByteBuffer.Buffer.Skip | thirdpartlibs/evpp/evpp/buffer.h:44-50 | drops that many unread bytes, or empties and resets the buffer |
| ByteBuffer.Buffer.Truncate | thirdpartlibs/evpp/evpp/buffer.h:61-68 | keeps only the first unread bytes; zero also resets the indices |
| ByteBuffer.Buffer.TruncateInt | thirdpartlibs/evpp/evpp/buffer.h:61-68 | called with an int: a negative length is a huge one, does nothing, or leaves the write index below the read index |
| ByteBuffer.Buffer.Reserve | thirdpartlibs/evpp/evpp/buffer.h:80-87 | never changes the unread bytes |
| ByteBuffer.Buffer.EnsureWritableBytes | thirdpartlibs/evpp/evpp/buffer.h:90-96 | room for the request afterwards, unread bytes unchanged |
| ByteBuffer.Buffer.Grow | thirdpartlibs/evpp/evpp/buffer.h:402-424 | reallocation and compaction keep the unread bytes and never trip the assertions of either branch |
| ByteBuffer.Buffer.Reallocate | thirdpartlibs/evpp/evpp/buffer.h:403-413 | new storage with the same unread bytes after the reserved prefix |
| ByteBuffer.Buffer.Compact | thirdpartlibs/evpp/evpp/buffer.h:414-423 | the unread bytes moved down within the storage |
| ByteBuffer.Buffer.Write | thirdpartlibs/evpp/evpp/buffer.h:118-123 | appends the bytes given |
| ByteBuffer.Buffer.AppendInt | thirdpartlibs/evpp/evpp/buffer.h:138-155 | appends the network-order bytes of the integer |
| ByteBuffer.Buffer.PeekInt | thirdpartlibs/evpp/evpp/buffer.h:295-320 | the integer in the leading bytes, buffer unchanged |
| ByteBuffer.Buffer.ReadInt | thirdpartlibs/evpp/evpp/buffer.h:198-220 | the same integer, its bytes dropped |
| ByteBuffer.Buffer.Prepend | thirdpartlibs/evpp/evpp/buffer.h:178-183 | puts the bytes in front of the unread ones, within the prependable room |
| ByteBuffer.Buffer.UnwriteBytes | thirdpartlibs/evpp/evpp/buffer.h:185-188 | drops bytes from the end |
| ByteBuffer.Buffer.Patch | common/net/defaultpacketstreamer.cc:86-90 | overwrites unread bytes in place through the data pointer |
| ByteBuffer.Buffer.Next | thirdpartlibs/evpp/evpp/buffer.h:244-252 | returns and drops the leading bytes, or everything |
| ByteBuffer.Buffer.NextAll | thirdpartlibs/evpp/evpp/buffer.h:256-260 | returns everything and resets |
| ByteBuffer.Buffer.UnreadBytes | thirdpartlibs/evpp/evpp/buffer.h:286-289 | steps the read index back over bytes before it |
| ByteBuffer.Buffer.Shrink | thirdpartlibs/evpp/evpp/buffer.h:230-234 | fresh storage of the requested slack with the same unread bytes |
| ByteBuffer.Buffer.ReadFromFD | thirdpartlibs/evpp/evpp/buffer.cc:22-46 | exactly the bytes the kernel delivered are appended, whether they end in the buffer or in the overflow area; an error changes nothing |
| ByteBuffer.SkipThenUnread | thirdpartlibs/evpp/evpp/buffer.h:284-289 | unreading a proper prefix that was skipped restores the buffer |
| ByteBuffer.RunRefinesQueue | thirdpartlibs/evpp/evpp/buffer.h:44-193 | every permitted run of operations acts on the unread bytes as the same run on a plain byte queue, through any reallocation and compaction |
| ByteBuffer.QueueRunsAreAlwaysPermitted | thirdpartlibs/evpp/evpp/buffer.h:178-193 | runs without prepend, unwrite and descriptor reads never meet an assertion |
| ByteBuffer.StorageLaws | thirdpartlibs/evpp/evpp/buffer.h:44-96 | what each operation does to the storage: only a request for room may change its size, which then at most doubles on top of the request, and stays when the room is there at the end or was consumed in front |
| PacketStreamer.WordRoundTrip | common/net/defaultpacketstreamer.cc:73-77 | a header word reads back as written |
| PacketStreamer.HeaderRoundTrip | common/net/defaultpacketstreamer.cc:32-35 | a written header reads back unchanged, whatever follows |
| PacketStreamer.HeaderLayout | common/net/defaultpacketstreamer.cc:72-78 | the header byte by byte: flag, channel, code and length, each with its most significant byte first |
| PacketStreamer.HeaderReadBack | common/net/defaultpacketstreamer.cc:32-35 | a header that was read, written again, is the bytes it was read from |
| PacketStreamer.PatchedFrame | common/net/defaultpacketstreamer.cc:86-90 | writing the length over its placeholder gives the finished frame |
| PacketStreamer.DefaultPacketStreamer.GetPacketInfo | common/net/defaultpacketstreamer.cc:25-46 | reads a header when sixteen bytes are there and reports a wrong flag or a bad length |
| PacketStreamer.DefaultPacketStreamer.Decode | common/net/defaultpacketstreamer.cc:48-62 | consumes exactly the payload, whether the code is known, unknown, or the packet refuses it |
| PacketStreamer.DefaultPacketStreamer.AppendHeader | common/net/defaultpacketstreamer.cc:72-79 | four header words with a placeholder for the length, and where it stands |
| PacketStreamer.DefaultPacketStreamer.GiveUp | common/net/defaultpacketstreamer.cc:80-84 | what a failed payload encoder appended, and the header, cut off at the narrowed old length |
| PacketStreamer.DefaultPacketStreamer.Complete | common/net/defaultpacketstreamer.cc:80-92 | the payload after the header, the length word patched in at the narrowed offset |
| PacketStreamer.DefaultPacketStreamer.PatchLength | common/net/defaultpacketstreamer.cc:86-90 | four bytes overwritten at the offset, or nothing when it is negative |
| PacketStreamer.DefaultPacketStreamer.Encode | common/net/defaultpacketstreamer.cc:64-93 | from any prior buffer state, exactly the effect on the unread bytes that the narrowed lengths have |
| PacketStreamer.BackPatchIff | common/net/defaultpacketstreamer.cc:76-90 | every payload ends as a whole frame after the old bytes if and only if the offset of its length word fits an int |
| PacketStreamer.RollBackIff | common/net/defaultpacketstreamer.cc:68-83 | a failed payload leaves the unread bytes as they were if and only if their number fits an int, whatever it had appended |
| PacketStreamer.LengthIsPayload | common/net/defaultpacketstreamer.cc:85 | the length word is that of the payload in every buffer state; only its place can be wrong |
| PacketStreamer.PatchedInPlace | common/net/defaultpacketstreamer.cc:86-90 | below 2^31 - 12 unread bytes the patched frame is the finished one |
| PacketStreamer.PatchedElsewhere | common/net/defaultpacketstreamer.cc:86-90 | from there on a one-byte payload keeps a zero in its length word |
| PacketStreamer.FullBufferFails | common/net/defaultpacketstreamer.cc:80-90 | one failing input each, for the back-patch and the rollback |
| FrameParser.NarrowedTest | common/net/serverconn.cc:58 | the test on the length narrowed to int agrees with the intended one exactly under a stated condition on the unread length |
| FrameParser.NarrowedTestStalls | common/net/serverconn.cc:58 | with two gigabytes unread a complete payload is not delivered |
| FrameParser.NarrowIsWide | common/net/serverconn.cc:51-66 | below two gigabytes the narrowed test makes no difference to a whole call |
| FrameParser.ParseAppend | common/net/serverconn.cc:47-71 | of the frame grammar: stopping after some bytes and resuming with more equals having had them at once, unless the call ended at a bad header |
| FrameParser.FeedNarrowIsWide | common/net/serverconn.cc:47-71 | the same for every list of chunks whose calls see less than two gigabytes |
| FrameParser.BacklogIsSmall | common/net/serverconn.cc:51-66 | of the frame grammar: a call that does not stop at a bad header leaves less than one frame behind |
| FrameParser.ChunkingIndependence | common/net/serverconn.cc:47-71 | through the narrowed comparison, for streams with only valid headers, complete or not, in which no call sees 2^31 bytes: packets, parser state and unread bytes are those of the frame grammar on the concatenation of the chunks |
| FrameParser.WideChunking | common/net/serverconn.cc:47-71 | the same of the frame grammar alone, without a bound |
| FrameParser.ShortStreamFits | common/net/serverconn.cc:58 | a stream below 2^31 bytes never takes a call out of the range of int |
| FrameParser.SmallReadsFit | common/net/serverconn.cc:58 | reads of bounded size never push a well-formed stream out of the range of int |
| FrameParser.ShortTailIsKept | common/net/serverconn.cc:54-56 | after a bad header fewer than sixteen more bytes are never consumed |
| FrameParser.BrokenWithShortTail | common/net/serverconn.cc:54-70 | of the frame grammar: a bad header followed by less than a header does not depend on the chunking |
| FrameParser.BrokenPrefix | common/net/serverconn.cc:54-56 | of the frame grammar: the bytes up to a bad header parse the same without what follows |
| FrameParser.ChunkingIndependentIff | common/net/serverconn.cc:47-71 | through the narrowed comparison, for every stream below 2^31 bytes: the outcome is the same for every chunking if and only if no header is bad or the first bad one is followed by fewer than sixteen bytes |
| FrameParser.ParseEncoded | common/net/defaultpacketstreamer.cc:64-93 | of the frame grammar: encoding any packets within the limit and parsing gives exactly their list, nothing left over and no header pending |
| FrameParser.RoundTrip | common/net/serverconn.cc:47-71 | the same over any cutting into chunks, through the narrowed comparison |
| FrameParser.RoundTripIff | common/net/serverconn.cc:47-71 | through the narrowed comparison, for every cutting into reads of bounded size: the round trip holds if and only if every payload is within 64 MiB |
| FrameParser.ReadBoundIff | common/net/serverconn.cc:47-71 | the exact bound on reads: every list of packets within the limit comes back for every cutting into reads of at most n bytes if and only if n is at most 2^31 - 2^26 |
| FrameParser.TooLongARead | common/net/serverconn.cc:58 | one byte more and a stream of 2^31 + 16 bytes cut in two delivers nothing |
| FrameParser.LargeReadStalls | common/net/serverconn.cc:58 | thirty-three frames of the largest size in one read deliver nothing |
| FrameParser.OversizedIsLost | common/net/defaultpacketstreamer.cc:36-40 | whatever bytes arrive and however they are cut, a longer payload is never delivered |
| FrameParser.FedAreSmall | common/net/defaultpacketstreamer.cc:36-40 | no delivered packet is longer than the limit |
| FrameParser.ParseAccounts | common/net/serverconn.cc:47-71 | of the frame grammar, for any bytes at all: they are the frames of the delivered packets, in order, followed by a header with less than its payload, or a header with another flag or a length outside 0 to 64 MiB, or less than a header; so no frame is invented, skipped or cut short |
| ServerConn.ServerConnection.HandlePacket | common/net/serverconn.cc:73-96 | one packet: bad ones reported, others queued or handed on, a full batch handed over |
| ServerConn.ServerConnection.ReadHeader | common/net/serverconn.cc:52-57 | reads the header unless one is pending |
| ServerConn.ServerConnection.Round | common/net/serverconn.cc:51-66 | one round of the loop is one step of the pure parser |
| ServerConn.ServerConnection.Drain | common/net/serverconn.cc:49-66 | the loop hands on every complete packet and stops where the pure parser does |
| ServerConn.ServerConnection.TakePacket | common/net/serverconn.cc:58-62 | one packet handed on and its header forgotten |
| ServerConn.ServerConnection.OnMessage | common/net/serverconn.cc:47-71 | the callback over the real buffer equals the pure parser and the pure packet handling |
| ServerConn.BatchConservation | common/net/serverconn.cc:73-96 | batches followed by the queue are the accepted packets in arrival order, batches have fifteen packets and the queue fewer, each refused packet is reported once |
| ServerConn.CallsStay | common/net/serverconn.cc:73-96 | a call once made stays at its place, so the counts for every prefix say after which packet each call is made |
| ServerConn.CallsInStep | common/net/serverconn.cc:73-96 | with batching, a packet of unknown code or refused payload is reported at once, the fifteenth accepted one hands the batch over, any other only joins the queue |
| ServerConn.OneCallPerPacket | common/net/serverconn.cc:94 | without batching each packet causes one call, in order |
| ServerConn.HandleAllAppend | common/net/serverconn.cc:73-96 | handling packets in two portions equals handling them at once |
| ServerConn.Receive | common/net/serverconn.cc:47-71 | a connection fed chunk by chunk does what the pure parser does |
| ServerConn.ReceiveEncoded | common/net/serverconn.cc:47-71 | end to end: any packets encoded by the sender, cut in any chunks, reach the adapter once each, in order |
| InputReads.RoundTripOverReads | thirdpartlibs/evpp/evpp/tcp_conn.cc:175-181 | with no hypothesis on the reads: packets within the limit that arrive through scatter reads into a fresh input buffer come back, however the kernel cuts their bytes, and the buffer stays below about 128 MiB |
| InputReads.ReadsStaySmall | thirdpartlibs/evpp/evpp/buffer.cc:22-46 | over any run of reads of a well-formed stream every read is short enough for the narrowed comparison and the buffer within its bound |
| InputReads.ReadKeepsBound | thirdpartlibs/evpp/evpp/buffer.cc:22-46 | a scatter read grows the buffer only when nearly all of it is unread |
| InputReads.TurnKeepsBound | common/net/serverconn.cc:47-71 | after a read and the callback the parser waits again, within the bound |
| InputReads.HandleReadEvent | thirdpartlibs/evpp/evpp/tcp_conn.cc:175-181 | the read and the callback on the real buffer and connection |
| InputReads.ReceiveStream | thirdpartlibs/evpp/evpp/tcp_conn.cc:175-181 | a whole stream, the kernel free in how much it delivers each time: what was read is parsed as the frame grammar says and the buffer is within its bound |
| EventLoop.NoLostWakeup | thirdpartlibs/evpp/evpp/event_loop.cc:228-261 | in every state of every run a non-empty queue means a byte in the pipe, a producer on its way to send one, or the loop about to swap |
| EventLoop.ExactlyOnce | thirdpartlibs/evpp/evpp/event_loop.cc:302-335 | tasks started, unrun batch remainders and the queue are together the tasks pushed, nested drains included |
| EventLoop.StopDrainsEverything | thirdpartlibs/evpp/evpp/event_loop.cc:121-146 | after the outermost drain around a stop, everything pushed before its last emptiness check has run, and everything pushed before the loop was asked to exit |
| EventLoop.CounterConservation | thirdpartlibs/evpp/evpp/event_loop.cc:242-245 | the counter plus producers about to count is the number of tasks queued or unfinished; exact when nobody is in between |
| EventLoop.Fifo | thirdpartlibs/evpp/evpp/event_loop.cc:321-333 | without a stop, started tasks, then the batch, then the queue are the push order |
| EventLoop.FifoIff | thirdpartlibs/evpp/evpp/event_loop.cc:121-146 | over all runs with tasks of a set, those started are always the first pushed if and only if none of the set stops the loop or it has only one task |
| EventLoop.Invariants | thirdpartlibs/evpp/evpp/event_loop.cc:228-335 | the five invariants behind these, for any number of producers |
| EventLoop.FewWakeups | thirdpartlibs/evpp/evpp/event_loop.cc:271-299 | what the flag saves, in every run: a producer sends at most one byte more than the flag was cleared, and the loop wakes up at most once for every byte sent |
| EventLoop.NotifyFirstLosesWakeup | thirdpartlibs/evpp/evpp/event_loop.cc:246-253 | with the two steps exchanged a wake-up is lost: a complete run that shows it |
| EventLoop.StopOvertakes | thirdpartlibs/evpp/evpp/event_loop.cc:121-146 | a run in which a stop breaks first-in first-out |
| EventLoopObject.Loop.QueueInLoop | thirdpartlibs/evpp/evpp/event_loop.cc:265-300 | one task pushed and counted, the flag set, a byte sent if the flag was clear; a path of the atomic steps |
| EventLoopObject.Loop.Notify | thirdpartlibs/evpp/evpp/event_watcher.cc:176-182 | one byte into the socket, dropped when it is full |
| EventLoopObject.Loop.HandlerFn | thirdpartlibs/evpp/evpp/event_watcher.cc:153-170 | takes the bytes and runs everything queued; a path of the atomic steps |
| EventLoopObject.Loop.DoPendingFunctors | thirdpartlibs/evpp/evpp/event_loop.cc:302-335 | clears the flag, takes the queue and runs it in order, counting each task off |
| EventLoopObject.Loop.RunBatch | thirdpartlibs/evpp/evpp/event_loop.cc:328-332 | the batch in order, each task counted off after it ran |
| EventLoopObject.Loop.DrainUntilEmpty | thirdpartlibs/evpp/evpp/event_loop.cc:125-133 | drains until the queue is found empty, whatever it held |
| EventLoopObject.Loop.StopInLoop | thirdpartlibs/evpp/evpp/event_loop.cc:121-146 | a drain, the request to exit, and a second drain, from inside a batch; whatever was queued has run and the queue is empty |
| TcpConnSpec.TeardownOnce | thirdpartlibs/evpp/evpp/tcp_conn.cc:246-284 | teardown callbacks at most once, exactly when the channel was closed, `ConnDown` before `CloseFn` where both are set; nothing is sent and no teardown callback made afterwards |
| TcpConnLaws.WireAndBuffer | thirdpartlibs/evpp/evpp/tcp_conn.cc:119-236 | in every run the bytes on the wire number what the answers of the kernel say it took, and are that many from the front of all data handed over; while the connection is open the rest is in the output buffer, and write interest is set exactly when there is any |
| TcpConnLaws.ReadsAreDelivered | thirdpartlibs/evpp/evpp/tcp_conn.cc:178-181 | in every run the data given to the message callback is what the reads delivered, in order, both read off the steps |
| TcpConnLaws.TeardownOrder | thirdpartlibs/evpp/evpp/tcp_conn.cc:271-283 | in every run the teardown part of the callbacks spelled out: none while the channel is open, once it is closed the connection callback and then the close callback, each if it is set |
| TcpConnLaws.StepExplained | thirdpartlibs/evpp/evpp/tcp_conn.cc:98-300 | each step as an observer sees it from the action and the answer of the kernel: bytes added to the wire, data taken over, tasks queued (write complete exactly when a send drains everything, high water when the mark is reached), callbacks made, channel closed exactly by a teardown |
| TcpConnLaws.RunCalls | thirdpartlibs/evpp/evpp/tcp_conn.cc:98-300 | the callbacks of a run are those of its steps, in order |
| TcpConnLaws.SendEffect | thirdpartlibs/evpp/evpp/tcp_conn.cc:119-173 | a send asks the kernel exactly when nothing is waiting, tears down exactly when the peer is gone, and otherwise keeps every byte |
| TcpConnLaws.WriteEffect | thirdpartlibs/evpp/evpp/tcp_conn.cc:212-236 | a write event moves exactly the bytes the kernel took, reports completion exactly when the buffer drains, tears down on an error |
| TcpConnLaws.ReadEffect | thirdpartlibs/evpp/evpp/tcp_conn.cc:175-210 | data is handed to the callback and changes nothing else; end of input and a hard error tear down |
| TcpConnLaws.RetryKeeps | thirdpartlibs/evpp/evpp/tcp_conn.cc:230-231 | a busy kernel changes nothing on a write event |
| TcpConnLaws.ReadsUntilTorn | thirdpartlibs/evpp/evpp/tcp_conn.cc:292-300 | in every run an attached connection is announced, if its callback is set, before any other callback, and keeps reading until it is torn down |
| TcpConnSpec.QueuedCloseTearsDown | thirdpartlibs/evpp/evpp/tcp_conn.cc:53-64 | running the queued close tears an open connection down |
| TcpConnSpec.CloseIff | thirdpartlibs/evpp/evpp/tcp_conn.cc:53-64 | after a call of `Close` in any state of any run no assertion can fail, however the run goes on, if and only if the status was not disconnected |
| TcpConnSpec.SecondCloseIsUnsafe | thirdpartlibs/evpp/evpp/tcp_conn.cc:53-64 | on a torn-down connection some run comes to close the channel twice |
| TcpConnSpec.EarlyCloseIsUnsafe | thirdpartlibs/evpp/evpp/tcp_conn.cc:292-295 | on a connection not attached yet, with anything queued, some run meets the status set back to connected |
| TcpConnSpec.EarlyCloseThenAttach | thirdpartlibs/evpp/evpp/tcp_conn.cc:292-295 | the other order: the close runs first and attaching meets a closed channel |
| TcpConnSpec.InvIsHarmless | thirdpartlibs/evpp/evpp/tcp_conn.cc:53-300 | from a state of the invariant no run of steps fails an assertion |
| TcpConnSpec.StepPreserves | thirdpartlibs/evpp/evpp/tcp_conn.cc:98-300 | every step keeps the invariant of the connection, its channel and its queue |
| TcpConnSpec.RunPreserves | thirdpartlibs/evpp/evpp/tcp_conn.cc:98-300 | so does every run |
| TcpConn.FdChannel.AttachToLoop | thirdpartlibs/evpp/evpp/fd_channel.cc:43-64 | registered with the current interest, never twice |
| TcpConn.FdChannel.DetachFromLoop | thirdpartlibs/evpp/evpp/fd_channel.cc:110-120 | not registered any more |
| TcpConn.FdChannel.Update | thirdpartlibs/evpp/evpp/fd_channel.cc:122-130 | registered exactly when some interest is set |
| TcpConn.FdChannel.EnableReadEvent | thirdpartlibs/evpp/evpp/fd_channel.cc:66-73 | read interest set, registration follows |
| TcpConn.FdChannel.EnableWriteEvent | thirdpartlibs/evpp/evpp/fd_channel.cc:75-82 | write interest set, registration follows |
| TcpConn.FdChannel.DisableReadEvent | thirdpartlibs/evpp/evpp/fd_channel.cc:84-91 | read interest cleared, registration follows |
| TcpConn.FdChannel.DisableWriteEvent | thirdpartlibs/evpp/evpp/fd_channel.cc:93-99 | write interest cleared, registration follows |
| TcpConn.FdChannel.DisableAllEvent | thirdpartlibs/evpp/evpp/fd_channel.cc:101-108 | no interest and no registration |
| TcpConn.FdChannel.Close | thirdpartlibs/evpp/evpp/fd_channel.cc:27-41 | closed once, and only when not registered |
| TcpConn.TCPConn.Close | thirdpartlibs/evpp/evpp/tcp_conn.cc:53-64 | status set at once, the close queued |
| TcpConn.TCPConn.OnAttachedToLoop | thirdpartlibs/evpp/evpp/tcp_conn.cc:292-300 | connected, reading, callback made |
| TcpConn.TCPConn.HandleClose | thirdpartlibs/evpp/evpp/tcp_conn.cc:246-284 | the teardown with `ConnDown` before `CloseFn`, or nothing on a disconnected connection, with closes asked for by callbacks |
| TcpConn.TCPConn.HandleError | thirdpartlibs/evpp/evpp/tcp_conn.cc:286-290 | teardown from any open status |
| TcpConn.TCPConn.BufferRemaining | thirdpartlibs/evpp/evpp/tcp_conn.cc:159-172 | the rest is buffered, write interest set, high water mark reported once when crossed |
| TcpConn.TCPConn.NoteHighWater | thirdpartlibs/evpp/evpp/tcp_conn.cc:160-165 | the callback is queued exactly when the buffer comes to reach the mark |
| TcpConn.TCPConn.SendInLoop | thirdpartlibs/evpp/evpp/tcp_conn.cc:119-173 | equals the pure handler for every answer of the kernel |
| TcpConn.TCPConn.TrySend | thirdpartlibs/evpp/evpp/tcp_conn.cc:127-149 | one send at once when nothing is waiting |
| TcpConn.TCPConn.Send | thirdpartlibs/evpp/evpp/tcp_conn.cc:98-109 | a whole buffer is sent, queued or dropped according to status and thread |
| TcpConn.TCPConn.HandleRead | thirdpartlibs/evpp/evpp/tcp_conn.cc:175-210 | data makes one message callback and changes nothing else; end of file and both kinds of error as the pure handler |
| TcpConn.TCPConn.HandleWrite | thirdpartlibs/evpp/evpp/tcp_conn.cc:212-236 | exactly the bytes taken leave the buffer for the wire, write interest and completion follow what is left, a busy kernel changes nothing; errors as the pure handler |
| PacketSender.Sender.EncodeFrame | common/net/serverconn.cc:38-40 | the effect of encoding on what the output buffer held |
| PacketSender.Sender.EncodingAddsFrame | common/net/serverconn.cc:38-40 | with room for the narrowed lengths that is exactly the frame added, or nothing |
| PacketSender.Sender.PostPacket | common/net/serverconn.cc:27-45 | what was left in the output buffer and the frame reach the connection in one piece, or nothing happens |
| FrameAtomicity.FramesStayWhole | common/net/serverconn.cc:27-45 | in every interleaving of posting threads and loop steps the wire of an open connection is a sequence of whole frames, each thread's in its own order |
| FrameAtomicity.WireIsEncoding | common/net/serverconn.cc:37-43 | the frames on the wire are the encoding of the packets sent |
| FrameAtomicity.NextPreserves | common/net/serverconn.cc:27-45 | every step of any thread keeps the invariant |
| FrameAtomicity.RunPreserves | common/net/serverconn.cc:27-45 | so does every run |
| FrameAtomicity.NothingIsLost | common/net/serverconn.cc:27-45 | on an open connection, what each thread came to post, read off the steps, is on the wire or in the output buffer, in the queue of the loop or in the shared buffer, in its order and nothing else |
| FrameAtomicity.PostGoesThrough | common/net/serverconn.cc:27-45 | a thread that finds the connection connected and the lock free can post its message in at most six steps of its own, and leaves lock and shared buffer free |
| EndToEnd.PrefixOfFrames | common/net/serverconn.cc:47-71 | of a stream of whole frames the first bytes give the first packets and never a bad header |
| EndToEnd.ChunksOfFrames | common/net/serverconn.cc:47-71 | the same over any chunking, through the narrowed comparison |
| EndToEnd.DeliveredIsSent | common/net/serverconn.cc:27-71 | from posting threads to the peer: in every interleaving and chunking the peer delivers a prefix of the frames sent, all once the output drained, of each thread the first it came with, in its order |
| TcpServer.ShutdownSafety | thirdpartlibs/evpp/evpp/tcp_server.cc:74-187 | in every run with `Stop` on the listening loop: the only assertion that can fail is that of a second teardown, and it cannot when no worker tears a connection down between the look at it and its close; removals refer to known connections, the pool stops only without connections, the callback comes at most once and before the stopped status |
| TcpServer.StopHereIff | thirdpartlibs/evpp/evpp/tcp_server.cc:99-106 | a stop on the listening loop can never fail an assertion if and only if no known connection is attaching or open when it is called |
| TcpServer.SeenThenTornFails | thirdpartlibs/evpp/evpp/tcp_server.cc:100-102 | the run that fails: seen open, torn down by its worker, closed again |
| TcpServer.OnlySecondTeardownFails | thirdpartlibs/evpp/evpp/tcp_server.cc:74-187 | in every state of the invariant every other assertion holds |
| TcpServer.NoConnectionAfterStop | thirdpartlibs/evpp/evpp/tcp_server.cc:133-142 | nothing is accepted or recorded once stopping, when `Stop` is on the listening loop |
| TcpServer.LastRemovalStops | thirdpartlibs/evpp/evpp/tcp_server.cc:173-183 | removing the last connection of a stopping server stops it |
| TcpServer.ShutdownCompletes | thirdpartlibs/evpp/evpp/tcp_server.cc:168-187 | from every state in which the stop has closed what was open, and nothing twice, some run ends with the pool stopped, the callback made if there is one, and the server stopped |
| TcpServer.StopClosesAll | thirdpartlibs/evpp/evpp/tcp_server.cc:99-106 | a stop leaves no known connection open, whatever the workers do, as long as none is attached meanwhile |
| TcpServer.AcceptGoesThrough | thirdpartlibs/evpp/evpp/tcp_server.cc:133-158 | a running server records a new connection and posts it to be attached |
| TcpServer.OffLoopStopIff | thirdpartlibs/evpp/evpp/tcp_server.cc:74-80 | a stop from another thread can never fail an assertion if and only if, when it stores the status, no connection is known and no accept is past its check |
| TcpServer.EarlyRemovalFails | thirdpartlibs/evpp/evpp/tcp_server.cc:174-177 | with the status stored and the sub-status not, the last removal fails its assertion |
| TcpServer.StoppedBeforeStop | thirdpartlibs/evpp/evpp/tcp_server.cc:76-79 | with both stored, a run in which the last removal finishes the shutdown and the stop queued after it fails |
| TcpServer.AllLeaveFirst | thirdpartlibs/evpp/evpp/tcp_server.cc:168-187 | every connection of a stopping server can go, up to the last removal |
| TcpServer.QuietRun | thirdpartlibs/evpp/evpp/tcp_server.cc:133-142 | without a known connection or an accept past its check a marked server stays so |
| TcpServer.StepPreserves | thirdpartlibs/evpp/evpp/tcp_server.cc:74-187 | every safe step keeps the invariant |
| TcpServer.RunPreserves | thirdpartlibs/evpp/evpp/tcp_server.cc:74-187 | so does every run |
| TcpServerObject.TCPServer.HandleNewConn | thirdpartlibs/evpp/evpp/tcp_server.cc:133-158 | checks, asserts and posts, then records; discards while stopping; a path of the atomic steps |
| TcpServerObject.TCPServer.PostConnection | thirdpartlibs/evpp/evpp/tcp_server.cc:142-156 | one step, its assertion on the status |
| TcpServerObject.TCPServer.RemoveConnectionInLoop | thirdpartlibs/evpp/evpp/tcp_server.cc:168-187 | one removal step, with its assertion on the sub-status proved |
| TcpServerObject.TCPServer.Stop | thirdpartlibs/evpp/evpp/tcp_server.cc:74-80 | a path of the atomic steps; left alone it closes exactly the open connections or finishes at once |
| TcpServerObject.TCPServer.RunStopInLoop | thirdpartlibs/evpp/evpp/tcp_server.cc:82-113 | stops at once, or closes what is open and waits |
| TcpServerObject.TCPServer.CloseAndWait | thirdpartlibs/evpp/evpp/tcp_server.cc:97-112 | closes what is open and keeps the callback |
| TcpServerObject.TCPServer.CloseConnections | thirdpartlibs/evpp/evpp/tcp_server.cc:99-106 | looks at and closes one connection after the other; left alone, exactly the open ones |
| TcpServerObject.TCPServer.VisitConnection | thirdpartlibs/evpp/evpp/tcp_server.cc:100-105 | one look and, if open, one close |
| TcpServerObject.TCPServer.StopThreadPool | thirdpartlibs/evpp/evpp/tcp_server.cc:115-128 | the pool is gone and the sub-status cleared |
| TcpServerObject.TCPServer.FinishStop | thirdpartlibs/evpp/evpp/tcp_server.cc:90-96 | workers, callback, status, in this order |
| ThreadPool.EventLoopThreadPool.GetNextLoop | thirdpartlibs/evpp/evpp/event_loop_thread_pool.cc:138-150 | the base loop, or the worker the counter points at, and the counter advanced modulo 2 to the 64 |
| ThreadPool.EventLoopThreadPool.Dispatch | thirdpartlibs/evpp/evpp/event_loop_thread_pool.cc:138-150 | any number of calls in a row give out the workers as `Chosen` counts, and before the wrap any two equally often, give or take one |
| ThreadPool.EventLoopThreadPool.GetNextLoopWithHash | thirdpartlibs/evpp/evpp/event_loop_thread_pool.cc:152-161 | the base loop, or the worker the hash points at |
| ThreadPool.FairBeforeWrap | thirdpartlibs/evpp/evpp/event_loop_thread_pool.cc:138-150 | over any window of calls before the counter wraps any two workers are chosen equally often, give or take one |
| ThreadPool.RoundRobin | thirdpartlibs/evpp/evpp/event_loop_thread_pool.cc:138-150 | the workers take turns, the first one first; only at the wrap of the counter may the turn jump |
| ThreadPool.FairIff | thirdpartlibs/evpp/evpp/event_loop_thread_pool.cc:144-146 | over all windows, wrap included, if and only if the number of workers divides 2 to the 64 |
| ThreadPool.UnfairOverWrap | thirdpartlibs/evpp/evpp/event_loop_thread_pool.cc:144-146 | otherwise the window around the wrap is unfair |
| JspbCompare.AlignedCompare | thirdpartlibs/protobuf/js/message.js:1525-1605 | for values with things of one kind at every place, comparison is equality of canonical forms |
| JspbCompare.SameCompareEqual | thirdpartlibs/protobuf/js/message.js:1525-1605 | values with one canonical form compare equal, whatever the conversions of the language |
| JspbCompare.LeavesCompare | thirdpartlibs/protobuf/js/message.js:1525-1539 | on values without parts of one kind, or a number and its spelling: equal means the same value, not-a-number itself, or a number that is not finite and the string that spells it |
| JspbCompare.MeansEqualityIff | thirdpartlibs/protobuf/js/message.js:1525-1539 | comparison means equality independently of the conversions of the language if and only if the values are aligned or differ even when all conversions succeed |
| JspbCompare.AnswerRightIff | thirdpartlibs/protobuf/js/message.js:1525-1605 | under any conversions, the language's own among them: "different" is always right, "equal" is right if and only if the values are aligned |
| JspbCompare.TypedCompare | thirdpartlibs/protobuf/js/message.js:1525-1605 | on values of one message type, comparison is equality of canonical forms |
| JspbCompare.TypedEquivalence | thirdpartlibs/protobuf/js/message.js:1525-1605 | hence reflexive, symmetric and transitive there |
| JspbCompare.CompareSelf | thirdpartlibs/protobuf/js/message.js:1525-1527 | every well-formed value equals itself |
| JspbCompare.CloneComparesEqual | thirdpartlibs/protobuf/js/message.js:1695-1728 | a copy compares equal to its original, both ways |
| JspbCompare.CloneIsSame | thirdpartlibs/protobuf/js/message.js:1695-1728 | a copy is well formed and has the canonical form of the original |
| JspbCompare.CloneCanon | thirdpartlibs/protobuf/js/message.js:1695-1728 | any copy, of a well-formed value or not, has the canonical form of the original |
| JspbCompare.CanonIsNormal | thirdpartlibs/protobuf/js/message.js:1559-1602 | canonical forms are well formed and their own canonical form |
| JspbCompare.ListCanon | thirdpartlibs/protobuf/js/message.js:1559-1596 | arrays have one canonical form exactly when bodies agree place by place, padded with nulls, and extensions agree |
| JspbCompare.MapCanon | thirdpartlibs/protobuf/js/message.js:1499-1516 | extension objects have one canonical form exactly when fields agree, absent ones read as null |
| JspbCompare.TrimEqual | thirdpartlibs/protobuf/js/message.js:1565-1568 | trimming forgets nothing but trailing nulls |
| JspbCompare.ConformingIsAligned | thirdpartlibs/protobuf/js/message.js:1525-1605 | values of one type have things of one kind at every place |
| JspbRoutines.CompareFields | thirdpartlibs/protobuf/js/message.js:1525-1605 | the routine decides the comparison |
| JspbRoutines.CompareBytes | thirdpartlibs/protobuf/js/message.js:1546-1555 | byte arrays element by element |
| JspbRoutines.CompareArrays | thirdpartlibs/protobuf/js/message.js:1557-1596 | the array loop decides the comparison and its assertions on extension objects hold |
| JspbRoutines.CompareExtensions | thirdpartlibs/protobuf/js/message.js:1499-1516 | every key of either object, absent objects read as empty |
| JspbRoutines.CompareSymmetric | thirdpartlibs/protobuf/js/message.js:1525-1605 | the order of the arguments does not matter, even across kinds |
| JspbRoutines.NotTransitiveAcrossKinds | thirdpartlibs/protobuf/js/message.js:1527 | across kinds comparison is not transitive: "0", 0 and the empty string |
| JspbRoutines.Clone | thirdpartlibs/protobuf/js/message.js:1695-1728 | the copy: arrays of the same length, extension objects without null-valued fields |
| JspbMessage.StoredLaws | thirdpartlibs/protobuf/js/message.js:903-910 | get after set and the frame, on either side of the pivot; a set that fails changes nothing |
| JspbMessage.GetKeepsReadings | thirdpartlibs/protobuf/js/message.js:652-670 | reading changes no reading, and leaves what was read in place of the sentinel |
| JspbMessage.ReducedLaws | thirdpartlibs/protobuf/js/message.js:1074-1097 | the chosen field keeps its value, the others of the group are cleared, all else is untouched |
| JspbMessage.LastSetIsLast | thirdpartlibs/protobuf/js/message.js:1078-1086 | the field chosen is the last of the group that is set |
| JspbMessage.LastSetLaws | thirdpartlibs/protobuf/js/message.js:1088-1096 | none is chosen exactly when none is set |
| JspbMessage.UnchangedIff | thirdpartlibs/protobuf/js/message.js:1074-1097 | asking leaves the message unchanged if and only if at most one field is set and none holds the sentinel |
| JspbMessage.SetOneofLaws | thirdpartlibs/protobuf/js/message.js:1045-1054 | the value is read back; no other field of the group stays set unless the value is undefined, and then the chosen one reads as it did; other fields untouched |
| JspbMessage.ClearingUnsetMember | thirdpartlibs/protobuf/js/message.js:1191-1198 | on a message made from any array, after any run, clearing a member that is not set changes no reading |
| JspbMessage.RunReads | thirdpartlibs/protobuf/js/message.js:652-1097 | every field reads after a run as the calls say: what was set last, nothing where another member of its group was set since, and nothing but the calls changes a reading |
| JspbMessage.RunKeepsGroups | thirdpartlibs/protobuf/js/message.js:1045-1097 | every run of proper calls keeps at most one field of each group set |
| JspbMessage.RepeatedLaws | thirdpartlibs/protobuf/js/message.js:377-391 | absent repeated fields get the sentinel, all else is untouched |
| JspbMessage.GroupsLaws | thirdpartlibs/protobuf/js/message.js:393-401 | disjoint groups are reduced independently of one another |
| JspbMessage.OneofUniqueness | thirdpartlibs/protobuf/js/message.js:359-403 | from any array, after initialisation and any run, at most one field of each group is set |
| JspbMessage.FoundPlaces | thirdpartlibs/protobuf/js/message.js:441-470 | where the fields of a new message are: in the slots at their number less one, or at their number after an identifier, up to the object at the end, in that object from there on, and nowhere from a suggested pivot on |
| JspbMessage.EmptyMessage | thirdpartlibs/protobuf/js/message.js:362-365 | a message made from no array has its identifier in the first slot and no field set |
| JspbMessage.InitializedReads | thirdpartlibs/protobuf/js/message.js:359-403 | a field in no group reads as in the array, an absent repeated one as an empty list |
| JspbMessage.CopiedIsValid | thirdpartlibs/protobuf/js/message.js:1648-1651 | a copied array is one a message can be made from |
| JspbMessage.CopyReadsSameIff | thirdpartlibs/protobuf/js/message.js:1648-1651 | the copy, set up anew from the copied array, is made and every field of it reads as in the original if and only if every repeated field holds something true and the extension object ends the array or holds nothing |
| JspbMessage.CopySameContents | thirdpartlibs/protobuf/js/message.js:1695-1728 | a copied value is the same value; a list, bytes or extension object one with the same canonical form, a list of the same length |
| JspbMessage.CopyAfterRun | thirdpartlibs/protobuf/js/message.js:1648-1651 | the same for every message made from an array and changed by any run |
| JspbMessage.CopyRead | thirdpartlibs/protobuf/js/message.js:1648-1651 | a field of the copy reads as found in the copied array, an absent repeated one as an empty list |
| JspbMessage.CopyLosesExtension | thirdpartlibs/protobuf/js/message.js:1648-1651 | a concrete message whose copy loses an extension field |
| JspbMessage.AbsentBecomesEmpty | thirdpartlibs/protobuf/js/message.js:377-391 | one whose unset repeated field reads as an empty list in the copy |
| JspbMessage.RepeatedBeyondPivot | thirdpartlibs/protobuf/js/message.js:386-389 | one that cannot be copied |
| JspbMessageObject.Message.Initialize | thirdpartlibs/protobuf/js/message.js:359-403 | the new message, or failure exactly when some repeated field cannot be set, with those before it done |
| JspbMessageObject.Message.InitPivotAndExtensionObject | thirdpartlibs/protobuf/js/message.js:441-470 | pivot and extension object found in the array |
| JspbMessageObject.Message.MaybeInitEmptyExtensionObject | thirdpartlibs/protobuf/js/message.js:478-483 | an extension object when the slot at the pivot holds nothing true |
| JspbMessageObject.Message.InitRepeatedField | thirdpartlibs/protobuf/js/message.js:379-389 | the sentinel for one absent repeated field |
| JspbMessageObject.Message.InitRepeatedFields | thirdpartlibs/protobuf/js/message.js:377-391 | the sentinels for all of them, or failure exactly when one cannot be set |
| JspbMessageObject.Message.InitOneofs | thirdpartlibs/protobuf/js/message.js:393-401 | every group reduced |
| JspbMessageObject.Message.GetField | thirdpartlibs/protobuf/js/message.js:652-670 | the reading, and the sentinel opened |
| JspbMessageObject.Message.SetField | thirdpartlibs/protobuf/js/message.js:903-910 | the stored message, or failure exactly when the slot at the pivot is taken |
| JspbMessageObject.Message.ComputeOneofCase | thirdpartlibs/protobuf/js/message.js:1074-1097 | the chosen field and the reduced message |
| JspbMessageObject.Message.SetOneofField | thirdpartlibs/protobuf/js/message.js:1045-1054 | the message after setting a field of a group, failure included; the cached wrapper of the old field is dropped, and for an undefined value the chosen field reads as it did |
| JspbMap.MapAndArrayAgree | thirdpartlibs/protobuf/js/map.js:59-130 | after any run a map loaded from `toArray()` has the same table, the array is the one loaded until something changes, and then the sorted listing determined by the table alone |
| JspbMap.RunsAreMapsIff | thirdpartlibs/protobuf/js/map.js:231-359 | the table after every run on a map loaded from any array is what the array and the calls make of a mathematical map if and only if different keys have different texts and none is `__proto__` or `hasOwnProperty` |
| JspbMap.AnswersIff | thirdpartlibs/protobuf/js/map.js:386-405 | with the answers of `has` and `get`: if and only if different keys have different texts and none is the name of an inherited property |
| JspbMap.LoadListing | thirdpartlibs/protobuf/js/map.js:84-92 | a map loaded from its listing is the map |
| JspbMap.LastEntryCounts | thirdpartlibs/protobuf/js/map.js:84-92 | of the entries of an array under one key the last counts, also under `__proto__` |
| JspbMap.LoadRepresents | thirdpartlibs/protobuf/js/map.js:59-92 | a loaded array is the mathematical map of its entries set one after the other |
| JspbMap.RunAnswers | thirdpartlibs/protobuf/js/map.js:231-394 | what `get` answers after any run, for any key and any texts of keys, from the calls alone |
| JspbMap.LessParts | thirdpartlibs/protobuf/js/map.js:118 | strings are in order when at the first place they part the first ends or has the smaller code unit |
| JspbMap.AscendingUnique | thirdpartlibs/protobuf/js/map.js:118-120 | there is one ascending listing of a set of strings |
| JspbMap.ListingAt | thirdpartlibs/protobuf/js/map.js:117-128 | the listing is in strictly ascending order of key text and has every entry once |
| JspbMap.RunValid | thirdpartlibs/protobuf/js/map.js:99-130 | every run keeps array and table in step where they are claimed to be |
| JspbMap.JspbMapObject.constructor | thirdpartlibs/protobuf/js/map.js:59-77 | a map loaded from its array |
| JspbMap.JspbMapObject.LoadFromArray | thirdpartlibs/protobuf/js/map.js:84-92 | of two entries under one key the later counts |
| JspbMap.JspbMapObject.StringKeys | thirdpartlibs/protobuf/js/map.js:509-518 | each key text once |
| JspbMap.JspbMapObject.GetLength | thirdpartlibs/protobuf/js/map.js:223-225 | the number of entries |
| JspbMap.JspbMapObject.GetEntryList | thirdpartlibs/protobuf/js/map.js:263-272 | the listing of the table |
| JspbMap.JspbMapObject.ToArray | thirdpartlibs/protobuf/js/map.js:99-130 | the array, brought up to date when it is not |
| JspbMap.JspbMapObject.Clear | thirdpartlibs/protobuf/js/map.js:231-234 | empty, and out of step with the array |
| JspbMap.JspbMapObject.Del | thirdpartlibs/protobuf/js/map.js:245-251 | the key is gone and it says whether it was there; fails once an entry hides `hasOwnProperty` |
| JspbMap.JspbMapObject.Set | thirdpartlibs/protobuf/js/map.js:346-359 | the entry under the text of its key, or as the prototype under `__proto__` |
| JspbMap.JspbMapObject.Assign | thirdpartlibs/protobuf/js/map.js:84-92 | an assigned property, or the prototype |
| JspbMap.JspbMapObject.Get | thirdpartlibs/protobuf/js/map.js:386-394 | the value found, inherited properties included; that of the map the table represents |
| JspbMap.JspbMapObject.Has | thirdpartlibs/protobuf/js/map.js:402-405 | whether the property is found, inherited ones included |
| Memmem.Search | thirdpartlibs/evpp/evpp/memmem.h:35-79 | the first occurrence, or none exactly when there is none, whatever the byte past the haystack |
| Memmem.OccursInMemory | thirdpartlibs/evpp/evpp/memmem.h:67-69 | where the needle occurs the window has its hash and first byte, so neither test before the comparison loses an occurrence |
| Memmem.InitHashes | thirdpartlibs/evpp/evpp/memmem.h:56-60 | the hashes of the needle and of the first window |
| Memmem.Roll | thirdpartlibs/evpp/evpp/memmem.h:73-75 | the rolled 32-bit hash is the hash of the next window |
| Memmem.FirstOccurrenceUnique | thirdpartlibs/evpp/evpp/memmem.h:35-79 | the result is determined by the haystack and the needle |

## Left out

- Sockets, libevent, DNS, connectors, clients, listeners and timers: foreign calls; the kernel is a parameter of the handlers.
- Memory lifetime, reference counts and data races on single words.
- The width of `size_t`: capacity arithmetic is unbounded; lengths narrowed to `int` are written out.
- The boost and concurrentqueue variants of the task queue: the mutex and vector variant is modelled.
- A loop that has stopped: status assertions of `Stop`, what libevent does after the request to exit, and the watcher that is gone afterwards.
- `RunInLoop` run at once on the loop thread is the task itself; only its queueing branch is a step.
- EventLoopObject.Loop.DoPendingFunctors: says what a drain does when no other thread interferes; interleaved runs are the theorems of `EventLoop`.
- EventLoopObject.Loop.HandlerFn: as above, and the 128-byte buffer of the normal build, not the benchmark one.
- EventLoopObject.Loop.RunBatch: functors that queue more tasks while they run are producers of their own in `EventLoop`, not part of this contract.
- TcpConnSpec.TeardownOnce: of runs that call `Close` only while the status is not disconnected; `CloseIff` shows that no other run is safe.
- PacketSender.Sender.EncodeFrame: of a failed payload, only while what is unread fits an `int`; beyond, the indices of the buffer may cross and its length asserts.
- PacketSender.Sender.PostPacket: as above.
- FrameParser.WideChunking: about the frame grammar; `ChunkingIndependence` is the result about the program.
- FrameParser.RoundTrip: for reads within the bound that `ReadBoundIff` shows to be exact.
- FrameParser.RoundTripIff: as above.
- ServerConn.ReceiveEncoded: as above; `InputReads` has the program's own reads.
- EventLoopObject.Loop.DrainUntilEmpty: says what a drain does when no other thread interferes.
- EventLoopObject.Loop.StopInLoop: as above.
- TcpServerObject.TCPServer.VisitConnection: says what a look and a close come to when no worker steps in between.
- FrameParser.ParseAppend: about the frame grammar; `NarrowIsWide` and `FeedNarrowIsWide` carry it to the program below 2^31 bytes.
- FrameParser.BacklogIsSmall: about the frame grammar, as above.
- FrameParser.BrokenWithShortTail: about the frame grammar, as above.
- FrameParser.BrokenPrefix: about the frame grammar, as above.
- FrameParser.ParseEncoded: about the frame grammar; `RoundTrip` is the result about the program.
- A close delay other than zero, and the unguarded send overload that skips the status check on the loop thread.
- Failures of event registration in `FdChannel`, and its read and write callbacks.
- FrameAtomicity.FramesStayWhole: takes the loop's task queue as first-in first-out, which holds without a stop of the loop; `StopOvertakes` shows it fails with one.
- `ServerConnection::PostPacket` asserts a non-zero channel; the channel number plays no part in the framing.
- TcpServerObject.TCPServer.Stop: what it comes to is stated for the case that no worker steps in between; interleaved runs are the theorems of `TcpServer`.
- TcpServerObject.TCPServer.RunStopInLoop: as above.
- TcpServerObject.TCPServer.CloseConnections: as above.
- TcpServer.ShutdownSafety: one call of `Stop`; what happens after a failed assertion, with assertions compiled out, is not modelled.
- TcpServer.StopClosesAll: of runs in which no connection is attached during the stop; one that is not attached yet is skipped, and stays open once it is.
- Starting and joining the pool's threads; the server sees only whether the pool is there.
- The linked list inside `PacketQueue`: a sequence with push, size and clear.
- Header-less streaming mode, which leaves the payload length undefined.
- `FindCRLF`, `FindEOL`, `ToText` and `ReadByte` of the buffer: thin views on the same bytes.
- Numbers of JavaScript are reals with infinities and one not-a-number; rounding plays no part.
- JspbCompare.TypedCompare: a bytes field holds byte arrays in all values, or base64 strings in all as a text field does; a mix of the two is not of one kind.
- JspbRoutines.CompareFields: takes the library's assertions about extension objects as its precondition.
- JspbRoutines.Clone: works on values, so that the copy shares no storage is not expressed.
- JspbMessageObject.Message.GetField: a list is a value, so a list handed out is not the one in the message.
- JspbMessageObject.Message.Initialize: wrappers of submessages are only known by the numbers of their fields.
- JspbMessage.CopyReadsSameIff: no field is both repeated and in a one-of group, as in every message type.
- `setFieldIgnoringDefault_`: for numbers at or beyond the pivot it clears an array slot instead of the extension.
- JspbMap.JspbMapObject.Has: the inherited names are those of the language standard; properties added to `Object.prototype` by others are not known.
- JspbMap.JspbMapObject.ToArray: primitive values, so no wrapper is synchronised.
- Serialisation, extensions by registered descriptor, `toObject` and base64 of the message library.
- Objective-C headers, conformance programs, MiniDumper and logging.
