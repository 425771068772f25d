/** The connection and its event channel as the objects the program has, with every handler
    proved against the functions of `TcpConnSpec`. */
module TcpConn {
  import opened Bytes
  import opened ByteBuffer
  import opened Wrappers
  import Spec = TcpConnSpec

  class FdChannel {
    var readable: bool
    var writable: bool
    var attached: bool
    var closed: bool

    ghost function View(): Spec.Channel
      reads this
    {
      Spec.Channel(readable, writable, attached, closed)
    }

    constructor ()
      ensures View() == Spec.Channel(false, false, false, false)
    {
      readable, writable, attached, closed := false, false, false, false;
    }

    method IsNoneEvent() returns (none: bool)
      ensures none == View().IsNone()
    {
      none := !readable && !writable;
    }

    method AttachToLoop()
      requires !View().IsNone() && !closed
      modifies this`attached
      ensures attached
    {
      if attached {
        DetachFromLoop();
      }
      attached := true;
    }

    method DetachFromLoop()
      requires attached
      modifies this`attached
      ensures !attached
    {
      attached := false;
    }

    method Update()
      requires !closed && (View().IsNone() ==> attached)
      modifies this`attached
      ensures View() == Spec.Update(old(View()))
    {
      var none := IsNoneEvent();
      if none {
        DetachFromLoop();
      } else {
        AttachToLoop();
      }
    }

    method EnableReadEvent()
      requires View().Valid() && !closed
      modifies this
      ensures View() == Spec.EnableRead(old(View()))
    {
      var before := readable;
      readable := true;
      if readable != before {
        Update();
      }
    }

    method EnableWriteEvent()
      requires View().Valid() && !closed
      modifies this
      ensures View() == Spec.EnableWrite(old(View()))
    {
      var before := writable;
      writable := true;
      if writable != before {
        Update();
      }
    }

    method DisableReadEvent()
      requires View().Valid() && !closed
      modifies this
      ensures View() == Spec.DisableRead(old(View()))
    {
      var before := readable;
      readable := false;
      if readable != before {
        Update();
      }
    }

    method DisableWriteEvent()
      requires View().Valid() && !closed
      modifies this
      ensures View() == Spec.DisableWrite(old(View()))
    {
      var before := writable;
      writable := false;
      if writable != before {
        Update();
      }
    }

    method DisableAllEvent()
      requires View().Valid() && !closed
      modifies this
      ensures View() == Spec.DisableAll(old(View()))
    {
      var none := IsNoneEvent();
      if none {
        return;
      }
      readable, writable := false, false;
      Update();
    }

    method Close()
      requires View().Valid() && !closed && !attached
      modifies this`closed
      ensures View() == Spec.CloseChannel(old(View()))
    {
      closed := true;
    }
  }

  class TCPConn {
    const cfg: Spec.Config
    const chan: FdChannel
    const outputBuffer: Buffer
    var status: Spec.Status
    /** What the connection has done to its surroundings: functors queued on the loop, bytes
        the kernel accepted, bytes it was given, callbacks made. */
    var queue: seq<Spec.Task>
    var wire: seq<byte>
    var given: seq<byte>
    var log: seq<Spec.Event>
    var started: bool

    ghost predicate Valid()
      reads this, outputBuffer, outputBuffer.Repr
    {
      outputBuffer.Valid() && this !in outputBuffer.Repr && chan !in outputBuffer.Repr
    }

    ghost function View(): Spec.Conn
      reads this, chan, outputBuffer, outputBuffer.Repr
      requires Valid()
    {
      Spec.Conn(cfg, status, started, chan.View(), outputBuffer.View().unread, queue, wire, given, log)
    }

    constructor (cfg: Spec.Config)
      ensures Valid() && View() == Spec.NewConn(cfg)
    {
      this.cfg := cfg;
      chan := new FdChannel();
      outputBuffer := new Buffer(INITIAL_SIZE, CHEAP_PREPEND_SIZE);
      status, started := Spec.Disconnected, false;
      queue, wire, given, log := [], [], [], [];
    }

    /** Sets the status at once; the functor that closes is queued. */
    method Close()
      requires Valid()
      modifies this
      ensures Valid()
      ensures View() == old(View()).(status := Spec.Disconnecting, queue := old(View()).queue + [Spec.CloseTask])
    {
      status := Spec.Disconnecting;
      queue := queue + [Spec.CloseTask];
    }

    method OnAttachedToLoop()
      requires Valid() && chan.View().Valid() && !chan.closed
      modifies this, chan
      ensures Valid() && View() == Spec.OnAttachedToLoop(old(View()))
    {
      status := Spec.Connected;
      started := true;
      chan.EnableReadEvent();
      if cfg.connFn {
        log := log + [Spec.ConnUp];
      }
    }

    method HandleClose(closes: nat)
      requires Valid() && Spec.CanHandleClose(View())
      modifies this, chan
      ensures Valid() && View() == Spec.HandleClose(old(View()), closes)
      ensures old(status) != Spec.Disconnected ==> log == old(log) + Spec.TeardownCalls(cfg) && chan.closed
    {
      if status == Spec.Disconnected {
        return;
      }
      assert status == Spec.Disconnecting;
      ghost var before := log;
      chan.DisableAllEvent();
      chan.Close();
      if cfg.connFn {
        log := log + [Spec.ConnDown];
      }
      if cfg.closeFn {
        log := log + [Spec.CloseFn];
      }
      Spec.TeardownLiteral(cfg);
      assert log == before + Spec.TeardownCalls(cfg);
      queue := queue + seq(closes, _ => Spec.CloseTask);
      status := Spec.Disconnected;
    }

    method HandleError(closes: nat)
      requires Valid() && chan.View().Valid() && !chan.closed
      modifies this, chan
      ensures Valid() && View() == Spec.HandleError(old(View()), closes)
    {
      status := Spec.Disconnecting;
      HandleClose(closes);
    }

    /** What the kernel did not take is appended to the output buffer. */
    method BufferRemaining(remaining: seq<byte>)
      requires Valid() && chan.View().Valid() && !chan.closed
      modifies this`queue, chan, outputBuffer.Repr
      ensures Valid() && fresh(outputBuffer.Repr - old(outputBuffer.Repr))
      ensures View() == Spec.Buffered(old(View()), remaining)
    {
      if |remaining| > 0 {
        var oldLen := outputBuffer.Length();
        NoteHighWater(oldLen, oldLen + |remaining|);
        outputBuffer.Write(remaining);
        assert outputBuffer.View().unread == old(View()).out + remaining;
        if !chan.writable {
          chan.EnableWriteEvent();
        }
      }
    }

    /** Queues the callback when the buffer comes to reach the mark. */
    method NoteHighWater(oldLen: nat, newLen: nat)
      modifies this`queue
      ensures queue == old(queue) + if Spec.CrossesMark(cfg, oldLen, newLen)
                                    then [Spec.NoticeTask(Spec.HighWater(newLen))] else []
    {
      match cfg.highWaterMark {
        case Some(mark) =>
          if newLen >= mark && oldLen < mark {
            queue := queue + [Spec.NoticeTask(Spec.HighWater(newLen))];
          }
        case None =>
      }
    }

    method SendInLoop(data: seq<byte>, k: Spec.SendResult, closes: nat)
      requires Valid() && (status != Spec.Disconnected ==> chan.View().Valid() && !chan.closed)
      requires Spec.SendAllowed(data, k)
      modifies this, chan, outputBuffer.Repr
      ensures Valid() && fresh(outputBuffer.Repr - old(outputBuffer.Repr))
      ensures View() == Spec.SendInLoop(old(View()), data, k, closes)
    {
      if status == Spec.Disconnected {
        return;
      }
      var nwritten, writeError := TrySend(data, k);
      if writeError {
        HandleError(closes);
        return;
      }
      assert data[0..] == data;
      BufferRemaining(data[nwritten..]);
    }

    /** Sends at once if nothing is waiting. */
    method TrySend(data: seq<byte>, k: Spec.SendResult) returns (nwritten: nat, writeError: bool)
      requires Valid() && Spec.SendAllowed(data, k)
      modifies this`queue, this`wire, this`given
      ensures Valid() && writeError == (Spec.SendsDirectly(old(View())) && k == Spec.PeerGone)
      ensures View() == if writeError then old(View()) else Spec.Sent(old(View()), data, k)
      ensures nwritten == if Spec.SendsDirectly(old(View())) && k.Accepted? then k.n else 0
    {
      nwritten, writeError := 0, false;
      var buffered := outputBuffer.Length();
      if !chan.writable && buffered == 0 {
        nwritten, writeError := SendDirectly(data, k);
      }
      if !writeError {
        given := given + data;
      }
      assert data[..0] == [];
    }

    /** One `::send` with nothing waiting before it. */
    method SendDirectly(data: seq<byte>, k: Spec.SendResult) returns (nwritten: nat, writeError: bool)
      requires Spec.SendAllowed(data, k)
      modifies this`queue, this`wire
      ensures writeError == (k == Spec.PeerGone) && nwritten == (if k.Accepted? then k.n else 0) && nwritten <= |data|
      ensures wire == old(wire) + data[..nwritten]
      ensures queue == old(queue) + if k == Spec.Accepted(|data|) && cfg.writeCompleteFn
                                    then [Spec.NoticeTask(Spec.WriteComplete)] else []
    {
      nwritten, writeError := 0, false;
      match k {
        case Accepted(n) =>
          nwritten := n;
          wire := wire + data[..n];
          if n == |data| && cfg.writeCompleteFn {
            queue := queue + [Spec.NoticeTask(Spec.WriteComplete)];
          }
        case PeerGone => writeError := true;
        case _ =>
      }
    }

    /** The guarded send of a whole buffer: dropped unless connected, sent at once on the loop
        thread, queued as one piece from any other. */
    method Send(buf: Buffer, inLoopThread: bool, k: Spec.SendResult, closes: nat)
      requires Valid() && buf.Valid() && this !in buf.Repr && chan !in buf.Repr && buf.Repr !! outputBuffer.Repr
      requires status != Spec.Disconnected ==> chan.View().Valid() && !chan.closed
      requires Spec.SendAllowed(buf.View().unread, k)
      modifies this, chan, outputBuffer.Repr, buf
      ensures Valid() && buf.Valid() && buf.Repr == old(buf.Repr)
      ensures fresh(outputBuffer.Repr - old(outputBuffer.Repr))
      ensures var data := old(buf.View().unread);
              if old(status) != Spec.Connected then View() == old(View()) && buf.View().unread == data
              else
                && buf.View().unread == []
                && View() == if inLoopThread then Spec.SendInLoop(old(View()), data, k, closes)
                             else old(View()).(queue := old(View()).queue + [Spec.SendTask(data)])
    {
      if status != Spec.Connected {
        return;
      }
      if inLoopThread {
        var data := buf.ToSlice();
        SendInLoop(data, k, closes);
        buf.Reset();
      } else {
        var data := buf.NextAll();
        queue := queue + [Spec.SendTask(data)];
      }
    }

    method HandleRead(k: Spec.ReadResult, closes: nat)
      requires Valid() && chan.View().Valid() && !chan.closed
      modifies this, chan
      ensures Valid() && View() == Spec.HandleRead(old(View()), k, closes)
      ensures k.Data? ==> View() == old(View()).(log := old(log) + [Spec.Message(k.bytes)])
    {
      match k
      case Data(bytes) => log := log + [Spec.Message(bytes)];
      case Eof =>
        if cfg.kind == Spec.Outgoing {
          status := Spec.Disconnecting;
          HandleClose(closes);
        } else {
          chan.DisableReadEvent();
          status := Spec.Disconnecting;
          HandleClose(closes);
        }
      case ReadRetry =>
      case ReadError => HandleError(closes);
    }

    method HandleWrite(k: Spec.SendResult, closes: nat)
      requires Valid() && chan.View().Valid() && !chan.closed && chan.writable
      requires k.Accepted? ==> 0 < k.n <= |outputBuffer.View().unread|
      modifies this, chan, outputBuffer
      ensures Valid() && View() == Spec.HandleWrite(old(View()), k, closes)
      ensures k.Retry? ==> View() == old(View())
      ensures k.Accepted? ==>
                var out := old(View()).out;
                && wire == old(wire) + out[..k.n] && View().out == out[k.n..] && chan.writable == (k.n < |out|)
                && queue == old(queue) + (if k.n == |out| && cfg.writeCompleteFn
                                          then [Spec.NoticeTask(Spec.WriteComplete)] else [])
    {
      match k
      case Accepted(n) =>
        var sent := outputBuffer.Next(n);
        wire := wire + sent;
        var left := outputBuffer.Length();
        if left == 0 {
          chan.DisableWriteEvent();
          if cfg.writeCompleteFn {
            queue := queue + [Spec.NoticeTask(Spec.WriteComplete)];
          }
        }
      case Retry =>
      case _ => HandleError(closes);
    }
  }
}
