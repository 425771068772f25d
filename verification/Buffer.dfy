/** The growable byte queue behind every connection.

    `BufferView` is the observable state: how many bytes may be prepended, the unread
    bytes, how many bytes may be appended without growing. `Step` says what each
    operation does to it; the methods of `Buffer` are proved against `Step`, and the
    lemmas at the end prove what a whole run of operations means. */
module ByteBuffer {
  import opened Bytes
  import opened Sequences
  import opened Wrappers

  const CHEAP_PREPEND_SIZE: nat := 8
  const INITIAL_SIZE: nat := 1024
  const EXTRA_SIZE: nat := 65536

  datatype BufferView = BufferView(front: nat, unread: seq<byte>, back: nat, reserved: nat) {
    predicate Valid() {
      reserved <= Capacity()
    }

    function Capacity(): nat {
      front + |unread| + back
    }
  }

  datatype Op =
    | Write(d: seq<byte>)
    | Skip(n: nat)
    | Truncate(n: nat)
    | Reserve(n: nat)
    | EnsureWritable(n: nat)
    | Prepend(d: seq<byte>)
    | Unwrite(n: nat)
    | Shrink(n: nat)
    | ReadFromFd(d: seq<byte>)

  /** What the program's own assertions demand before each operation; for a scatter read,
      what the kernel guarantees about the number of bytes it returns. */
  predicate Permitted(v: BufferView, op: Op) {
    match op
    case Prepend(d) => |d| <= v.front
    case Unwrite(n) => n <= |v.unread|
    case ReadFromFd(d) => |d| <= v.back + (if v.back < EXTRA_SIZE then EXTRA_SIZE else 0)
    case _ => true
  }

  function ResetView(v: BufferView): BufferView
    requires v.Valid()
  {
    BufferView(v.reserved, [], v.Capacity() - v.reserved, v.reserved)
  }

  /** The unread bytes right after the reserved prefix, in storage of the given size. */
  function Relocated(v: BufferView, capacity: nat): BufferView
    requires v.reserved + |v.unread| <= capacity
  {
    v.(front := v.reserved, back := capacity - v.reserved - |v.unread|)
  }

  /** Either reallocate to twice the capacity plus the request, or slide the unread
      bytes back to the reserved prefix. */
  function GrowView(v: BufferView, len: nat): BufferView
    requires v.Valid()
    requires v.back < len || v.back + v.front < len + v.reserved
  {
    if v.back + v.front < len + v.reserved then Relocated(v, 2 * v.Capacity() + len)
    else Relocated(v, v.Capacity())
  }

  function Ensured(v: BufferView, len: nat): (w: BufferView)
    requires v.Valid()
    ensures w.Valid() && w.back >= len && w.unread == v.unread && w.reserved == v.reserved
  {
    if v.back < len then GrowView(v, len) else v
  }

  function Appended(v: BufferView, d: seq<byte>): BufferView
    requires v.back >= |d|
  {
    v.(unread := v.unread + d, back := v.back - |d|)
  }

  function Step(v: BufferView, op: Op): BufferView
    requires v.Valid() && Permitted(v, op)
  {
    match op
    case Write(d) => Appended(Ensured(v, |d|), d)
    case Skip(n) => if n < |v.unread| then v.(front := v.front + n, unread := v.unread[n..]) else ResetView(v)
    case Truncate(n) =>
      if n == 0 then ResetView(v)
      else if |v.unread| > n then v.(unread := v.unread[..n], back := v.back + |v.unread| - n)
      else v
    case Reserve(n) => if v.Capacity() >= n + v.reserved then v else GrowView(v, n + v.reserved)
    case EnsureWritable(n) => Ensured(v, n)
    case Prepend(d) => v.(front := v.front - |d|, unread := d + v.unread)
    case Unwrite(n) => v.(unread := v.unread[..|v.unread| - n], back := v.back + n)
    case Shrink(n) => BufferView(CHEAP_PREPEND_SIZE, v.unread, n, CHEAP_PREPEND_SIZE)
    case ReadFromFd(d) =>
      if |d| <= v.back then Appended(v, d)
      else Appended(Ensured(Appended(v, d[..v.back]), |d| - v.back), d[v.back..])
  }

  /** Truncation by an `int`; none when the write index ends below the read index. */
  function CutTo(v: BufferView, len: int): Option<BufferView>
    requires v.Valid()
  {
    if len >= 0 then Some(Step(v, Op.Truncate(len)))
    else if v.front + len >= 0 then None
    else Some(v)
  }

  lemma CutSlice(b: seq<byte>, i: nat, k: nat, j: nat)
    requires i <= k <= j <= |b|
    ensures b[i..k] == b[i..j][..k - i] && b[k..j] == b[i..j][k - i..]
    ensures b[i..k] + b[k..j] == b[i..j]
  {
  }

  class Buffer {
    var buffer: array<byte>
    var readIndex: nat
    var writeIndex: nat
    var reservedPrependSize: nat
    ghost var Repr: set<object>

    ghost predicate Valid()
      reads this, Repr
      ensures Valid() ==> this in Repr
    {
      && Repr == {this, buffer}
      && readIndex <= writeIndex <= buffer.Length
      && reservedPrependSize <= buffer.Length
    }

    ghost function View(): (v: BufferView)
      requires Valid()
      reads this, Repr
      ensures v.Valid()
    {
      BufferView(readIndex, buffer[readIndex..writeIndex], buffer.Length - writeIndex, reservedPrependSize)
    }

    constructor (initialSize: nat, reservedPrependSize: nat)
      ensures Valid() && fresh(Repr)
      ensures View() == BufferView(reservedPrependSize, [], initialSize, reservedPrependSize)
    {
      buffer := new byte[reservedPrependSize + initialSize];
      readIndex, writeIndex := reservedPrependSize, reservedPrependSize;
      this.reservedPrependSize := reservedPrependSize;
      new;
      Repr := {this, buffer};
    }

    method Length() returns (n: nat)
      requires Valid()
      ensures n == |View().unread|
    {
      n := writeIndex - readIndex;
    }

    method WritableBytes() returns (n: nat)
      requires Valid()
      ensures n == View().back
    {
      n := buffer.Length - writeIndex;
    }

    /** The unread bytes, copied out. */
    method ToSlice() returns (s: seq<byte>)
      requires Valid()
      ensures s == View().unread
    {
      s := buffer[readIndex..writeIndex];
    }

    method Swap(rhs: Buffer)
      requires Valid() && rhs.Valid()
      modifies this, rhs
      ensures Valid() && rhs.Valid()
      ensures Repr == {this, old(rhs.buffer)} && rhs.Repr == {rhs, old(buffer)}
      ensures View() == old(rhs.View()) && rhs.View() == old(View())
    {
      buffer, rhs.buffer := rhs.buffer, buffer;
      readIndex, rhs.readIndex := rhs.readIndex, readIndex;
      writeIndex, rhs.writeIndex := rhs.writeIndex, writeIndex;
      reservedPrependSize, rhs.reservedPrependSize := rhs.reservedPrependSize, reservedPrependSize;
      Repr, rhs.Repr := {this, buffer}, {rhs, rhs.buffer};
    }

    method Skip(len: nat)
      requires Valid()
      modifies this`readIndex, this`writeIndex
      ensures Valid() && Repr == old(Repr)
      ensures View() == Step(old(View()), Op.Skip(len))
      // A partial skip leaves the skipped bytes in place, which is what UnreadBytes relies on.
      ensures len < |old(View()).unread| ==> readIndex == old(readIndex) + len && writeIndex == old(writeIndex)
    {
      var n := Length();
      if len < n {
        readIndex := readIndex + len;
      } else {
        Reset();
      }
    }

    method Truncate(n: nat)
      requires Valid()
      modifies this`readIndex, this`writeIndex
      ensures Valid() && Repr == old(Repr)
      ensures View() == Step(old(View()), Op.Truncate(n))
    {
      if n == 0 {
        readIndex := reservedPrependSize;
        writeIndex := reservedPrependSize;
      } else if writeIndex > readIndex + n {
        writeIndex := readIndex + n;
      }
    }

    /** `Truncate` called with an `int`, which becomes an unsigned size: a negative length is
        a huge one, and the sum with the read index may wrap around. Then the write index ends
        below the read index. */
    method TruncateInt(len: int)
      requires Valid() && len < 0x8000_0000
      modifies this`readIndex, this`writeIndex
      ensures Repr == old(Repr)
      ensures match CutTo(old(View()), len)
              case Some(v) => Valid() && View() == v
              case None => !Valid() && writeIndex < readIndex
    {
      if len >= 0 {
        Truncate(len);
      } else if readIndex + len >= 0 {
        writeIndex := readIndex + len;
      }
    }

    method Reset()
      requires Valid()
      modifies this`readIndex, this`writeIndex
      ensures Valid() && Repr == old(Repr)
      ensures View() == ResetView(old(View()))
    {
      Truncate(0);
    }

    method Reserve(len: nat)
      requires Valid()
      modifies Repr
      ensures Valid() && fresh(Repr - old(Repr))
      ensures View() == Step(old(View()), Op.Reserve(len))
    {
      if buffer.Length >= len + reservedPrependSize {
        return;
      }
      Grow(len + reservedPrependSize);
    }

    method EnsureWritableBytes(len: nat)
      requires Valid()
      modifies Repr
      ensures Valid() && fresh(Repr - old(Repr))
      ensures View() == Step(old(View()), EnsureWritable(len))
    {
      var writable := WritableBytes();
      if writable < len {
        Grow(len);
      }
      assert buffer.Length - writeIndex >= len;
    }

    method Grow(len: nat)
      requires Valid()
      requires View().back < len || View().back + View().front < len + View().reserved
      modifies Repr
      ensures Valid() && fresh(Repr - old(Repr))
      ensures View() == GrowView(old(View()), len)
    {
      if buffer.Length - writeIndex + readIndex < len + reservedPrependSize {
        Reallocate(2 * buffer.Length + len);
      } else {
        assert reservedPrependSize < readIndex;
        Compact();
        assert buffer.Length - writeIndex >= len;
      }
    }

    /** New storage of the given size, the unread bytes after the reserved prefix. */
    method Reallocate(n: nat)
      requires Valid() && reservedPrependSize + |View().unread| <= n
      modifies this
      ensures Valid() && fresh(Repr - old(Repr))
      ensures View() == Relocated(old(View()), n)
    {
      ghost var unread := View().unread;
      var m := writeIndex - readIndex;
      var d := new byte[n];
      forall i | 0 <= i < m {
        d[reservedPrependSize + i] := buffer[readIndex + i];
      }
      assert d[reservedPrependSize..reservedPrependSize + m] == unread;
      writeIndex := m + reservedPrependSize;
      readIndex := reservedPrependSize;
      buffer := d;
      Repr := {this, buffer};
    }

    /** The unread bytes moved down to the reserved prefix, within the same storage. */
    method Compact()
      requires Valid() && reservedPrependSize <= readIndex
      modifies this, buffer
      ensures Valid() && Repr == old(Repr) && buffer == old(buffer)
      ensures View() == Relocated(old(View()), old(View()).Capacity())
    {
      ghost var unread := View().unread;
      var readable := writeIndex - readIndex;
      forall i | 0 <= i < readable {
        buffer[reservedPrependSize + i] := buffer[readIndex + i];
      }
      assert buffer[reservedPrependSize..reservedPrependSize + readable] == unread;
      readIndex := reservedPrependSize;
      writeIndex := readIndex + readable;
    }

    method Write(d: seq<byte>)
      requires Valid()
      modifies Repr
      ensures Valid() && fresh(Repr - old(Repr))
      ensures View() == Step(old(View()), Op.Write(d))
    {
      EnsureWritableBytes(|d|);
      CopyIn(d);
    }

    /** Appends where there is room. */
    method CopyIn(d: seq<byte>)
      requires Valid() && |d| <= buffer.Length - writeIndex
      modifies this`writeIndex, buffer
      ensures Valid()
      ensures View() == Appended(old(View()), d)
    {
      ghost var unread := View().unread;
      forall i | 0 <= i < |d| {
        buffer[writeIndex + i] := d[i];
      }
      assert buffer[readIndex..writeIndex] == unread && buffer[writeIndex..writeIndex + |d|] == d;
      CutSlice(buffer[..], readIndex, writeIndex, writeIndex + |d|);
      writeIndex := writeIndex + |d|;
    }

    /** Append of a 64, 32, 16 or 8 bit integer in network order. */
    method AppendInt(x: int, width: nat)
      requires Valid()
      modifies Repr
      ensures Valid() && fresh(Repr - old(Repr))
      ensures View().unread == old(View()).unread + BigEndian(Unsigned(x, width), width)
    {
      Write(BigEndian(Unsigned(x, width), width));
    }

    method PeekInt(width: nat) returns (x: int)
      requires Valid() && width <= |View().unread|
      ensures x == Signed(FromBigEndian(View().unread[..width]), width)
    {
      assert View().unread[..width] == buffer[readIndex..readIndex + width];
      x := Signed(FromBigEndian(buffer[readIndex..readIndex + width]), width);
    }

    method ReadInt(width: nat) returns (x: int)
      requires Valid() && width <= |View().unread|
      modifies this`readIndex, this`writeIndex
      ensures Valid() && Repr == old(Repr)
      ensures x == Signed(FromBigEndian(old(View()).unread[..width]), width)
      ensures View() == Step(old(View()), Op.Skip(width))
    {
      x := PeekInt(width);
      Skip(width);
    }

    method Prepend(d: seq<byte>)
      requires Valid() && |d| <= View().front
      modifies Repr
      ensures Valid() && Repr == old(Repr)
      ensures View() == Step(old(View()), Op.Prepend(d))
    {
      ghost var unread := View().unread;
      readIndex := readIndex - |d|;
      forall i | 0 <= i < |d| {
        buffer[readIndex + i] := d[i];
      }
      assert buffer[readIndex..writeIndex] == d + unread;
    }

    method UnwriteBytes(n: nat)
      requires Valid() && n <= |View().unread|
      modifies this`readIndex, this`writeIndex
      ensures Valid() && Repr == old(Repr)
      ensures View() == Step(old(View()), Unwrite(n))
    {
      writeIndex := writeIndex - n;
      assert View().unread == old(View()).unread[..|old(View()).unread| - n];
    }

    /** Overwrites bytes inside the unread region, through the pointer `data()` returns. */
    method Patch(offset: nat, d: seq<byte>)
      requires Valid() && offset + |d| <= |View().unread|
      modifies Repr
      ensures Valid() && Repr == old(Repr)
      ensures View() == old(View()).(unread :=
                old(View()).unread[..offset] + d + old(View()).unread[offset + |d|..])
    {
      ghost var u := View().unread;
      forall i | 0 <= i < |d| {
        buffer[readIndex + offset + i] := d[i];
      }
      assert buffer[readIndex..writeIndex] == u[..offset] + d + u[offset + |d|..];
    }

    method Next(len: nat) returns (s: seq<byte>)
      requires Valid()
      modifies this`readIndex, this`writeIndex
      ensures Valid() && Repr == old(Repr)
      ensures s == if len < |old(View()).unread| then old(View()).unread[..len] else old(View()).unread
      ensures View() == Step(old(View()), Op.Skip(len))
      ensures s + View().unread == old(View()).unread
    {
      var n := Length();
      if len < n {
        CutSlice(buffer[..], readIndex, readIndex + len, writeIndex);
        s := buffer[readIndex..readIndex + len];
        readIndex := readIndex + len;
      } else {
        s := NextAll();
        EmptyRight(s);
      }
    }

    method NextAll() returns (s: seq<byte>)
      requires Valid()
      modifies this`readIndex, this`writeIndex
      ensures Valid() && Repr == old(Repr)
      ensures s == old(View()).unread && View() == ResetView(old(View()))
    {
      s := ToSlice();
      Reset();
    }

    /** Steps the reading index back over bytes that were skipped. */
    method UnreadBytes(n: nat)
      requires Valid() && n < readIndex
      modifies this`readIndex, this`writeIndex
      ensures Valid() && Repr == old(Repr)
      ensures View() == old(View()).(front := old(View()).front - n,
                unread := buffer[old(readIndex) - n..old(readIndex)] + old(View()).unread)
    {
      readIndex := readIndex - n;
      assert View().unread == buffer[old(readIndex) - n..old(readIndex)] + old(View()).unread;
    }

    method Shrink(reserve: nat)
      requires Valid()
      modifies this
      ensures Valid() && fresh(Repr - old(Repr))
      ensures View() == Step(old(View()), Op.Shrink(reserve))
    {
      var n := Length();
      var other := new Buffer(n + reserve, CHEAP_PREPEND_SIZE);
      var s := ToSlice();
      other.Write(s);
      assert other.View() == BufferView(CHEAP_PREPEND_SIZE, [] + s, reserve, CHEAP_PREPEND_SIZE);
      Swap(other);
    }

    /** One `readv` into the writable space and a 64 KiB overflow area. `received` is
        what the kernel delivers; an error leaves the buffer untouched. */
    method ReadFromFD(received: seq<byte>, failed: bool) returns (n: int)
      requires Valid() && Permitted(View(), ReadFromFd(received))
      modifies Repr
      ensures Valid() && fresh(Repr - old(Repr))
      ensures failed ==> n == -1 && View() == old(View())
      ensures !failed ==> n == |received| && View() == Step(old(View()), ReadFromFd(received))
    {
      if failed {
        return -1;
      }
      var writable := WritableBytes();
      n := |received|;
      if n <= writable {
        CopyIn(received);
      } else {
        CopyIn(received[..writable]);
        assert received == received[..writable] + received[writable..];
        Write(received[writable..]);
      }
    }
  }

  /** Skipping part of the unread bytes and unreading them restores the buffer. A skip of
      everything resets the indices instead, so only a proper prefix can be unread. */
  method SkipThenUnread(b: Buffer, n: nat)
    requires b.Valid() && n < |b.View().unread| && 0 < b.readIndex
    modifies b`readIndex, b`writeIndex
    ensures b.Valid() && b.View() == old(b.View())
  {
    CutSlice(b.buffer[..], b.readIndex, b.readIndex + n, b.writeIndex);
    b.Skip(n);
    b.UnreadBytes(n);
  }

  /** The intended meaning of an operation on a plain queue of bytes. */
  function Meaning(s: seq<byte>, op: Op): seq<byte> {
    match op
    case Write(d) => s + d
    case Skip(n) => if n <= |s| then s[n..] else []
    case Truncate(n) => if n <= |s| then s[..n] else s
    case Reserve(_) => s
    case EnsureWritable(_) => s
    case Prepend(d) => d + s
    case Unwrite(n) => if n <= |s| then s[..|s| - n] else s
    case Shrink(_) => s
    case ReadFromFd(d) => s + d
  }

  function MeaningOf(s: seq<byte>, ops: seq<Op>): seq<byte>
    decreases |ops|
  {
    if ops == [] then s else MeaningOf(Meaning(s, ops[0]), ops[1..])
  }

  ghost predicate PermittedRun(v: BufferView, ops: seq<Op>)
    requires v.Valid()
    decreases |ops|
  {
    ops == [] || (Permitted(v, ops[0]) && Step(v, ops[0]).Valid() && PermittedRun(Step(v, ops[0]), ops[1..]))
  }

  function Run(v: BufferView, ops: seq<Op>): BufferView
    requires v.Valid() && PermittedRun(v, ops)
    decreases |ops|
  {
    if ops == [] then v else Run(Step(v, ops[0]), ops[1..])
  }

  lemma StepRefines(v: BufferView, op: Op)
    requires v.Valid() && Permitted(v, op)
    ensures Step(v, op).Valid()
    ensures Step(v, op).unread == Meaning(v.unread, op)
    ensures v.front >= v.reserved && !op.Prepend? ==> Step(v, op).front >= Step(v, op).reserved
  {
    if op.ReadFromFd? && |op.d| > v.back {
      assert v.unread + op.d[..v.back] + op.d[v.back..] == v.unread + op.d;
    }
  }

  /** Every permitted run acts on the unread bytes exactly as the same run on a byte queue,
      whatever reallocations and compactions happen underneath, and as long as nothing is
      prepended the reserved prefix stays available for a prepend. */
  lemma {:induction false} RunRefinesQueue(v: BufferView, ops: seq<Op>)
    requires v.Valid() && PermittedRun(v, ops)
    ensures Run(v, ops).Valid() && Run(v, ops).unread == MeaningOf(v.unread, ops)
    ensures v.front >= v.reserved && (forall i :: 0 <= i < |ops| ==> !ops[i].Prepend?)
            ==> Run(v, ops).front >= Run(v, ops).reserved
    decreases |ops|
  {
    if ops != [] {
      StepRefines(v, ops[0]);
      RunRefinesQueue(Step(v, ops[0]), ops[1..]);
    }
  }

  /** How many bytes the operation asks room for. */
  function Request(op: Op): nat {
    match op
    case Write(d) => |d|
    case Reserve(n) => n
    case EnsureWritable(n) => n
    case ReadFromFd(d) => |d|
    case _ => 0
  }

  predicate AsksForRoom(op: Op) {
    op.Write? || op.Reserve? || op.EnsureWritable? || op.ReadFromFd?
  }

  /** What an operation does to the storage. Only a request for room may change its size, and
      then it at most doubles, with the request and the reserved prefix on top; it stays when
      the room is there, at the end or together with what was consumed in front. Consuming
      everything gives back all but the reserved prefix. */
  lemma StorageLaws(v: BufferView, op: Op)
    requires v.Valid() && v.reserved <= v.front && Permitted(v, op)
    ensures var w := Step(v, op);
            && (!op.Shrink? ==> w.reserved == v.reserved && w.Capacity() >= v.Capacity())
            && (!op.Shrink? && !AsksForRoom(op) ==> w.Capacity() == v.Capacity())
            && (AsksForRoom(op) ==> w.Capacity() <= 2 * v.Capacity() + Request(op) + v.reserved)
            && (AsksForRoom(op) && Request(op) <= v.back + v.front - v.reserved ==> w.Capacity() == v.Capacity())
            && (AsksForRoom(op) && Request(op) <= v.back ==> w.front == v.front)
            && (op.EnsureWritable? ==> w.back >= op.n)
            && (op.Reserve? ==> w.Capacity() >= op.n + v.reserved)
            && (op.Shrink? ==> w.front == w.reserved == 8 && w.back == op.n)
            && (op.Skip? && w.unread == [] && v.unread != [] ==> w.front == v.reserved)
            && (op == Op.Truncate(0) ==> w.front == v.reserved)
  {
    if op.ReadFromFd? && |op.d| > v.back {
      ReadRoom(v, op.d);
    }
  }

  lemma ReadRoom(v: BufferView, d: seq<byte>)
    requires v.Valid() && v.reserved <= v.front && |d| > v.back && Permitted(v, ReadFromFd(d))
    ensures var w := Step(v, ReadFromFd(d));
            && w.reserved == v.reserved && v.Capacity() <= w.Capacity() <= 2 * v.Capacity() + |d| + v.reserved
            && (|d| <= v.back + v.front - v.reserved ==> w.Capacity() == v.Capacity())
  {
    var u := Appended(v, d[..v.back]);
    assert u.Capacity() == v.Capacity() && u.back == 0;
    var e := Ensured(u, |d| - v.back);
    assert |e.unread + d[v.back..]| == |e.unread| + |d| - v.back;
    assert Step(v, ReadFromFd(d)).Capacity() == e.Capacity();
  }

  /** An operation is refused only where the program asserts, so a run that never
      prepends, unwrites or reads from a descriptor is always permitted. */
  lemma {:induction false} QueueRunsAreAlwaysPermitted(v: BufferView, ops: seq<Op>)
    requires v.Valid()
    requires forall i :: 0 <= i < |ops| ==> !ops[i].Prepend? && !ops[i].Unwrite? && !ops[i].ReadFromFd?
    ensures PermittedRun(v, ops)
    decreases |ops|
  {
    if ops != [] {
      StepRefines(v, ops[0]);
      QueueRunsAreAlwaysPermitted(Step(v, ops[0]), ops[1..]);
    }
  }
}
