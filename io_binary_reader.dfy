/** The buffered cursor io/BinaryReader.java: a FileChannel read through an
    8 KiB ByteBuffer, big-endian until told otherwise.

    The channel and the buffer are both modelled: `channelPos` is the
    channel's position and `buffer` the bytes between the buffer's position
    and its limit. What the reader has logically consumed is
    `channelPos - |buffer|`, which position() reports; every read is stated
    against the unbuffered reads of the same bytes, so the buffering is
    proved invisible. */
module IoBinaryReader {
  import opened Results
  import opened Bytes
  import IoEnhancedBinaryReader

  /** The size of the direct buffer. */
  const Capacity := 8192

  /** What one channel.read fills into `room` free bytes of the buffer: the
      next bytes of the file, as many as fit, none once past its end. */
  function ChannelRead(data: seq<byte>, channelPos: nat, room: nat): (r: seq<byte>)
    ensures |r| <= room
    ensures channelPos < |data| && room > 0 ==> |r| > 0
    ensures channelPos + |r| <= |data| || |r| == 0
    ensures channelPos <= |data| ==> |r| == if |data| - channelPos < room then |data| - channelPos else room
    ensures |r| > 0 ==> r == data[channelPos..channelPos + |r|]
  {
    if channelPos >= |data| then []
    else if |data| - channelPos < room then data[channelPos..]
    else data[channelPos..channelPos + room]
  }

  /** A refill appends the next bytes of the file to the bytes that were
      buffered just before the channel position. */
  lemma Refilled(data: seq<byte>, channelPos: nat, buffer: seq<byte>, more: seq<byte>, n: nat)
    requires |buffer| <= channelPos && (|buffer| > 0 ==> channelPos <= |data| && buffer == data[channelPos - |buffer|..channelPos])
    requires |buffer| < n <= Capacity && more == ChannelRead(data, channelPos, Capacity - |buffer|)
    ensures var b := buffer + more;
            |b| <= Capacity && |b| <= channelPos + |more| &&
            (|b| > 0 ==> channelPos + |more| <= |data| && b == data[channelPos + |more| - |b|..channelPos + |more|])
    ensures |buffer + more| >= n <==> channelPos - |buffer| + n <= |data|
  {
    if |more| > 0 {
      assert buffer + more == data[channelPos - |buffer|..channelPos + |more|];
    }
  }

  class BinaryReader {
    const data: seq<byte>
    var channelPos: nat
    var buffer: seq<byte>
    var order: ByteOrder

    /** The buffered bytes are the file's bytes just before the channel
        position, and never more than the buffer holds. */
    ghost predicate Valid()
      reads this
    {
      |buffer| <= Capacity && |buffer| <= channelPos &&
      (|buffer| > 0 ==> channelPos <= |data| && buffer == data[channelPos - |buffer|..channelPos])
    }

    /** The logical position: channel position minus what is still buffered. */
    function Position(): nat
      reads this
      requires Valid()
    {
      channelPos - |buffer|
    }

    /** Opens the file: an empty buffer, big-endian. */
    constructor(data: seq<byte>)
      ensures Valid() && this.data == data && Position() == 0 && order == BigEndian
    {
      this.data := data;
      channelPos := 0;
      buffer := [];
      order := BigEndian;
    }

    method SetByteOrder(order: ByteOrder)
      requires Valid()
      modifies this
      ensures Valid() && this.order == order && Position() == old(Position())
    {
      this.order := order;
    }

    /** ensureAvailable(n): tops the buffer up once when fewer than `n` bytes
        are buffered, and fails when still too few are. Reading never moves
        the logical position. */
    method EnsureAvailable(n: nat) returns (r: Result<()>)
      requires Valid() && 0 < n <= Capacity
      modifies this
      ensures Valid() && order == old(order) && Position() == old(Position())
      ensures r.Ok? <==> Position() + n <= |data|
      ensures r.Ok? ==> n <= |buffer|
      ensures r.Fail? ==> r == Fail(IO(EndOfFile))
    {
      if |buffer| < n {
        var more := ChannelRead(data, channelPos, Capacity - |buffer|);
        Refilled(data, channelPos, buffer, more, n);
        buffer := buffer + more;
        channelPos := channelPos + |more|;
        if |buffer| < n {
          return Fail(IO(EndOfFile));
        }
      }
      return Ok(());
    }

    /** ensureAvailable(n) and a buffer get of `n` bytes. */
    method Get(n: nat) returns (r: Result<seq<byte>>)
      requires Valid() && 0 < n <= Capacity
      modifies this
      ensures Valid() && order == old(order)
      ensures Step(r, Position()) == IoEnhancedBinaryReader.FixedAt(data, old(Position()), n)
    {
      var _ :- EnsureAvailable(n);
      ghost var p := Position();
      assert buffer[..n] == data[p..p + n];
      r := Ok(buffer[..n]);
      buffer := buffer[n..];
    }

    /** readByte: one signed byte. */
    method ReadByte() returns (r: Result<int>)
      requires Valid()
      modifies this
      ensures Valid() && order == old(order)
      ensures Step(r, Position()) == IoEnhancedBinaryReader.ByteAt(data, old(Position()))
    {
      var b :- Get(1);
      return Ok(ToInt8(b[0]));
    }

    /** readUInt16: despite its name, the signed short getShort returns. */
    method ReadUInt16() returns (r: Result<int16>)
      requires Valid()
      modifies this
      ensures Valid() && order == old(order)
      ensures Step(r, Position()) == IoEnhancedBinaryReader.Int16At(order, data, old(Position()))
    {
      var b :- Get(2);
      return Ok(ToInt16(Unsigned(order, b)));
    }

    /** readUInt32: the same getInt as readInt32. */
    method ReadUInt32() returns (r: Result<int32>)
      requires Valid()
      modifies this
      ensures Valid() && order == old(order)
      ensures Step(r, Position()) == IoEnhancedBinaryReader.Int32At(order, data, old(Position()))
    {
      var b :- Get(4);
      return Ok(ToInt32(Unsigned(order, b)));
    }

    method ReadInt32() returns (r: Result<int32>)
      requires Valid()
      modifies this
      ensures Valid() && order == old(order)
      ensures Step(r, Position()) == IoEnhancedBinaryReader.Int32At(order, data, old(Position()))
    {
      var b :- Get(4);
      return Ok(ToInt32(Unsigned(order, b)));
    }

    method ReadInt64() returns (r: Result<int64>)
      requires Valid()
      modifies this
      ensures Valid() && order == old(order)
      ensures Step(r, Position()) == IoEnhancedBinaryReader.Int64At(order, data, old(Position()))
    {
      var b :- Get(8);
      LittleEndianIsReversedBigEndian(b);
      return Ok(ToInt64(Unsigned(order, b)));
    }

    /** readFloat64: the bits of getDouble. */
    method ReadFloat64() returns (r: Result<Float64Bits>)
      requires Valid()
      modifies this
      ensures Valid() && order == old(order)
      ensures Step(r, Position()) == IoEnhancedBinaryReader.Float64At(order, data, old(Position()))
    {
      var b :- Get(8);
      LittleEndianIsReversedBigEndian(b);
      return Ok(Float64Bits(Unsigned(order, b)));
    }

    /** readString(length): `length` readByte calls into a new array; the
        bytes are kept undecoded. */
    method ReadString(length: int) returns (r: Result<seq<byte>>)
      requires Valid()
      modifies this
      ensures Valid() && order == old(order)
      ensures Step(r, Position()) == IoEnhancedBinaryReader.StringAt(data, old(Position()), length)
    {
      if length < 0 {
        return Fail(NegativeArraySize(length));
      }
      var p0 := Position();
      var bytes: seq<byte> := [];
      for i := 0 to length
        invariant Valid() && order == old(order) && Position() == p0 + i
        invariant i > 0 ==> p0 + i <= |data| && bytes == data[p0..p0 + i]
        invariant |bytes| == i
      {
        var b :- ReadByte();
        bytes := bytes + [(b % 0x100) as byte];
      }
      return Ok(bytes);
    }

    /** skip(n): consumes the buffered bytes, refilling a cleared buffer while
        bytes remain to skip. A count that is not positive skips nothing.
        Past the end of the file the loop would spin forever, so the bytes
        to skip must exist. */
    method Skip(bytes: int32)
      requires Valid() && (bytes <= 0 || Position() + bytes <= |data|)
      modifies this
      ensures Valid() && order == old(order)
      ensures Position() == old(Position()) + if bytes > 0 then bytes else 0
    {
      var left := bytes;
      while left > 0
        invariant Valid() && order == old(order)
        invariant left > 0 ==> Position() + left <= |data|
        invariant Position() + (if left > 0 then left else 0) == old(Position()) + (if bytes > 0 then bytes else 0)
        decreases left, if |buffer| == 0 then 1 else 0
      {
        var toSkip := if left < |buffer| then left else |buffer|;
        buffer := buffer[toSkip..];
        left := left - toSkip;
        if left > 0 {
          buffer := ChannelRead(data, channelPos, Capacity);
          channelPos := channelPos + |buffer|;
        }
      }
    }

    /** skip(n) as it was evidently meant to behave: the same loop, which
        stops with an end of file when a refill brings nothing, as every
        read of this reader does. A count that is not positive skips
        nothing. */
    method SkipOrEndOfFile(bytes: int32) returns (r: Result<()>)
      requires Valid()
      modifies this
      ensures Valid() && order == old(order)
      ensures r.Ok? <==> bytes <= 0 || old(Position()) + bytes <= |data|
      ensures r.Ok? ==> Position() == old(Position()) + if bytes > 0 then bytes else 0
      ensures r.Fail? ==> r == Fail(IO(EndOfFile)) &&
                          Position() == if old(Position()) <= |data| then |data| else old(Position())
    {
      ghost var start, end := Position(), Position() + if bytes > 0 then bytes else 0;
      var left := bytes;
      while left > 0
        invariant Valid() && order == old(order)
        invariant start <= |data| ==> channelPos <= |data|
        invariant start > |data| ==> channelPos == start && buffer == []
        invariant Position() + (if left > 0 then left else 0) == end
        decreases left, if |buffer| == 0 then 1 else 0
      {
        var toSkip := if left < |buffer| then left else |buffer|;
        buffer := buffer[toSkip..];
        left := left - toSkip;
        if left > 0 {
          buffer := ChannelRead(data, channelPos, Capacity);
          channelPos := channelPos + |buffer|;
          if |buffer| == 0 {
            return Fail(IO(EndOfFile));
          }
        }
      }
      return Ok(());
    }

    /** position(): the channel position less what is still buffered. */
    method GetPosition() returns (p: int)
      requires Valid()
      ensures p == Position()
    {
      p := channelPos - |buffer|;
    }

    /** seek(position): moves the channel and empties the buffer; a negative
        position is refused by the channel with IllegalArgumentException. A
        position past the end is accepted, and every read from there fails. */
    method Seek(position: int64) returns (r: Result<()>)
      requires Valid()
      modifies this
      ensures Valid() && order == old(order)
      ensures r.Ok? <==> position >= 0
      ensures r.Ok? ==> Position() == position
      ensures r.Fail? ==> r == Fail(IllegalArgument) && channelPos == old(channelPos) && buffer == old(buffer)
    {
      if position < 0 {
        return Fail(IllegalArgument);
      }
      channelPos := position;
      buffer := [];
      return Ok(());
    }
  }

  /** One pass of skip's loop as written, on the bytes still to skip, the
      buffered bytes and the channel position: skip what is buffered, then,
      while bytes remain, clear the buffer and refill it from the channel. */
  function SkipPass(data: seq<byte>, left: int, buffer: seq<byte>, channelPos: nat): (r: (int, seq<byte>, nat))
    requires left > 0
    ensures 0 <= r.0 <= left && (r.0 < left || |buffer| == 0)
    ensures r.2 - |r.1| + r.0 == channelPos - |buffer| + left
  {
    var toSkip := if left < |buffer| then left else |buffer|;
    var left' := left - toSkip;
    if left' > 0 then
      var more := ChannelRead(data, channelPos, Capacity);
      (left', more, channelPos + |more|)
    else
      (left', buffer[toSkip..], channelPos)
  }

  /** `k` passes of skip's loop, stopping early once nothing is left. */
  function SkipPasses(data: seq<byte>, k: nat, left: int, buffer: seq<byte>, channelPos: nat): (r: (int, seq<byte>, nat))
    ensures r.2 - |r.1| + r.0 == channelPos - |buffer| + left
    ensures left > 0 ==> r.0 >= 0
  {
    if k == 0 || left <= 0 then (left, buffer, channelPos)
    else
      var (left', buffer', channelPos') := SkipPass(data, left, buffer, channelPos);
      SkipPasses(data, k - 1, left', buffer', channelPos')
  }

  /** skip as written never returns when the bytes to skip run past the end
      of the file: once the file is exhausted a refill brings nothing, the
      count stays positive, and after any number of passes the loop
      condition still holds. */
  lemma {:induction false} SkipNeverEndsPastEnd(data: seq<byte>, k: nat, left: int, buffer: seq<byte>, channelPos: nat)
    requires |buffer| <= channelPos && (|buffer| > 0 ==> channelPos <= |data|)
    requires left > 0 && channelPos - |buffer| + left > |data|
    ensures SkipPasses(data, k, left, buffer, channelPos).0 > 0
  {
    if k > 0 {
      assert left > |buffer| || |buffer| == 0;
      var (left', buffer', channelPos') := SkipPass(data, left, buffer, channelPos);
      assert left' == left - |buffer| && |buffer'| + channelPos == channelPos';
      SkipNeverEndsPastEnd(data, k - 1, left', buffer', channelPos');
    }
  }

  /** readUInt16 and readUInt32 name unsigned reads but return Java's signed
      values: the result is negative exactly when the top bit is set, and
      the unsigned value is recovered modulo 2^16 or 2^32. */
  lemma UnsignedNamesReturnSigned(order: ByteOrder, data: seq<byte>, p: nat)
    ensures var s := IoEnhancedBinaryReader.Int16At(order, data, p).result;
            s.Ok? ==> (s.value < 0 <==> Unsigned16(order, data, p) >= 0x8000) &&
                      (s.value - Unsigned16(order, data, p)) % 0x1_0000 == 0
    ensures var s := IoEnhancedBinaryReader.Int32At(order, data, p).result;
            s.Ok? ==> (s.value < 0 <==> Unsigned32(order, data, p) >= 0x8000_0000) &&
                      ToUInt32(s.value) == Unsigned32(order, data, p)
  {
    var s := IoEnhancedBinaryReader.Int16At(order, data, p).result;
    if s.Ok? {
      var u := Unsigned16(order, data, p);
      assert s.value == ToInt16(u);
      assert s.value == u || s.value == u as int - 0x1_0000;
    }
  }
}
