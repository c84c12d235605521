/** The cursor of the legacy decoder (util/BinaryReader.java): a
    DataInputStream over the file with a byte order fixed at construction.
    The stream is its bytes `data` and the number `pos` of bytes consumed.
    When a DataInputStream read runs out of bytes it has consumed all that
    remained, so a read that fails for want of bytes leaves `pos == |data|`.

    Each read is specified by a function of the byte order, the bytes and the
    position that gives the value (or the exception) and the position after
    it; the methods of `BinaryReader` perform the reads as the Java code does
    and are proved to agree with those functions. */
module UtilBinaryReader {
  import opened Results
  import opened Bytes

  /** DataInputStream.readFully of `n` bytes. */
  function BytesAt(data: seq<byte>, p: nat, n: nat): (r: Step<seq<byte>>)
    requires p <= |data|
    ensures r.result.Ok? <==> p + n <= |data|
    ensures r.result.Ok? ==> |r.result.value| == n && r.result.value == data[p..p + n] && r.next == p + n
    ensures r.result.Fail? ==> r.result == Fail(IO(EndOfFile)) && r.next == |data|
  {
    if p + n <= |data| then Step(Ok(data[p..p + n]), p + n) else Step(Fail(IO(EndOfFile)), |data|)
  }

  /** readUInt16: b1 | b2 << 8 under little-endian, b1 << 8 | b2 under big-endian. */
  function UInt16At(order: ByteOrder, data: seq<byte>, p: nat): (r: Step<uint16>)
    requires p <= |data|
    ensures r.result.Ok? <==> p + 2 <= |data|
    ensures r.result.Ok? ==>
              r.next == p + 2 &&
              r.result.value == match order
                case LittleEndian => data[p] + data[p + 1] as int * 0x100
                case BigEndian => data[p] as int * 0x100 + data[p + 1]
    ensures r.result.Ok? ==> r.result.value == Unsigned16(order, data, p)
    ensures r.result.Fail? ==> r.result == Fail(IO(EndOfFile)) && r.next == |data|
  {
    var b :- BytesAt(data, p, 2);
    BigEndian2(b.value);
    LittleEndian2(b.value);
    Step(Ok(Unsigned(order, b.value)), b.next)
  }

  /** readInt16: the 16-bit value in the reader's order, sign-extended from
      its most significant byte. */
  function Int16At(order: ByteOrder, data: seq<byte>, p: nat): (r: Step<int16>)
    requires p <= |data|
    ensures r.result.Ok? <==> p + 2 <= |data|
    ensures r.result.Ok? ==>
              r.next == p + 2 &&
              r.result.value == ToInt16(UInt16At(order, data, p).result.value) &&
              (r.result.value < 0 <==> (if order == LittleEndian then data[p + 1] else data[p]) >= 0x80)
    ensures r.result.Fail? ==> r.result == Fail(IO(EndOfFile)) && r.next == |data|
  {
    var u :- UInt16At(order, data, p);
    Step(Ok(ToInt16(u.value)), u.next)
  }

  /** readInt32: the 32-bit value in the reader's order, sign-extended from
      its most significant byte. */
  function Int32At(order: ByteOrder, data: seq<byte>, p: nat): (r: Step<int32>)
    requires p <= |data|
    ensures r.result.Ok? <==> p + 4 <= |data|
    ensures r.result.Ok? ==>
              r.next == p + 4 &&
              r.result.value == ToInt32(Unsigned32(order, data, p)) &&
              (r.result.value < 0 <==> (if order == LittleEndian then data[p + 3] else data[p]) >= 0x80)
    ensures r.result.Fail? ==> r.result == Fail(IO(EndOfFile)) && r.next == |data|
  {
    var b :- BytesAt(data, p, 4);
    Step(Ok(ToInt32(Unsigned32(order, data, p))), b.next)
  }

  /** readUInt32: the unsigned 32-bit value in the reader's order. */
  function UInt32At(order: ByteOrder, data: seq<byte>, p: nat): (r: Step<uint32>)
    requires p <= |data|
    ensures r.result.Ok? <==> p + 4 <= |data|
    ensures r.result.Ok? ==> r.next == p + 4 && r.result.value == Unsigned32(order, data, p)
    ensures r.result.Fail? ==> r.result == Fail(IO(EndOfFile)) && r.next == |data|
  {
    var b :- BytesAt(data, p, 4);
    Step(Ok(Unsigned32(order, data, p)), b.next)
  }

  /** readInt64: the signed 64-bit value in the reader's order. */
  function Int64At(order: ByteOrder, data: seq<byte>, p: nat): (r: Step<int64>)
    requires p <= |data|
    ensures r.result.Ok? <==> p + 8 <= |data|
    ensures r.result.Ok? ==> r.next == p + 8 && r.result.value == ToInt64(Unsigned64(order, data, p))
    ensures r.result.Fail? ==> r.result == Fail(IO(EndOfFile)) && r.next == |data|
  {
    var b :- BytesAt(data, p, 8);
    Step(Ok(ToInt64(Unsigned64(order, data, p))), b.next)
  }

  /** readFloat32: the bits of the 32-bit value in the reader's order. */
  function Float32At(order: ByteOrder, data: seq<byte>, p: nat): (r: Step<Float32Bits>)
    requires p <= |data|
    ensures r.result.Ok? <==> p + 4 <= |data|
    ensures r.result.Ok? ==> r.next == p + 4 && r.result.value.bits == Unsigned32(order, data, p)
    ensures r.result.Fail? ==> r.result == Fail(IO(EndOfFile)) && r.next == |data|
  {
    var b :- BytesAt(data, p, 4);
    Step(Ok(Float32Bits(Unsigned32(order, data, p))), b.next)
  }

  /** readFloat64: the bits of the 64-bit value in the reader's order. */
  function Float64At(order: ByteOrder, data: seq<byte>, p: nat): (r: Step<Float64Bits>)
    requires p <= |data|
    ensures r.result.Ok? <==> p + 8 <= |data|
    ensures r.result.Ok? ==> r.next == p + 8 && r.result.value.bits == Unsigned64(order, data, p)
    ensures r.result.Fail? ==> r.result == Fail(IO(EndOfFile)) && r.next == |data|
  {
    var b :- BytesAt(data, p, 8);
    Step(Ok(Float64Bits(Unsigned64(order, data, p))), b.next)
  }

  /** The longest string `readString` accepts. */
  const MaxStringLength := 10000

  /** Where a padded string that starts at `p` ends: after its 16-bit
      length, its bytes and a pad byte when the length is odd. */
  function StringEnd(order: ByteOrder, data: seq<byte>, p: nat): nat
    requires p + 2 <= |data|
  {
    var len := Unsigned16(order, data, p);
    p + 2 + len + len % 2
  }

  /** Whether readString at `p` succeeds: a length no larger than 10000, and
      the bytes and pad byte it announces all present. */
  predicate StringFits(order: ByteOrder, data: seq<byte>, p: nat)
  {
    p + 2 <= |data| && Unsigned16(order, data, p) <= MaxStringLength && StringEnd(order, data, p) <= |data|
  }

  /** readString: a 16-bit length in the reader's order, then that many bytes
      and one pad byte when the length is odd. A zero length is the empty
      string with no pad; a length above 10000 is rejected once the length
      has been read. The bytes are kept undecoded. */
  function StringAt(order: ByteOrder, data: seq<byte>, p: nat): (r: Step<seq<byte>>)
    requires p <= |data|
    ensures p + 2 > |data| ==> r == Step(Fail(IO(EndOfFile)), |data|)
    ensures p + 2 <= |data| ==>
              var len := UInt16At(order, data, p).result.value;
              var end := p + 2 + len + len % 2;
              if len > MaxStringLength then r == Step(Fail(IO(StringLengthTooLarge(len))), p + 2)
              else if end <= |data| then r == Step(Ok(data[p + 2..p + 2 + len]), end)
              else r == Step(Fail(IO(EndOfFile)), |data|)
  {
    var len :- UInt16At(order, data, p);
    if len.value == 0 then
      assert data[p + 2..p + 2] == [];
      Step(Ok([]), len.next)
    else if len.value > MaxStringLength then Step(Fail(IO(StringLengthTooLarge(len.value))), len.next)
    else
      var bytes :- BytesAt(data, len.next, len.value);
      if len.value % 2 != 0 then
        var pad :- BytesAt(data, bytes.next, 1);
        Step(Ok(bytes.value), pad.next)
      else Step(Ok(bytes.value), bytes.next)
  }

  /** readString in terms of where the string ends: it succeeds exactly when
      the string fits, and then holds the bytes after the length and stops
      after the pad byte; every failure is an IOException. */
  lemma StringLayout(order: ByteOrder, data: seq<byte>, p: nat)
    requires p <= |data|
    ensures var r := StringAt(order, data, p);
            (r.result.Ok? <==> StringFits(order, data, p)) &&
            (r.result.Ok? ==> r.next == StringEnd(order, data, p) &&
                              r.result.value == data[p + 2..p + 2 + Unsigned16(order, data, p)]) &&
            (r.result.Fail? ==> r.result.error.IO?)
  {
  }

  /** readUUID: sixteen bytes read as two big-endian longs, whatever the
      reader's order. */
  function UuidAt(data: seq<byte>, p: nat): (r: Step<Uuid>)
    requires p <= |data|
    ensures r.result.Ok? <==> p + 16 <= |data|
    ensures r.result.Ok? ==>
              r.next == p + 16 &&
              r.result.value.mostSigBits == ToInt64(Unsigned64(BigEndian, data, p)) &&
              r.result.value.leastSigBits == ToInt64(Unsigned64(BigEndian, data, p + 8))
    ensures r.result.Fail? ==> r.result == Fail(IO(EndOfFile)) && r.next == |data|
  {
    var b :- BytesAt(data, p, 16);
    Step(Ok(Uuid(ToInt64(Unsigned64(BigEndian, data, p)), ToInt64(Unsigned64(BigEndian, data, p + 8)))), b.next)
  }

  /** skip(n): exactly `n` bytes, or EOFException with the stream drained;
      nothing for a count that is not positive. */
  function SkipAt(data: seq<byte>, p: nat, n: int): (r: Step<()>)
    requires p <= |data|
    ensures r.result.Ok? <==> p + n <= |data|
    ensures r.result.Ok? ==> r.next == if n <= 0 then p else p + n
    ensures r.result.Fail? ==> r.result == Fail(IO(EndOfFile)) && r.next == |data|
  {
    if n <= 0 then Step(Ok(()), p)
    else if p + n <= |data| then Step(Ok(()), p + n)
    else Step(Fail(IO(EndOfFile)), |data|)
  }

  /** Reading little-endian is reading the reversed bytes big-endian: the
      byte swaps of readUInt32, readInt64 and readFloat64. */
  lemma {:induction false} LittleEndianReadsReversed(data: seq<byte>, p: nat)
    requires p + 8 <= |data|
    ensures var r := Reverse(data[p..p + 4]);
            UInt32At(LittleEndian, data, p).result.value == UInt32At(BigEndian, r, 0).result.value
    ensures var r := Reverse(data[p..p + 8]);
            Int64At(LittleEndian, data, p).result.value == Int64At(BigEndian, r, 0).result.value &&
            Float64At(LittleEndian, data, p).result.value == Float64At(BigEndian, r, 0).result.value
  {
    var r4 := Reverse(data[p..p + 4]);
    LittleEndianIsReversedBigEndian(data[p..p + 4]);
    assert r4[0..4] == r4;
    var r8 := Reverse(data[p..p + 8]);
    assert r8[0..8] == r8;
  }

  /** readUInt32 is readInt32 taken modulo 2^32. */
  lemma UInt32IsInt32Unsigned(order: ByteOrder, data: seq<byte>, p: nat)
    requires p + 4 <= |data|
    ensures UInt32At(order, data, p).result.value == ToUInt32(Int32At(order, data, p).result.value)
    ensures (UInt32At(order, data, p).result.value - Int32At(order, data, p).result.value) % 0x1_0000_0000 == 0
  {
  }

  class BinaryReader {
    const data: seq<byte>
    const order: ByteOrder
    var pos: nat

    ghost predicate Valid()
      reads this
    {
      pos <= |data|
    }

    /** A reader at the start of the stream, with its order fixed. */
    constructor(data: seq<byte>, order: ByteOrder)
      ensures Valid() && this.data == data && this.order == order && pos == 0
    {
      this.data := data;
      this.order := order;
      pos := 0;
    }

    /** DataInputStream.readFully */
    method ReadFully(n: nat) returns (r: Result<seq<byte>>)
      requires Valid()
      modifies this
      ensures Valid() && Step(r, pos) == BytesAt(data, old(pos), n)
    {
      if pos + n <= |data| {
        r := Ok(data[pos..pos + n]);
        pos := pos + n;
      } else {
        r := Fail(IO(EndOfFile));
        pos := |data|;
      }
    }

    /** readUInt8 (DataInputStream.readUnsignedByte) */
    method ReadUInt8() returns (r: Result<byte>)
      requires Valid()
      modifies this
      ensures Valid()
      ensures r.Ok? <==> old(pos) < |data|
      ensures r.Ok? ==> r.value == data[old(pos)] && pos == old(pos) + 1
      ensures r.Fail? ==> r == Fail(IO(EndOfFile)) && pos == |data|
    {
      var b :- ReadFully(1);
      return Ok(b[0]);
    }

    /** readByte (DataInputStream.readByte): the byte as a signed value. */
    method ReadByte() returns (r: Result<int>)
      requires Valid()
      modifies this
      ensures Valid()
      ensures r.Ok? <==> old(pos) < |data|
      ensures r.Ok? ==> r.value == ToInt8(data[old(pos)]) && pos == old(pos) + 1
      ensures r.Fail? ==> r == Fail(IO(EndOfFile)) && pos == |data|
    {
      var b :- ReadUInt8();
      return Ok(ToInt8(b));
    }

    /** readBoolean (DataInputStream.readBoolean): a byte, true unless zero. */
    method ReadBoolean() returns (r: Result<bool>)
      requires Valid()
      modifies this
      ensures Valid()
      ensures r.Ok? <==> old(pos) < |data|
      ensures r.Ok? ==> r.value == (data[old(pos)] != 0) && pos == old(pos) + 1
      ensures r.Fail? ==> r == Fail(IO(EndOfFile)) && pos == |data|
    {
      var b :- ReadUInt8();
      return Ok(b != 0);
    }

    method ReadUInt16() returns (r: Result<uint16>)
      requires Valid()
      modifies this
      ensures Valid() && Step(r, pos) == UInt16At(order, data, old(pos))
    {
      if order == LittleEndian {
        var b1 :- ReadUInt8();
        var b2 :- ReadUInt8();
        return Ok(b2 as int * 0x100 + b1);
      } else {
        // readUnsignedShort
        var b :- ReadFully(2);
        return Ok(b[0] as int * 0x100 + b[1]);
      }
    }

    method ReadInt16() returns (r: Result<int16>)
      requires Valid()
      modifies this
      ensures Valid() && Step(r, pos) == Int16At(order, data, old(pos))
    {
      if order == LittleEndian {
        var b1 :- ReadUInt8();
        var b2 :- ReadByte();
        return Ok(b2 as int * 0x100 + b1);
      } else {
        // readShort
        var b :- ReadFully(2);
        return Ok(ToInt16(b[0] as int * 0x100 + b[1]));
      }
    }

    method ReadInt32() returns (r: Result<int32>)
      requires Valid()
      modifies this
      ensures Valid() && Step(r, pos) == Int32At(order, data, old(pos))
    {
      if order == LittleEndian {
        var b1 :- ReadUInt8();
        var b2 :- ReadUInt8();
        var b3 :- ReadUInt8();
        var b4 :- ReadByte();
        return Ok(b4 * 0x100_0000 + b3 * 0x1_0000 + b2 * 0x100 + b1);
      } else {
        // readInt
        var b :- ReadFully(4);
        BigEndian4(b);
        return Ok(ToInt32(BigEndianValue(b)));
      }
    }

    method ReadUInt32() returns (r: Result<uint32>)
      requires Valid()
      modifies this
      ensures Valid() && Step(r, pos) == UInt32At(order, data, old(pos))
    {
      var b :- ReadFully(4);
      BigEndian4(b);
      // readInt() & 0xFFFFFFFFL
      var value: uint32 := BigEndianValue(b);
      if order == LittleEndian {
        // Integer.reverseBytes((int) value) & 0xFFFFFFFFL
        LittleEndianIsReversedBigEndian(b);
        LittleEndian4(b);
        value := BigEndianValue(Reverse(b));
      }
      return Ok(value);
    }

    method ReadInt64() returns (r: Result<int64>)
      requires Valid()
      modifies this
      ensures Valid() && Step(r, pos) == Int64At(order, data, old(pos))
    {
      var b :- ReadFully(8);
      Pow256Values();
      // readLong
      var value := ToInt64(BigEndianValue(b));
      if order == LittleEndian {
        // Long.reverseBytes(value)
        value := ToInt64(BigEndianValue(Reverse(b)));
      }
      return Ok(value);
    }

    method ReadFloat32() returns (r: Result<Float32Bits>)
      requires Valid()
      modifies this
      ensures Valid() && Step(r, pos) == Float32At(order, data, old(pos))
    {
      var b :- ReadFully(4);
      BigEndian4(b);
      var bits: uint32 := BigEndianValue(b);
      if order == LittleEndian {
        LittleEndianIsReversedBigEndian(b);
        LittleEndian4(b);
        bits := BigEndianValue(Reverse(b));
      }
      return Ok(Float32Bits(bits));
    }

    method ReadFloat64() returns (r: Result<Float64Bits>)
      requires Valid()
      modifies this
      ensures Valid() && Step(r, pos) == Float64At(order, data, old(pos))
    {
      var b :- ReadFully(8);
      Pow256Values();
      var bits: uint64 := BigEndianValue(b);
      if order == LittleEndian {
        bits := BigEndianValue(Reverse(b));
      }
      return Ok(Float64Bits(bits));
    }

    method ReadString() returns (r: Result<seq<byte>>)
      requires Valid()
      modifies this
      ensures Valid() && Step(r, pos) == StringAt(order, data, old(pos))
    {
      var length :- ReadUInt16();
      if length == 0 {
        return Ok([]);
      }
      if length > MaxStringLength {
        return Fail(IO(StringLengthTooLarge(length)));
      }
      var bytes :- ReadFully(length);
      if length % 2 != 0 {
        var pad :- ReadByte();
      }
      return Ok(bytes);
    }

    method ReadUuid() returns (r: Result<Uuid>)
      requires Valid()
      modifies this
      ensures Valid() && Step(r, pos) == UuidAt(data, old(pos))
    {
      var bytes :- ReadFully(16);
      Pow256Values();
      assert bytes[..8] == data[old(pos)..old(pos) + 8];
      assert bytes[8..] == data[old(pos) + 8..old(pos) + 16];
      var mostSigBits := ToInt64(BigEndianValue(bytes[..8]));
      var leastSigBits := ToInt64(BigEndianValue(bytes[8..]));
      return Ok(Uuid(mostSigBits, leastSigBits));
    }

    /** InputStream.skip as the underlying stream performs it: at most the
        bytes that remain. */
    method StreamSkip(n: int) returns (s: int)
      requires Valid()
      modifies this
      ensures Valid()
      ensures s == if n <= |data| - old(pos) then n else |data| - old(pos)
      ensures pos == old(pos) + (if s > 0 then s else 0)
    {
      s := if n <= |data| - pos then n else |data| - pos;
      if s > 0 {
        pos := pos + s;
      }
    }

    method Skip(bytesToSkip: int) returns (r: Result<()>)
      requires Valid()
      modifies this
      ensures Valid() && Step(r, pos) == SkipAt(data, old(pos), bytesToSkip)
    {
      var skipped := 0;
      while skipped < bytesToSkip
        invariant Valid() && 0 <= skipped && pos == old(pos) + skipped
        invariant skipped <= if bytesToSkip > 0 then bytesToSkip else 0
        decreases bytesToSkip - skipped
      {
        var s := StreamSkip(bytesToSkip - skipped);
        if s <= 0 {
          break;
        }
        skipped := skipped + s;
      }
      if skipped < bytesToSkip {
        return Fail(IO(EndOfFile));
      }
      return Ok(());
    }
  }
}
