/** The cursor of the newer decoder (io/EnhancedBinaryReader.java): a
    buffered FileChannel reader with a byte order that can be changed at any
    time (big-endian until set) and a logical position `pos`.

    The buffer is not modelled: a fixed-size read succeeds exactly when its
    bytes exist, and when it fails it leaves `pos` where it was. Reads that
    the Java code performs one byte at a time (readString, the two
    explicit-order 16-bit reads, detectAndSetByteOrder, readUUID) keep the
    bytes they consumed before failing. `skip` moves `pos` without looking
    at the data, so `pos` may pass the end of the file, after which every
    read fails. */
module IoEnhancedBinaryReader {
  import opened Results
  import opened Bytes
  import UtilBinaryReader

  /** ensureAvailable(n) followed by a buffer get of `n` bytes. */
  function FixedAt(data: seq<byte>, p: nat, n: nat): (r: Step<seq<byte>>)
    ensures r.result.Ok? <==> p + n <= |data|
    ensures r.result.Ok? ==> r.result.value == data[p..p + n] && r.next == p + n
    ensures r.result.Fail? ==> r.result == Fail(IO(EndOfFile)) && r.next == p
  {
    if p + n <= |data| then Step(Ok(data[p..p + n]), p + n) else Step(Fail(IO(EndOfFile)), p)
  }

  /** `n` successive readByte calls: on failure the bytes before the end of
      the data have been consumed. */
  function BytewiseAt(data: seq<byte>, p: nat, n: nat): (r: Step<seq<byte>>)
    ensures r.result.Ok? <==> n == 0 || p + n <= |data|
    ensures r.result.Ok? ==> |r.result.value| == n && r.next == p + n
    ensures r.result.Ok? && n > 0 ==> r.result.value == data[p..p + n]
    ensures r.result.Fail? ==> r.result == Fail(IO(EndOfFile)) && r.next == if p < |data| then |data| else p
  {
    if n == 0 then Step(Ok([]), p)
    else if p + n <= |data| then Step(Ok(data[p..p + n]), p + n)
    else Step(Fail(IO(EndOfFile)), if p < |data| then |data| else p)
  }

  /** readByte: one byte, as a signed Java `byte`. */
  function ByteAt(data: seq<byte>, p: nat): (r: Step<int>)
    ensures r.result.Ok? <==> p < |data|
    ensures r.result.Ok? ==> r.next == p + 1 && r.result.value == ToInt8(data[p]) && r.result.value % 0x100 == data[p]
    ensures r.result.Fail? ==> r.result == Fail(IO(EndOfFile)) && r.next == p
  {
    var b :- FixedAt(data, p, 1);
    Step(Ok(ToInt8(b.value[0])), b.next)
  }

  /** readUInt16: a 16-bit value in the current order, in [0, 65535]. */
  function UInt16At(order: ByteOrder, data: seq<byte>, p: nat): (r: Step<uint16>)
    ensures r.result.Ok? <==> p + 2 <= |data|
    ensures r.result.Ok? ==> r.next == p + 2 && r.result.value == Unsigned16(order, data, p)
    ensures r.result.Fail? ==> r.result == Fail(IO(EndOfFile)) && r.next == p
  {
    var b :- FixedAt(data, p, 2);
    Step(Ok(Unsigned16(order, data, p)), b.next)
  }

  /** readInt16: the signed 16-bit value in the current order. */
  function Int16At(order: ByteOrder, data: seq<byte>, p: nat): (r: Step<int16>)
    ensures r.result.Ok? <==> p + 2 <= |data|
    ensures r.result.Ok? ==> r.next == p + 2 && r.result.value == ToInt16(Unsigned16(order, data, p))
    ensures r.result.Fail? ==> r.result == Fail(IO(EndOfFile)) && r.next == p
  {
    var b :- FixedAt(data, p, 2);
    Step(Ok(ToInt16(Unsigned16(order, data, p))), b.next)
  }

  /** readInt32: the signed 32-bit value in the current order. */
  function Int32At(order: ByteOrder, data: seq<byte>, p: nat): (r: Step<int32>)
    ensures r.result.Ok? <==> p + 4 <= |data|
    ensures r.result.Ok? ==> r.next == p + 4 && r.result.value == ToInt32(Unsigned32(order, data, p))
    ensures r.result.Fail? ==> r.result == Fail(IO(EndOfFile)) && r.next == p
  {
    var b :- FixedAt(data, p, 4);
    Step(Ok(ToInt32(Unsigned32(order, data, p))), b.next)
  }

  /** readUInt32: readInt32 taken modulo 2^32. */
  function UInt32At(order: ByteOrder, data: seq<byte>, p: nat): (r: Step<uint32>)
    ensures r.result.Ok? <==> p + 4 <= |data|
    ensures r.result.Ok? ==> r.next == p + 4 && r.result.value == Unsigned32(order, data, p)
    ensures r.result.Ok? ==> (r.result.value - Int32At(order, data, p).result.value) % 0x1_0000_0000 == 0
    ensures r.result.Fail? ==> r.result == Fail(IO(EndOfFile)) && r.next == p
  {
    var v :- Int32At(order, data, p);
    Step(Ok(ToUInt32(v.value)), v.next)
  }

  /** readInt64 (and readUInt64, which returns the same signed value). */
  function Int64At(order: ByteOrder, data: seq<byte>, p: nat): (r: Step<int64>)
    ensures r.result.Ok? <==> p + 8 <= |data|
    ensures r.result.Ok? ==> r.next == p + 8 && r.result.value == ToInt64(Unsigned64(order, data, p))
    ensures r.result.Fail? ==> r.result == Fail(IO(EndOfFile)) && r.next == p
  {
    var b :- FixedAt(data, p, 8);
    Step(Ok(ToInt64(Unsigned64(order, data, p))), b.next)
  }

  /** readFloat32: the bits of the 32-bit value in the current order. */
  function Float32At(order: ByteOrder, data: seq<byte>, p: nat): (r: Step<Float32Bits>)
    ensures r.result.Ok? <==> p + 4 <= |data|
    ensures r.result.Ok? ==> r.next == p + 4 && r.result.value.bits == Unsigned32(order, data, p)
    ensures r.result.Fail? ==> r.result == Fail(IO(EndOfFile)) && r.next == p
  {
    var b :- FixedAt(data, p, 4);
    Step(Ok(Float32Bits(Unsigned32(order, data, p))), b.next)
  }

  /** readFloat64: the bits of the 64-bit value in the current order. */
  function Float64At(order: ByteOrder, data: seq<byte>, p: nat): (r: Step<Float64Bits>)
    ensures r.result.Ok? <==> p + 8 <= |data|
    ensures r.result.Ok? ==> r.next == p + 8 && r.result.value.bits == Unsigned64(order, data, p)
    ensures r.result.Fail? ==> r.result == Fail(IO(EndOfFile)) && r.next == p
  {
    var b :- FixedAt(data, p, 8);
    Step(Ok(Float64Bits(Unsigned64(order, data, p))), b.next)
  }

  /** readBoolean: one byte, true unless zero. */
  function BooleanAt(data: seq<byte>, p: nat): (r: Step<bool>)
    ensures r.result.Ok? <==> p < |data|
    ensures r.result.Ok? ==> r.next == p + 1 && r.result.value == (data[p] != 0)
    ensures r.result.Fail? ==> r.result == Fail(IO(EndOfFile)) && r.next == p
  {
    var b :- ByteAt(data, p);
    Step(Ok(b.value != 0), b.next)
  }

  /** Where two successive readByte calls leave the cursor when the second
      or both fail. */
  function TwoBytesFailure(data: seq<byte>, p: nat): nat
  {
    if p < |data| then p + 1 else p
  }

  /** readLittleEndianUInt16: b1 + 256 * b2 whatever the current order. */
  function LittleEndianUInt16At(data: seq<byte>, p: nat): (r: Step<uint16>)
    ensures r.result.Ok? <==> p + 2 <= |data|
    ensures r.result.Ok? ==> r.next == p + 2 && r.result.value == data[p] + data[p + 1] as int * 0x100
    ensures r.result.Fail? ==> r.result == Fail(IO(EndOfFile)) && r.next == TwoBytesFailure(data, p)
  {
    var b1 :- ByteAt(data, p);
    var b2 :- ByteAt(data, b1.next);
    Step(Ok((b2.value % 0x100) * 0x100 + b1.value % 0x100), b2.next)
  }

  /** readBigEndianUInt16: 256 * b1 + b2 whatever the current order. */
  function BigEndianUInt16At(data: seq<byte>, p: nat): (r: Step<uint16>)
    ensures r.result.Ok? <==> p + 2 <= |data|
    ensures r.result.Ok? ==> r.next == p + 2 && r.result.value == data[p] as int * 0x100 + data[p + 1]
    ensures r.result.Fail? ==> r.result == Fail(IO(EndOfFile)) && r.next == TwoBytesFailure(data, p)
  {
    var b1 :- ByteAt(data, p);
    var b2 :- ByteAt(data, b1.next);
    Step(Ok((b1.value % 0x100) * 0x100 + b2.value % 0x100), b2.next)
  }

  /** The order that detectAndSetByteOrder selects for the two bytes it
      looks at: 01 00 is little-endian, 00 00 and anything else big-endian. */
  function DetectedOrder(first: int, second: int): (o: ByteOrder)
    ensures o == LittleEndian <==> first == 1 && second == 0
  {
    if first == 1 && second == 0 then LittleEndian
    else if first == 0 && second == 0 then BigEndian
    else BigEndian
  }

  /** detectAndSetByteOrder: reads two bytes and rewinds to where it started. */
  function DetectOrderAt(data: seq<byte>, p: nat): (r: Step<ByteOrder>)
    ensures r.result.Ok? <==> p + 2 <= |data|
    ensures r.result.Ok? ==> r.next == p && (r.result.value == LittleEndian <==> data[p] == 1 && data[p + 1] == 0)
    ensures r.result.Fail? ==> r.result == Fail(IO(EndOfFile)) && r.next == TwoBytesFailure(data, p)
  {
    var first :- ByteAt(data, p);
    var second :- ByteAt(data, first.next);
    Step(Ok(DetectedOrder(first.value, second.value)), second.next - 2)
  }

  /** readString(length): `new byte[length]` filled by readByte calls; the
      bytes are kept undecoded. */
  function StringAt(data: seq<byte>, p: nat, length: int): (r: Step<seq<byte>>)
    ensures r.result.Ok? <==> length == 0 || (length > 0 && p + length <= |data|)
    ensures r.result.Ok? ==> |r.result.value| == length && r.next == p + length
    ensures r.result.Ok? && length > 0 ==> r.result.value == data[p..p + length]
    ensures length < 0 ==> r == Step(Fail(NegativeArraySize(length)), p)
    ensures length > 0 && p + length > |data| ==> r == Step(Fail(IO(EndOfFile)), if p < |data| then |data| else p)
  {
    if length < 0 then Step(Fail(NegativeArraySize(length)), p)
    else BytewiseAt(data, p, length)
  }

  const TwoTo64 := 0x1_0000_0000_0000_0000

  /** `x = (x << 8) | b` on a Java `long` for each byte `b` of `s`, with the
      long seen as its unsigned 64-bit pattern. */
  function ShiftIn(x: uint64, s: seq<byte>): uint64
  {
    if |s| == 0 then x else (ShiftIn(x, s[..|s| - 1]) * 0x100 + s[|s| - 1]) % TwoTo64
  }

  lemma ModMultiple(k: nat, z: nat)
    ensures (k * TwoTo64 + z) % TwoTo64 == z % TwoTo64
  {
    var q, r := z / TwoTo64, z % TwoTo64;
    assert z == q * TwoTo64 + r;
    assert k * TwoTo64 + z == (k + q) * TwoTo64 + r;
  }

  lemma ModShift(y: nat, b: byte)
    ensures ((y % TwoTo64) * 0x100 + b) % TwoTo64 == (y * 0x100 + b) % TwoTo64
  {
    var q, r := y / TwoTo64, y % TwoTo64;
    assert y * 0x100 + b == (q * 0x100) * TwoTo64 + (r * 0x100 + b);
    ModMultiple(q * 0x100, r * 0x100 + b);
  }

  /** Shifting bytes into `x` keeps the low 64 bits of `x` followed by the
      bytes. */
  lemma {:induction false} ShiftInValue(x: uint64, s: seq<byte>)
    ensures ShiftIn(x, s) == (x * Pow256(|s|) + BigEndianValue(s)) % TwoTo64
  {
    if |s| == 0 {
    } else {
      var init := s[..|s| - 1];
      var last := s[|s| - 1];
      ShiftInValue(x, init);
      var y := x * Pow256(|init|) + BigEndianValue(init);
      ModShift(y, last);
      assert Pow256(|s|) == 256 * Pow256(|init|);
      ShiftDistributes(x, Pow256(|init|), BigEndianValue(init));
    }
  }

  /** The least significant half of readUUID as written: after the two
      clock-sequence bytes are placed in the top 16 bits, six more 8-bit
      shifts push both of them out of the long, leaving only the node. */
  lemma ClockSequenceShiftedOut(clockSeqHi: byte, clockSeqLow: byte, node: seq<byte>)
    requires |node| == 6
    ensures ShiftIn(clockSeqHi * 0x100_0000_0000_0000 + clockSeqLow * 0x1_0000_0000_0000, node) == BigEndianValue(node)
  {
    var x := clockSeqHi * 0x100_0000_0000_0000 + clockSeqLow * 0x1_0000_0000_0000;
    ShiftInValue(x, node);
    Pow256Values();
    assert Pow256(6) == 0x1_0000_0000_0000;
    assert x * Pow256(6) == (clockSeqHi * 0x100_0000_0000 + clockSeqLow * 0x1_0000_0000) * TwoTo64;
    ModMultiple(clockSeqHi * 0x100_0000_0000 + clockSeqLow * 0x1_0000_0000, BigEndianValue(node));
  }

  /** `((long)(int)u << 32)` keeps only the low 32 bits of u, which are u itself. */
  lemma ShiftedTimeLow(u: uint32)
    ensures (ToInt32(u) * 0x1_0000_0000) % TwoTo64 == u * 0x1_0000_0000
  {
    if u >= 0x8000_0000 {
      assert ToInt32(u) * 0x1_0000_0000 == u * 0x1_0000_0000 - TwoTo64;
    }
  }

  /** The most significant half of a UUID read in the current order:
      time_low << 32 | time_mid << 16 | time_hi_and_version. */
  function MostSigBits(order: ByteOrder, data: seq<byte>, p: nat): int64
    requires p + 8 <= |data|
  {
    ToInt64(Unsigned32(order, data, p) * 0x1_0000_0000 + Unsigned16(order, data, p + 4) * 0x1_0000 + Unsigned16(order, data, p + 6))
  }

  /** Where readUUID leaves the cursor when it fails: the 32- and 16-bit
      reads leave it before themselves, the byte reads at the end of data. */
  function UuidFailure(data: seq<byte>, p: nat): nat
  {
    if p + 4 > |data| then p
    else if p + 6 > |data| then p + 4
    else if p + 8 > |data| then p + 6
    else |data|
  }

  /** readUUID as written: time_low, time_mid and time_hi_and_version in the
      current order, then two clock-sequence bytes and six node bytes; the
      least significant half ends up holding the node alone. */
  function UuidAt(order: ByteOrder, data: seq<byte>, p: nat): (r: Step<Uuid>)
    ensures r.result.Ok? <==> p + 16 <= |data|
    ensures r.result.Ok? ==> r.next == p + 16 && r.result.value.mostSigBits == MostSigBits(order, data, p)
    ensures r.result.Ok? ==> r.result.value.leastSigBits == BigEndianValue(data[p + 10..p + 16])
    ensures r.result.Fail? ==> r.result == Fail(IO(EndOfFile)) && r.next == UuidFailure(data, p)
  {
    var timeLow :- UInt32At(order, data, p);
    var timeMid :- UInt16At(order, data, timeLow.next);
    var timeHi :- UInt16At(order, data, timeMid.next);
    var rest :- BytewiseAt(data, timeHi.next, 8);
    var bytes := rest.value;
    assert bytes[2..] == data[p + 10..p + 16];
    ClockSequenceShiftedOut(bytes[0], bytes[1], bytes[2..]);
    Pow256Values();
    var lsb := ShiftIn(bytes[0] as int * 0x100_0000_0000_0000 + bytes[1] as int * 0x1_0000_0000_0000, bytes[2..]);
    Step(Ok(Uuid(MostSigBits(order, data, p), ToInt64(lsb))), rest.next)
  }

  /** readUUID as evidently intended: the clock-sequence bytes stay in the top
      16 bits of the least significant half, above the 48-bit node, so that
      half is bytes 8 to 16 read big-endian as section 4.1.2 of RFC 4122
      lays them out. */
  function IntendedUuidAt(order: ByteOrder, data: seq<byte>, p: nat): (r: Step<Uuid>)
    ensures r.result.Ok? <==> p + 16 <= |data|
    ensures r.result.Ok? ==> r.next == p + 16 && r.result.value.mostSigBits == MostSigBits(order, data, p)
    ensures r.result.Ok? ==> r.result.value.leastSigBits == ToInt64(BigEndianValue(data[p + 8..p + 16]))
    ensures r.result.Fail? ==> r.result == Fail(IO(EndOfFile)) && r.next == UuidFailure(data, p)
  {
    var timeLow :- UInt32At(order, data, p);
    var timeMid :- UInt16At(order, data, timeLow.next);
    var timeHi :- UInt16At(order, data, timeMid.next);
    var rest :- BytewiseAt(data, timeHi.next, 8);
    var bytes := rest.value;
    ClockSequenceKept(bytes);
    var lsb := bytes[0] as int * 0x100_0000_0000_0000 + bytes[1] as int * 0x1_0000_0000_0000 + BigEndianValue(bytes[2..]);
    Step(Ok(Uuid(MostSigBits(order, data, p), ToInt64(lsb))), rest.next)
  }

  /** With the clock-sequence bytes kept above the node, the least
      significant half is the eight bytes read big-endian. */
  lemma ClockSequenceKept(bytes: seq<byte>)
    requires |bytes| == 8
    ensures bytes[0] as int * 0x100_0000_0000_0000 + bytes[1] as int * 0x1_0000_0000_0000 + BigEndianValue(bytes[2..])
              == BigEndianValue(bytes) < TwoTo64
  {
    Pow256Values();
    BigEndianAppend(bytes[..2], bytes[2..]);
    assert bytes[..2] + bytes[2..] == bytes;
    BigEndian2(bytes[..2]);
  }

  /** As written, readUUID drops the clock sequence: sixteen zero bytes and
      the same bytes with clock_seq_hi_and_reserved set to 0x80 decode to
      the same UUID, while the intended reading tells them apart. */
  lemma ClockSequenceLost()
    ensures var zeros := seq(16, _ => 0);
            var marked := zeros[8 := 0x80];
            UuidAt(BigEndian, zeros, 0) == UuidAt(BigEndian, marked, 0) &&
            IntendedUuidAt(BigEndian, zeros, 0) != IntendedUuidAt(BigEndian, marked, 0)
  {
    var zeros: seq<byte> := seq(16, _ => 0);
    var marked := zeros[8 := 0x80];
    assert marked[10..16] == zeros[10..16];
    assert marked[..8] == zeros[..8];
    var z8 := zeros[8..16];
    var m8 := marked[8..16];
    assert m8 == [0x80] + z8[1..];
    assert z8 == [0] + z8[1..];
    BigEndianAppend([0x80], z8[1..]);
    BigEndianAppend([0], z8[1..]);
    assert BigEndianValue([0x80]) == 0x80 by { assert [0x80 as byte][..0] == []; }
    assert BigEndianValue([0]) == 0 by { assert [0 as byte][..0] == []; }
    Pow256Values();
    assert Pow256(7) == 0x100_0000_0000_0000;
  }

  /** Read big-endian, the intended readUUID agrees with the legacy cursor's
      readUUID, which reads the sixteen bytes as two big-endian longs. */
  lemma IntendedUuidMatchesLegacy(data: seq<byte>, p: nat)
    requires p <= |data|
    ensures IntendedUuidAt(BigEndian, data, p).result == UtilBinaryReader.UuidAt(data, p).result
  {
    if p + 16 <= |data| {
      var a, b, c := data[p..p + 4], data[p + 4..p + 6], data[p + 6..p + 8];
      assert b + c == data[p + 4..p + 8];
      assert a + (b + c) == data[p..p + 8];
      BigEndianAppend(a, b + c);
      BigEndianAppend(b, c);
      BigEndian4(a);
      BigEndian2(b);
      BigEndian2(c);
      Pow256Values();
      assert BigEndianValue(data[p..p + 8]) == Unsigned32(BigEndian, data, p) * 0x1_0000_0000 + Unsigned16(BigEndian, data, p + 4) * 0x1_0000 + Unsigned16(BigEndian, data, p + 6);
    }
  }

  /** The explicit-order 16-bit reads agree with readUInt16 under that order. */
  lemma ExplicitOrderReads(data: seq<byte>, p: nat)
    ensures LittleEndianUInt16At(data, p).result == UInt16At(LittleEndian, data, p).result
    ensures BigEndianUInt16At(data, p).result == UInt16At(BigEndian, data, p).result
  {
  }

  class EnhancedBinaryReader {
    const data: seq<byte>
    var pos: nat
    var order: ByteOrder

    /** A reader at the start of the file, big-endian. */
    constructor(data: seq<byte>)
      ensures this.data == data && pos == 0 && order == BigEndian
    {
      this.data := data;
      pos := 0;
      order := BigEndian;
    }

    method SetByteOrder(order: ByteOrder)
      modifies this
      ensures this.order == order && pos == old(pos)
    {
      this.order := order;
    }

    /** ensureAvailable(n) and a buffer get of `n` bytes. */
    method Get(n: nat) returns (r: Result<seq<byte>>)
      modifies this
      ensures order == old(order) && Step(r, pos) == FixedAt(data, old(pos), n)
    {
      if pos + n > |data| {
        return Fail(IO(EndOfFile));
      }
      r := Ok(data[pos..pos + n]);
      pos := pos + n;
    }

    method ReadByte() returns (r: Result<int>)
      modifies this
      ensures order == old(order) && Step(r, pos) == ByteAt(data, old(pos))
    {
      var b :- Get(1);
      return Ok(ToInt8(b[0]));
    }

    /** readUByte: `readByte() & 0xFF`. */
    method ReadUByte() returns (r: Result<byte>)
      modifies this
      ensures order == old(order)
      ensures r.Ok? <==> old(pos) < |data|
      ensures r.Ok? ==> r.value == data[old(pos)] && pos == old(pos) + 1
      ensures r.Fail? ==> r == Fail(IO(EndOfFile)) && pos == old(pos)
    {
      var b :- ReadByte();
      return Ok(b % 0x100);
    }

    method ReadUInt16() returns (r: Result<uint16>)
      modifies this
      ensures order == old(order) && Step(r, pos) == UInt16At(order, data, old(pos))
    {
      var b :- Get(2);
      return Ok(Unsigned(order, b));
    }

    method ReadInt16() returns (r: Result<int16>)
      modifies this
      ensures order == old(order) && Step(r, pos) == Int16At(order, data, old(pos))
    {
      var b :- Get(2);
      return Ok(ToInt16(Unsigned(order, b)));
    }

    method ReadLittleEndianUInt16() returns (r: Result<uint16>)
      modifies this
      ensures order == old(order) && Step(r, pos) == LittleEndianUInt16At(data, old(pos))
    {
      var b1 :- ReadByte();
      var b2 :- ReadByte();
      return Ok((b2 % 0x100) * 0x100 + b1 % 0x100);
    }

    method ReadBigEndianUInt16() returns (r: Result<uint16>)
      modifies this
      ensures order == old(order) && Step(r, pos) == BigEndianUInt16At(data, old(pos))
    {
      var b1 :- ReadByte();
      var b2 :- ReadByte();
      return Ok((b1 % 0x100) * 0x100 + b2 % 0x100);
    }

    /** detectAndSetByteOrder: reads two bytes, rewinds, and sets the order
      they indicate. */
    method DetectAndSetByteOrder() returns (r: Result<ByteOrder>)
      modifies this
      ensures Step(r, pos) == DetectOrderAt(data, old(pos))
      ensures order == if r.Ok? then r.value else old(order)
    {
      var first :- ReadByte();
      var second :- ReadByte();
      pos := pos - 2;
      var detected := DetectedOrder(first, second);
      SetByteOrder(detected);
      return Ok(detected);
    }

    method ReadInt32() returns (r: Result<int32>)
      modifies this
      ensures order == old(order) && Step(r, pos) == Int32At(order, data, old(pos))
    {
      var b :- Get(4);
      return Ok(ToInt32(Unsigned(order, b)));
    }

    method ReadUInt32() returns (r: Result<uint32>)
      modifies this
      ensures order == old(order) && Step(r, pos) == UInt32At(order, data, old(pos))
    {
      var v :- ReadInt32();
      return Ok(ToUInt32(v));
    }

    method ReadFloat32() returns (r: Result<Float32Bits>)
      modifies this
      ensures order == old(order) && Step(r, pos) == Float32At(order, data, old(pos))
    {
      var b :- Get(4);
      return Ok(Float32Bits(Unsigned(order, b)));
    }

    method ReadFloat64() returns (r: Result<Float64Bits>)
      modifies this
      ensures order == old(order) && Step(r, pos) == Float64At(order, data, old(pos))
    {
      var b :- Get(8);
      return Ok(Float64Bits(Unsigned(order, b)));
    }

    method ReadInt64() returns (r: Result<int64>)
      modifies this
      ensures order == old(order) && Step(r, pos) == Int64At(order, data, old(pos))
    {
      var b :- Get(8);
      return Ok(ToInt64(Unsigned(order, b)));
    }

    method ReadUInt64() returns (r: Result<int64>)
      modifies this
      ensures order == old(order) && Step(r, pos) == Int64At(order, data, old(pos))
    {
      r := ReadInt64();
    }

    method ReadBoolean() returns (r: Result<bool>)
      modifies this
      ensures order == old(order) && Step(r, pos) == BooleanAt(data, old(pos))
    {
      var value :- ReadByte();
      return Ok(value != 0);
    }

    /** readEnum: a readUInt16. */
    method ReadEnum() returns (r: Result<uint16>)
      modifies this
      ensures order == old(order) && Step(r, pos) == UInt16At(order, data, old(pos))
    {
      r := ReadUInt16();
    }

    /** Reads `n` bytes with readByte, as readString and readUUID do. */
    method ReadBytewise(n: nat) returns (r: Result<seq<byte>>)
      modifies this
      ensures order == old(order) && Step(r, pos) == BytewiseAt(data, old(pos), n)
    {
      var bytes: seq<byte> := [];
      for i := 0 to n
        invariant order == old(order) && pos == old(pos) + i
        invariant i > 0 ==> pos <= |data|
        invariant |bytes| == i && forall k :: 0 <= k < i ==> bytes[k] == data[old(pos) + k]
      {
        var b :- ReadByte();
        bytes := bytes + [b % 0x100];
      }
      assert n > 0 ==> bytes == data[old(pos)..old(pos) + n];
      return Ok(bytes);
    }

    method ReadString(length: int) returns (r: Result<seq<byte>>)
      modifies this
      ensures order == old(order) && Step(r, pos) == StringAt(data, old(pos), length)
    {
      if length < 0 {
        return Fail(NegativeArraySize(length));
      }
      r := ReadBytewise(length);
    }

    /** skip(n): moves the position by `n` without reading. */
    method Skip(bytes: nat)
      modifies this
      ensures order == old(order) && pos == old(pos) + bytes
    {
      pos := pos + bytes;
    }

    /** readUUID as written. */
    method ReadUuid() returns (r: Result<Uuid>)
      modifies this
      ensures order == old(order) && Step(r, pos) == UuidAt(order, data, old(pos))
    {
      ghost var start := pos;
      var timeLowBits :- ReadUInt32();
      var timeLow := ToInt32(timeLowBits);
      var timeMid :- ReadUInt16();
      var timeHiAndVersion :- ReadUInt16();
      ShiftedTimeLow(timeLowBits);
      var mostSigBits := ToInt64((timeLow * 0x1_0000_0000) % TwoTo64 + timeMid as int * 0x1_0000 + timeHiAndVersion);
      assert mostSigBits == MostSigBits(order, data, start);

      var rest :- ReadBytewise(8);
      var clockSeqHiAndReserved := rest[0];
      var clockSeqLow := rest[1];
      var node := rest[2..];

      var leastSigBits := ShiftInBytes(clockSeqHiAndReserved as int * 0x100_0000_0000_0000 + clockSeqLow as int * 0x1_0000_0000_0000, node);
      return Ok(Uuid(mostSigBits, ToInt64(leastSigBits)));
    }
  }

  /** The node loop of readUUID: each byte is shifted in below the bits so
      far, and the top byte falls off the 64-bit value. */
  method ShiftInBytes(x: uint64, node: seq<byte>) returns (v: uint64)
    ensures v == ShiftIn(x, node)
  {
    v := x;
    for i := 0 to |node|
      invariant v == ShiftIn(x, node[..i])
    {
      assert node[..i + 1][..i] == node[..i];
      v := (v * 0x100 + node[i]) % TwoTo64;
    }
    assert node[..|node|] == node;
  }
}
