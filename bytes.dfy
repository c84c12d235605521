/** Bytes, byte orders and the composition of fixed-width integers from bytes,
    as Java's DataInputStream, ByteBuffer and the hand-written shifts of the
    cursors compute them. Java's `int`, `short` and `long` are two's-complement;
    here they are unbounded integers kept in range by subset types, and the
    reinterpretation of an unsigned bit pattern as a signed value is written
    out (`ToInt16`, `ToInt32`, `ToInt64`). */
module Bytes {

  type byte = b: int | 0 <= b < 0x100
  type uint16 = x: int | 0 <= x < 0x1_0000
  type int16 = x: int | -0x8000 <= x < 0x8000
  type int32 = x: int | -0x8000_0000 <= x < 0x8000_0000
  type uint32 = x: int | 0 <= x < 0x1_0000_0000
  type int64 = x: int | -0x8000_0000_0000_0000 <= x < 0x8000_0000_0000_0000
  type uint64 = x: int | 0 <= x < 0x1_0000_0000_0000_0000

  /** java.nio.ByteOrder */
  datatype ByteOrder = BigEndian | LittleEndian

  /** The bits of a Java `double`; the numeric meaning is not modelled. */
  datatype Float64Bits = Float64Bits(bits: uint64)

  /** The bits of a Java `float`; the numeric meaning is not modelled. */
  datatype Float32Bits = Float32Bits(bits: uint32)

  /** java.util.UUID: its two 64-bit halves. */
  datatype Uuid = Uuid(mostSigBits: int64, leastSigBits: int64)

  function Pow256(n: nat): (r: nat)
    ensures r > 0
  {
    if n == 0 then 1 else 256 * Pow256(n - 1)
  }

  /** The unsigned value of `s` read most significant byte first. */
  function BigEndianValue(s: seq<byte>): (r: nat)
    ensures r < Pow256(|s|)
  {
    if |s| == 0 then 0 else BigEndianValue(s[..|s| - 1]) * 256 + s[|s| - 1]
  }

  /** The unsigned value of `s` read least significant byte first. */
  function LittleEndianValue(s: seq<byte>): (r: nat)
    ensures r < Pow256(|s|)
  {
    if |s| == 0 then 0 else s[0] + 256 * LittleEndianValue(s[1..])
  }

  /** The unsigned value of `s` in the given byte order. */
  function Unsigned(order: ByteOrder, s: seq<byte>): nat
  {
    match order
    case BigEndian => BigEndianValue(s)
    case LittleEndian => LittleEndianValue(s)
  }

  function Reverse(s: seq<byte>): (r: seq<byte>)
    ensures |r| == |s|
    ensures forall i :: 0 <= i < |s| ==> r[i] == s[|s| - 1 - i]
  {
    if |s| == 0 then [] else Reverse(s[1..]) + [s[0]]
  }

  /** Reading little-endian is reading the reversed bytes big-endian: this is
      what Integer.reverseBytes and Long.reverseBytes rely on. */
  lemma {:induction false} LittleEndianIsReversedBigEndian(s: seq<byte>)
    ensures LittleEndianValue(s) == BigEndianValue(Reverse(s))
  {
    if |s| > 0 {
      LittleEndianIsReversedBigEndian(s[1..]);
      var r := Reverse(s[1..]);
      assert Reverse(s) == r + [s[0]];
      assert (r + [s[0]])[..|r|] == r;
    }
  }

  /** The big-endian value of a concatenation: the first part shifted left
      past the second. */
  lemma {:induction false} BigEndianAppend(a: seq<byte>, b: seq<byte>)
    ensures BigEndianValue(a + b) == BigEndianValue(a) * Pow256(|b|) + BigEndianValue(b)
  {
    if |b| == 0 {
      assert a + b == a;
    } else {
      var init := b[..|b| - 1];
      assert (a + b)[..|a + b| - 1] == a + init;
      BigEndianAppend(a, init);
      assert Pow256(|b|) == 256 * Pow256(|init|);
      ShiftDistributes(BigEndianValue(a), Pow256(|init|), BigEndianValue(init));
    }
  }

  lemma ShiftDistributes(x: int, p: int, y: int)
    ensures (x * p + y) * 256 == x * (256 * p) + y * 256
  {
  }

  lemma BigEndian2(s: seq<byte>)
    requires |s| == 2
    ensures BigEndianValue(s) == s[0] as int * 0x100 + s[1]
  {
    assert s[..1][..0] == [];
  }

  lemma LittleEndian2(s: seq<byte>)
    requires |s| == 2
    ensures LittleEndianValue(s) == s[0] + s[1] as int * 0x100
  {
    assert s[1..][1..] == [];
  }

  lemma BigEndian4(s: seq<byte>)
    requires |s| == 4
    ensures BigEndianValue(s) == s[0] as int * 0x100_0000 + s[1] as int * 0x1_0000 + s[2] as int * 0x100 + s[3]
  {
    assert s[..3][..2] == s[..2];
    assert s[..2][..1] == s[..1];
    assert s[..1][..0] == [];
    assert BigEndianValue(s[..1]) == s[0] as int;
    assert BigEndianValue(s[..2]) == s[0] as int * 0x100 + s[1] as int;
    assert BigEndianValue(s[..3]) == (s[0] as int * 0x100 + s[1] as int) * 0x100 + s[2] as int;
  }

  lemma LittleEndian4(s: seq<byte>)
    requires |s| == 4
    ensures LittleEndianValue(s) == s[0] + s[1] as int * 0x100 + s[2] as int * 0x1_0000 + s[3] as int * 0x100_0000
  {
    assert s[1..][1..] == s[2..];
    assert s[2..][1..] == s[3..];
    assert s[3..][1..] == [];
    assert LittleEndianValue(s[3..]) == s[3];
    assert LittleEndianValue(s[2..]) == s[2] as int + 256 * (s[3] as int);
    assert LittleEndianValue(s[1..]) == s[1] as int + 256 * (s[2] as int + 256 * (s[3] as int));
  }

  /** The width a value of `n` bytes can take. */
  lemma Pow256Values()
    ensures Pow256(2) == 0x1_0000 && Pow256(4) == 0x1_0000_0000
    ensures Pow256(6) == 0x1_0000_0000_0000 && Pow256(8) == 0x1_0000_0000_0000_0000
  {
  }

  /** Java's `(byte)` view of an unsigned byte. */
  function ToInt8(b: byte): (r: int)
    ensures -0x80 <= r < 0x80 && (b - r) % 0x100 == 0
    ensures r % 0x100 == b
  {
    if b < 0x80 then b else b - 0x100
  }

  /** Java's `(short)` cast of an unsigned 16-bit value. */
  function ToInt16(u: uint16): (r: int16)
    ensures (u - r) % 0x1_0000 == 0
    ensures r >= 0 <==> u < 0x8000
  {
    if u < 0x8000 then u else u - 0x1_0000
  }

  /** Java's `int` reading of an unsigned 32-bit pattern. */
  function ToInt32(u: uint32): (r: int32)
    ensures (u - r) % 0x1_0000_0000 == 0
    ensures r >= 0 <==> u < 0x8000_0000
  {
    if u < 0x8000_0000 then u else u - 0x1_0000_0000
  }

  /** Java's `long` reading of an unsigned 64-bit pattern. */
  function ToInt64(u: uint64): (r: int64)
    ensures (u - r) % 0x1_0000_0000_0000_0000 == 0
    ensures r >= 0 <==> u < 0x8000_0000_0000_0000
  {
    if u < 0x8000_0000_0000_0000 then u else u - 0x1_0000_0000_0000_0000
  }

  /** `x & 0xFFFFFFFFL` for a Java `int` x: its unsigned 32-bit pattern. */
  function ToUInt32(x: int32): (r: uint32)
    ensures (r - x) % 0x1_0000_0000 == 0
    ensures ToInt32(r) == x
  {
    if x >= 0 then x else x + 0x1_0000_0000
  }

  /** The unsigned value of the two bytes at `p` in the given order. */
  function Unsigned16(order: ByteOrder, data: seq<byte>, p: nat): (r: uint16)
    requires p + 2 <= |data|
    ensures r == match order
              case LittleEndian => data[p] + data[p + 1] as int * 0x100
              case BigEndian => data[p] as int * 0x100 + data[p + 1]
  {
    BigEndian2(data[p..p + 2]);
    LittleEndian2(data[p..p + 2]);
    Unsigned(order, data[p..p + 2])
  }

  /** The unsigned value of the four bytes at `p` in the given order. */
  function Unsigned32(order: ByteOrder, data: seq<byte>, p: nat): (r: uint32)
    requires p + 4 <= |data|
    ensures r == match order
              case LittleEndian => data[p] + data[p + 1] as int * 0x100 + data[p + 2] as int * 0x1_0000 + data[p + 3] as int * 0x100_0000
              case BigEndian => data[p] as int * 0x100_0000 + data[p + 1] as int * 0x1_0000 + data[p + 2] as int * 0x100 + data[p + 3]
  {
    BigEndian4(data[p..p + 4]);
    LittleEndian4(data[p..p + 4]);
    Unsigned(order, data[p..p + 4])
  }

  /** The signed 32-bit value at `p` in the given order. */
  function I32(order: ByteOrder, data: seq<byte>, p: nat): int32
    requires p + 4 <= |data|
  {
    ToInt32(Unsigned32(order, data, p))
  }

  /** The unsigned value of the eight bytes at `p` in the given order. */
  function Unsigned64(order: ByteOrder, data: seq<byte>, p: nat): (r: uint64)
    requires p + 8 <= |data|
    ensures order == BigEndian ==> r == BigEndianValue(data[p..p + 8])
    ensures order == LittleEndian ==> r == BigEndianValue(Reverse(data[p..p + 8]))
  {
    Pow256Values();
    LittleEndianIsReversedBigEndian(data[p..p + 8]);
    Unsigned(order, data[p..p + 8])
  }
}
