# FARM terrain-file decoders, modelled in Dafny

A FARM file is the feature–attribute mapping of a terrain database. It
holds a byte-order marker, a version, a table of attribute data types per
feature, and three maps: feature label and geometry to feature category,
category to feature, and attribute code to attribute. The repository
decodes it twice:

- **The legacy decoder.** `FeatureAttributeMapping` reads the file through
  `util/BinaryReader`, which wraps a `DataInputStream`. It fills its own
  collections in place: the farm table as rows of cells indexed by
  attribute code, a label map, and lists indexed by category and by
  attribute code.
- **The newer decoder.** `parser/FarmParser` reads the file through
  `io/EnhancedBinaryReader`. It detects the byte order, builds every list
  and map locally, and returns a `FarmFile`.

The model also covers:

- the buffered `io/BinaryReader`;
- the enumerations `FeatureGeometry`, `AttributeDataType` and
  `AttributeUnits`;
- `UsageBitmask.toString`;
- the checked constructor of `datatype/EnumerantDataType`.

How it is laid out:

- **Files and bytes.** A file is a `seq<byte>`. The host's byte order is a
  parameter.
- **Readers.** Each reader is a class whose cursor moves. Each read method
  is proved equal to a function `XAt(order, data, p)`. That function
  returns a `Step`: the value or the exception, and where the cursor
  stands afterwards. So a failure says both what was thrown and how far
  the stream got.
- **Parse loops.** Each loop in the decoders is a `for` or `while` loop. Its
  invariant ties what it has built so far to a fold function over the
  bytes.
- **Properties.** The lemmas in `legacy_farm_properties.dfy` and
  `farm_format_properties.dfy` state the layout and contents the folds
  produce.
- **Partial state of the legacy decoder.** It mutates its fields before
  a section finishes. `Outcome` therefore carries the collection as far
  as it got.
- **Exceptions.** Java exceptions are constructors of `Exception`.
  `IOException` causes are constructors of `IOFailure`.

## Model

| member | source | states |
|---|---|---|
| FeatureGeometries.FromValue | src/main/java/com/onesaf/farm/model/FeatureGeometry.java:22-29 | fromValue succeeds exactly for the codes 0 to 3, and the constant it returns carries the code it was given; any other code fails with IllegalArgumentException |
| FeatureGeometries.FromValueSearchesValues | src/main/java/com/onesaf/farm/model/FeatureGeometry.java:22-29 | fromValue finds a constant exactly when one in values() has the code, and returns that constant |
| FeatureGeometries.ValuesInOrder | src/main/java/com/onesaf/farm/model/FeatureGeometry.java:7-10 | the i-th constant in declaration order has the code i |
| FeatureGeometries.FromValueOfValue | src/main/java/com/onesaf/farm/model/FeatureGeometry.java:22-29 | fromValue(getValue()) gives back the constant: the codes round-trip |
| FeatureGeometries.ValueInjective | src/main/java/com/onesaf/farm/model/FeatureGeometry.java:7-10 | no two constants share a code |
| AttributeDataTypes.FromValue | src/main/java/com/onesaf/farm/model/AttributeDataType.java:26-33 | fromValue succeeds exactly for the codes 0 to 7, and the constant it returns carries the code it was given; any other code fails with IllegalArgumentException |
| AttributeDataTypes.FromValueSearchesValues | src/main/java/com/onesaf/farm/model/AttributeDataType.java:26-33 | fromValue finds a constant exactly when one in values() has the code, and returns that constant |
| AttributeDataTypes.ValuesInOrder | src/main/java/com/onesaf/farm/model/AttributeDataType.java:7-14 | the i-th constant in declaration order has the code i |
| AttributeDataTypes.FromValueOfValue | src/main/java/com/onesaf/farm/model/AttributeDataType.java:26-33 | fromValue(getValue()) gives back the constant: the codes round-trip |
| AttributeDataTypes.ValueInjective | src/main/java/com/onesaf/farm/model/AttributeDataType.java:7-14 | no two constants share a code |
| AttributeUnitsEnum.FromValue | src/main/java/com/onesaf/farm/model/AttributeUnits.java:31-38 | fromValue succeeds exactly for the codes 0 to 12, and the constant it returns carries the code it was given; any other code fails with IllegalArgumentException |
| AttributeUnitsEnum.FromValueSearchesValues | src/main/java/com/onesaf/farm/model/AttributeUnits.java:31-38 | fromValue finds a constant exactly when one in values() has the code, and returns that constant |
| AttributeUnitsEnum.ValuesInOrder | src/main/java/com/onesaf/farm/model/AttributeUnits.java:7-19 | the i-th constant in declaration order has the code i |
| AttributeUnitsEnum.FromValueOfValue | src/main/java/com/onesaf/farm/model/AttributeUnits.java:31-38 | fromValue(getValue()) gives back the constant: the codes round-trip |
| AttributeUnitsEnum.ValueInjective | src/main/java/com/onesaf/farm/model/AttributeUnits.java:7-19 | no two constants share a code |
| EnumerantDataTypes.Create | src/main/java/com/onesaf/farm/model/datatype/EnumerantDataType.java:21-29 | the three-argument constructor succeeds exactly when the default is in the valid set, and then keeps offset, default and valid set; otherwise IllegalArgumentException |
| EnumerantDataTypes.Empty | src/main/java/com/onesaf/farm/model/datatype/EnumerantDataType.java:14-19 | the no-argument constructor leaves an empty valid set and no default, so its default is not a valid one |
| EnumerantDataTypes.GetDefault | src/main/java/com/onesaf/farm/model/datatype/EnumerantDataType.java:31-33 | getDefault is the enumerant code of the default, and a NullPointerException when there is no default |
| EnumerantDataTypes.CreatedDefaultIsValid | src/main/java/com/onesaf/farm/model/datatype/EnumerantDataType.java:21-33 | after a successful construction getDefault succeeds and names an enumerant of the valid set |
| EnumerantDataTypes.CreateRoundTrip | src/main/java/com/onesaf/farm/model/datatype/EnumerantDataType.java:21-29 | rebuilding a value from its own parts succeeds exactly when its default is valid, and gives back the same value; the empty value cannot be rebuilt |
| UsageBitmask.ToString | src/main/java/com/onesaf/farm/model/UsageBitmask.java:30-62 | the result is the names of the set flags among AVENUE, APERTURE, BUILDING, AGRICULTURE_FARM and FOREST, in that order, joined by ", " |
| UsageBitmask.ToStringListsSetFlags | src/main/java/com/onesaf/farm/model/UsageBitmask.java:34-58 | a flag's name is listed exactly when its bit is set |
| UsageBitmask.ToStringEmpty | src/main/java/com/onesaf/farm/model/UsageBitmask.java:30-62 | the result is empty exactly when none of the five low bits is set |
| UsageBitmask.ToStringIgnoresHighBits | src/main/java/com/onesaf/farm/model/UsageBitmask.java:7-28 | bits above the fifth (FURNITURE to BODY_OF_WATER) never change the result |
| UsageBitmask.NamesOfMember | src/main/java/com/onesaf/farm/model/UsageBitmask.java:34-58 | a name is in the list exactly when some flag with that name is set |
| UsageBitmask.NamesOfEmpty | src/main/java/com/onesaf/farm/model/UsageBitmask.java:34-58 | the list is empty exactly when no tested flag is set |
| UsageBitmask.JoinEmpty | src/main/java/com/onesaf/farm/model/UsageBitmask.java:39-57 | joining non-empty names gives the empty string exactly when there are no names |
| UsageBitmask.JoinEnds | src/main/java/com/onesaf/farm/model/UsageBitmask.java:31-61 | the joined text starts with the first name and ends with the last |
| UsageBitmask.Step | src/main/java/com/onesaf/farm/model/UsageBitmask.java:38-42 | one more flag test keeps the builder equal to the join of the names so far and `first` true exactly while nothing was appended |
| Bytes.ToInt16 | src/main/java/com/onesaf/farm/util/BinaryReader.java:43-55 | the (short) cast: the value congruent modulo 2^16, negative exactly when the top bit is set |
| Bytes.ToInt32 | src/main/java/com/onesaf/farm/util/BinaryReader.java:57-71 | the int reading of 32 bits: congruent modulo 2^32, negative exactly when the top bit is set |
| Bytes.ToInt64 | src/main/java/com/onesaf/farm/util/BinaryReader.java:81-87 | the long reading of 64 bits: congruent modulo 2^64, negative exactly when the top bit is set |
| Bytes.ToUInt32 | src/main/java/com/onesaf/farm/util/BinaryReader.java:73-79 | `& 0xFFFFFFFFL`: the unsigned value congruent to an int, which ToInt32 turns back into the int |
| Bytes.Unsigned16 | src/main/java/com/onesaf/farm/util/BinaryReader.java:29-41 | two bytes in the given order: low byte first for little-endian, high byte first for big-endian |
| Bytes.Unsigned32 | src/main/java/com/onesaf/farm/util/BinaryReader.java:57-79 | four bytes in the given order |
| Bytes.Unsigned64 | src/main/java/com/onesaf/farm/util/BinaryReader.java:81-103 | eight bytes big-endian, or the reversed eight bytes big-endian for little-endian |
| Bytes.LittleEndianIsReversedBigEndian | src/main/java/com/onesaf/farm/util/BinaryReader.java:73-103 | a little-endian value is the big-endian value of the reversed bytes, which is what reverseBytes after a big-endian read computes |
| Bytes.BigEndianAppend | src/main/java/com/onesaf/farm/util/BinaryReader.java:147-161 | a big-endian value splits at any byte: the high part shifted left by the low part's width plus the low part |
| UtilBinaryReader.BytesAt | src/main/java/com/onesaf/farm/util/BinaryReader.java:147-152 | readFully of n bytes: exactly the next n bytes, or an end of file that consumes the rest of the stream |
| UtilBinaryReader.UInt16At | src/main/java/com/onesaf/farm/util/BinaryReader.java:29-41 | readUInt16: two bytes combined in the reader's order, end of file when fewer than two remain |
| UtilBinaryReader.Int16At | src/main/java/com/onesaf/farm/util/BinaryReader.java:43-55 | readInt16: the signed reading of the same two bytes, negative exactly when the high byte's top bit is set |
| UtilBinaryReader.Int32At | src/main/java/com/onesaf/farm/util/BinaryReader.java:57-71 | readInt32: the signed 32-bit value in the reader's order, negative exactly when the most significant byte's top bit is set |
| UtilBinaryReader.UInt32At | src/main/java/com/onesaf/farm/util/BinaryReader.java:73-79 | readUInt32: the unsigned 32-bit value in the reader's order |
| UtilBinaryReader.Int64At | src/main/java/com/onesaf/farm/util/BinaryReader.java:81-87 | readInt64: the signed 64-bit value in the reader's order |
| UtilBinaryReader.Float32At | src/main/java/com/onesaf/farm/util/BinaryReader.java:89-95 | readFloat32: the 32 bits in the reader's order |
| UtilBinaryReader.Float64At | src/main/java/com/onesaf/farm/util/BinaryReader.java:97-103 | readFloat64: the 64 bits in the reader's order |
| UtilBinaryReader.StringAt | src/main/java/com/onesaf/farm/util/BinaryReader.java:115-145 | readString: a 16-bit length, refused above 10000, then that many bytes and one pad byte when the length is odd; end of file when they are missing |
| UtilBinaryReader.UuidAt | src/main/java/com/onesaf/farm/util/BinaryReader.java:147-161 | readUUID: two big-endian longs whatever the reader's order |
| UtilBinaryReader.SkipAt | src/main/java/com/onesaf/farm/util/BinaryReader.java:175-188 | skip: nothing for a count that is not positive, otherwise exactly that many bytes or an end of file |
| UtilBinaryReader.LittleEndianReadsReversed | src/main/java/com/onesaf/farm/util/BinaryReader.java:73-103 | little-endian readUInt32, readInt64 and readFloat64 equal the big-endian reads of the reversed bytes |
| UtilBinaryReader.UInt32IsInt32Unsigned | src/main/java/com/onesaf/farm/util/BinaryReader.java:73-79 | readUInt32 is readInt32 masked to 32 bits |
| UtilBinaryReader.BinaryReader.constructor | src/main/java/com/onesaf/farm/util/BinaryReader.java:16-19 | a reader at the start of the data, in the given order |
| UtilBinaryReader.BinaryReader.ReadFully | src/main/java/com/onesaf/farm/util/BinaryReader.java:147-152 | the method reads what BytesAt says and moves the cursor to its end |
| UtilBinaryReader.BinaryReader.ReadUInt8 | src/main/java/com/onesaf/farm/util/BinaryReader.java:25-27 | readUInt8: the next byte, or end of file with the cursor at the end |
| UtilBinaryReader.BinaryReader.ReadByte | src/main/java/com/onesaf/farm/util/BinaryReader.java:21-23 | readByte: the next byte as a signed value, or end of file |
| UtilBinaryReader.BinaryReader.ReadBoolean | src/main/java/com/onesaf/farm/util/BinaryReader.java:105-107 | readBoolean: whether the next byte is non-zero, or end of file |
| UtilBinaryReader.BinaryReader.ReadUInt16 | src/main/java/com/onesaf/farm/util/BinaryReader.java:29-41 | the value and the new cursor are those of UInt16At |
| UtilBinaryReader.BinaryReader.ReadInt16 | src/main/java/com/onesaf/farm/util/BinaryReader.java:43-55 | the value and the new cursor are those of Int16At |
| UtilBinaryReader.BinaryReader.ReadInt32 | src/main/java/com/onesaf/farm/util/BinaryReader.java:57-71 | the value and the new cursor are those of Int32At |
| UtilBinaryReader.BinaryReader.ReadUInt32 | src/main/java/com/onesaf/farm/util/BinaryReader.java:73-79 | the value and the new cursor are those of UInt32At |
| UtilBinaryReader.BinaryReader.ReadInt64 | src/main/java/com/onesaf/farm/util/BinaryReader.java:81-87 | the value and the new cursor are those of Int64At |
| UtilBinaryReader.BinaryReader.ReadFloat32 | src/main/java/com/onesaf/farm/util/BinaryReader.java:89-95 | the value and the new cursor are those of Float32At |
| UtilBinaryReader.BinaryReader.ReadFloat64 | src/main/java/com/onesaf/farm/util/BinaryReader.java:97-103 | the value and the new cursor are those of Float64At |
| UtilBinaryReader.StringLayout | src/main/java/com/onesaf/farm/util/BinaryReader.java:115-145 | readString succeeds exactly when the length is at most 10000 and the string with its pad byte fits; the value is the bytes after the length and the cursor ends past the pad; every failure is an IOException |
| UtilBinaryReader.BinaryReader.ReadString | src/main/java/com/onesaf/farm/util/BinaryReader.java:115-145 | the value and the new cursor are those of StringAt |
| UtilBinaryReader.BinaryReader.ReadUuid | src/main/java/com/onesaf/farm/util/BinaryReader.java:147-161 | the value and the new cursor are those of UuidAt |
| UtilBinaryReader.BinaryReader.Skip | src/main/java/com/onesaf/farm/util/BinaryReader.java:175-188 | the value and the new cursor are those of SkipAt |
| UtilBinaryReader.BinaryReader.StreamSkip | src/main/java/com/onesaf/farm/util/BinaryReader.java:178 | InputStream.skip stops at the end of the data: it skips the smaller of the request and what is left |
| IoEnhancedBinaryReader.FixedAt | src/main/java/com/onesaf/farm/io/EnhancedBinaryReader.java:55-65 | ensureAvailable and a buffer get: the next n bytes, or an end of file that leaves the position where it was |
| IoEnhancedBinaryReader.BytewiseAt | src/main/java/com/onesaf/farm/io/EnhancedBinaryReader.java:303-305 | n single-byte reads: the next n bytes, or an end of file after consuming what was left |
| IoEnhancedBinaryReader.ByteAt | src/main/java/com/onesaf/farm/io/EnhancedBinaryReader.java:72-77 | readByte: the next byte as a signed value, or end of file with the position unchanged |
| IoEnhancedBinaryReader.UInt16At | src/main/java/com/onesaf/farm/io/EnhancedBinaryReader.java:93-98 | readUInt16: two bytes in the reader's order, masked to an unsigned value |
| IoEnhancedBinaryReader.Int16At | src/main/java/com/onesaf/farm/io/EnhancedBinaryReader.java:105-110 | readInt16: the signed reading of the same two bytes |
| IoEnhancedBinaryReader.Int32At | src/main/java/com/onesaf/farm/io/EnhancedBinaryReader.java:174-179 | readInt32: the signed 32-bit value in the reader's order |
| IoEnhancedBinaryReader.UInt32At | src/main/java/com/onesaf/farm/io/EnhancedBinaryReader.java:187-189 | readUInt32: readInt32 masked to 32 bits, which is the unsigned value of the same bytes |
| IoEnhancedBinaryReader.Int64At | src/main/java/com/onesaf/farm/io/EnhancedBinaryReader.java:220-225 | readInt64 (and readUInt64, which returns it): the signed 64-bit value |
| IoEnhancedBinaryReader.Float32At | src/main/java/com/onesaf/farm/io/EnhancedBinaryReader.java:196-201 | readFloat32: the 32 bits in the reader's order |
| IoEnhancedBinaryReader.Float64At | src/main/java/com/onesaf/farm/io/EnhancedBinaryReader.java:208-213 | readFloat64: the 64 bits in the reader's order |
| IoEnhancedBinaryReader.BooleanAt | src/main/java/com/onesaf/farm/io/EnhancedBinaryReader.java:244-247 | readBoolean: whether the next byte is non-zero |
| IoEnhancedBinaryReader.LittleEndianUInt16At | src/main/java/com/onesaf/farm/io/EnhancedBinaryReader.java:117-121 | readLittleEndianUInt16: low byte first, whatever the reader's order |
| IoEnhancedBinaryReader.BigEndianUInt16At | src/main/java/com/onesaf/farm/io/EnhancedBinaryReader.java:128-132 | readBigEndianUInt16: high byte first, whatever the reader's order |
| IoEnhancedBinaryReader.ExplicitOrderReads | src/main/java/com/onesaf/farm/io/EnhancedBinaryReader.java:93-132 | the two explicit-order reads agree with readUInt16 in that order |
| IoEnhancedBinaryReader.DetectedOrder | src/main/java/com/onesaf/farm/io/EnhancedBinaryReader.java:153-166 | the detected order is little-endian exactly for the bytes 01 00; 00 00 and every other pair give big-endian |
| IoEnhancedBinaryReader.DetectOrderAt | src/main/java/com/onesaf/farm/io/EnhancedBinaryReader.java:140-167 | detectAndSetByteOrder looks at two bytes and puts the position back, and picks little-endian exactly for 01 00 |
| IoEnhancedBinaryReader.StringAt | src/main/java/com/onesaf/farm/io/EnhancedBinaryReader.java:324-330 | readString(length): NegativeArraySizeException for a negative length, otherwise exactly length bytes or an end of file |
| IoEnhancedBinaryReader.UuidAt | src/main/java/com/onesaf/farm/io/EnhancedBinaryReader.java:277-316 | readUUID as written: the most significant half from time_low, time_mid and time_hi in the reader's order, and a least significant half that keeps only the six node bytes |
| IoEnhancedBinaryReader.ShiftInValue | src/main/java/com/onesaf/farm/io/EnhancedBinaryReader.java:311-313 | shifting bytes into a 64-bit value keeps the low 64 bits of value times 256^n plus the bytes read big-endian |
| IoEnhancedBinaryReader.ClockSequenceShiftedOut | src/main/java/com/onesaf/farm/io/EnhancedBinaryReader.java:308-313 | after six shifts the two clock-sequence bytes have left the 64-bit value, which is just the node |
| IoEnhancedBinaryReader.ShiftInBytes | src/main/java/com/onesaf/farm/io/EnhancedBinaryReader.java:311-313 | the node loop computes ShiftIn of its start value and the six node bytes |
| IoEnhancedBinaryReader.IntendedUuidAt | src/main/java/com/onesaf/farm/io/EnhancedBinaryReader.java:295-313 | readUUID as evidently intended: the least significant half is bytes 8 to 16 read big-endian |
| IoEnhancedBinaryReader.ClockSequenceLost | src/main/java/com/onesaf/farm/io/EnhancedBinaryReader.java:308-313 | two inputs that differ only in clock_seq_hi_and_reserved give the same UUID as written, and different UUIDs under the intended reading |
| IoEnhancedBinaryReader.IntendedUuidMatchesLegacy | src/main/java/com/onesaf/farm/io/EnhancedBinaryReader.java:277-316 | on big-endian data the intended reading agrees with the legacy readUUID |
| IoEnhancedBinaryReader.EnhancedBinaryReader.constructor | src/main/java/com/onesaf/farm/io/EnhancedBinaryReader.java:32-38 | a reader at position 0, big-endian |
| IoEnhancedBinaryReader.EnhancedBinaryReader.SetByteOrder | src/main/java/com/onesaf/farm/io/EnhancedBinaryReader.java:44-48 | setByteOrder changes only the order |
| IoEnhancedBinaryReader.EnhancedBinaryReader.Get | src/main/java/com/onesaf/farm/io/EnhancedBinaryReader.java:55-65 | the value and the new position are those of FixedAt |
| IoEnhancedBinaryReader.EnhancedBinaryReader.ReadUByte | src/main/java/com/onesaf/farm/io/EnhancedBinaryReader.java:84-86 | readUByte: the next byte as an unsigned value, or end of file with the position unchanged |
| IoEnhancedBinaryReader.EnhancedBinaryReader.ReadByte | src/main/java/com/onesaf/farm/io/EnhancedBinaryReader.java:72-77 | the value and the new position are those of ByteAt, and the order is unchanged |
| IoEnhancedBinaryReader.EnhancedBinaryReader.ReadUInt16 | src/main/java/com/onesaf/farm/io/EnhancedBinaryReader.java:93-98 | the value and the new position are those of UInt16At, and the order is unchanged |
| IoEnhancedBinaryReader.EnhancedBinaryReader.ReadInt16 | src/main/java/com/onesaf/farm/io/EnhancedBinaryReader.java:105-110 | the value and the new position are those of Int16At, and the order is unchanged |
| IoEnhancedBinaryReader.EnhancedBinaryReader.ReadLittleEndianUInt16 | src/main/java/com/onesaf/farm/io/EnhancedBinaryReader.java:117-121 | the value and the new position are those of LittleEndianUInt16At, and the order is unchanged |
| IoEnhancedBinaryReader.EnhancedBinaryReader.ReadBigEndianUInt16 | src/main/java/com/onesaf/farm/io/EnhancedBinaryReader.java:128-132 | the value and the new position are those of BigEndianUInt16At, and the order is unchanged |
| IoEnhancedBinaryReader.EnhancedBinaryReader.ReadInt32 | src/main/java/com/onesaf/farm/io/EnhancedBinaryReader.java:174-179 | the value and the new position are those of Int32At, and the order is unchanged |
| IoEnhancedBinaryReader.EnhancedBinaryReader.ReadUInt32 | src/main/java/com/onesaf/farm/io/EnhancedBinaryReader.java:187-189 | the value and the new position are those of UInt32At, and the order is unchanged |
| IoEnhancedBinaryReader.EnhancedBinaryReader.ReadFloat32 | src/main/java/com/onesaf/farm/io/EnhancedBinaryReader.java:196-201 | the value and the new position are those of Float32At, and the order is unchanged |
| IoEnhancedBinaryReader.EnhancedBinaryReader.ReadFloat64 | src/main/java/com/onesaf/farm/io/EnhancedBinaryReader.java:208-213 | the value and the new position are those of Float64At, and the order is unchanged |
| IoEnhancedBinaryReader.EnhancedBinaryReader.ReadInt64 | src/main/java/com/onesaf/farm/io/EnhancedBinaryReader.java:220-225 | the value and the new position are those of Int64At, and the order is unchanged |
| IoEnhancedBinaryReader.EnhancedBinaryReader.ReadUInt64 | src/main/java/com/onesaf/farm/io/EnhancedBinaryReader.java:233-237 | the value and the new position are those of Int64At, and the order is unchanged |
| IoEnhancedBinaryReader.EnhancedBinaryReader.ReadBoolean | src/main/java/com/onesaf/farm/io/EnhancedBinaryReader.java:244-247 | the value and the new position are those of BooleanAt, and the order is unchanged |
| IoEnhancedBinaryReader.EnhancedBinaryReader.ReadEnum | src/main/java/com/onesaf/farm/io/EnhancedBinaryReader.java:254-256 | the value and the new position are those of UInt16At, and the order is unchanged |
| IoEnhancedBinaryReader.EnhancedBinaryReader.ReadBytewise | src/main/java/com/onesaf/farm/io/EnhancedBinaryReader.java:303-305 | the value and the new position are those of BytewiseAt, and the order is unchanged |
| IoEnhancedBinaryReader.EnhancedBinaryReader.ReadString | src/main/java/com/onesaf/farm/io/EnhancedBinaryReader.java:324-330 | the value and the new position are those of StringAt, and the order is unchanged |
| IoEnhancedBinaryReader.EnhancedBinaryReader.ReadUuid | src/main/java/com/onesaf/farm/io/EnhancedBinaryReader.java:277-316 | the value and the new position are those of UuidAt, and the order is unchanged |
| IoEnhancedBinaryReader.EnhancedBinaryReader.DetectAndSetByteOrder | src/main/java/com/onesaf/farm/io/EnhancedBinaryReader.java:140-167 | the result and position are those of DetectOrderAt, and the order becomes the one detected |
| IoEnhancedBinaryReader.EnhancedBinaryReader.Skip | src/main/java/com/onesaf/farm/io/EnhancedBinaryReader.java:337-349 | skip moves the position forward by the count, with no end-of-file check |
| IoBinaryReader.ChannelRead | src/main/java/com/onesaf/farm/io/BinaryReader.java:52 | one channel read fills as much of the free buffer as the file still holds, taken from the current channel position |
| IoBinaryReader.BinaryReader.constructor | src/main/java/com/onesaf/farm/io/BinaryReader.java:28-33 | a reader at position 0 with an empty buffer, big-endian |
| IoBinaryReader.BinaryReader.SetByteOrder | src/main/java/com/onesaf/farm/io/BinaryReader.java:39-42 | setByteOrder changes only the order |
| IoBinaryReader.BinaryReader.EnsureAvailable | src/main/java/com/onesaf/farm/io/BinaryReader.java:49-59 | ensureAvailable keeps the position, and succeeds exactly when n bytes remain in the file, leaving at least n buffered |
| IoBinaryReader.BinaryReader.Get | src/main/java/com/onesaf/farm/io/BinaryReader.java:49-69 | a buffered get of n bytes reads what the unbuffered FixedAt reads |
| IoBinaryReader.BinaryReader.ReadByte | src/main/java/com/onesaf/farm/io/BinaryReader.java:66-69 | readByte reads what ByteAt reads |
| IoBinaryReader.BinaryReader.ReadUInt16 | src/main/java/com/onesaf/farm/io/BinaryReader.java:76-79 | readUInt16 returns the signed short of Int16At |
| IoBinaryReader.BinaryReader.ReadUInt32 | src/main/java/com/onesaf/farm/io/BinaryReader.java:86-89 | readUInt32 returns the signed int of Int32At |
| IoBinaryReader.BinaryReader.ReadInt32 | src/main/java/com/onesaf/farm/io/BinaryReader.java:96-99 | readInt32 reads what Int32At reads |
| IoBinaryReader.BinaryReader.ReadInt64 | src/main/java/com/onesaf/farm/io/BinaryReader.java:106-109 | readInt64 reads what Int64At reads |
| IoBinaryReader.BinaryReader.ReadFloat64 | src/main/java/com/onesaf/farm/io/BinaryReader.java:116-119 | readFloat64 reads what Float64At reads |
| IoBinaryReader.BinaryReader.ReadString | src/main/java/com/onesaf/farm/io/BinaryReader.java:127-133 | readString(length) reads what StringAt reads, one byte at a time |
| IoBinaryReader.BinaryReader.Skip | src/main/java/com/onesaf/farm/io/BinaryReader.java:140-152 | skip moves the position forward by a positive count and leaves it for any other |
| IoBinaryReader.SkipPass | src/main/java/com/onesaf/farm/io/BinaryReader.java:141-151 | one pass of the loop as written: the count never grows and shrinks unless the buffer was empty, and the position plus the count stays the same |
| IoBinaryReader.SkipPasses | src/main/java/com/onesaf/farm/io/BinaryReader.java:141-151 | any number of passes keep the position plus the count, and a positive count never goes negative |
| IoBinaryReader.SkipNeverEndsPastEnd | src/main/java/com/onesaf/farm/io/BinaryReader.java:140-152 | when the bytes to skip run past the end of the file, the count stays positive after any number of passes of the loop as written |
| IoBinaryReader.BinaryReader.SkipOrEndOfFile | src/main/java/com/onesaf/farm/io/BinaryReader.java:140-152 | the corrected skip succeeds exactly when the bytes exist and then moves past them; otherwise it fails with an end of file at the end of the file |
| IoBinaryReader.BinaryReader.GetPosition | src/main/java/com/onesaf/farm/io/BinaryReader.java:159-161 | position() is the channel position less the buffered bytes |
| IoBinaryReader.BinaryReader.Seek | src/main/java/com/onesaf/farm/io/BinaryReader.java:168-172 | seek succeeds exactly for a position that is not negative and moves there; a negative one is refused and changes nothing |
| IoBinaryReader.UnsignedNamesReturnSigned | src/main/java/com/onesaf/farm/io/BinaryReader.java:76-89 | readUInt16 and readUInt32 are negative exactly when the top bit is set, and equal the unsigned value modulo 2^16 or 2^32 |
| LegacyFarmFormat.VersionAt | src/main/java/com/onesaf/farm/FeatureAttributeMapping.java:110-115 | readVersion: three little 16-bit values in order, or an end of file |
| LegacyFarmFormat.EnumerantAt | src/main/java/com/onesaf/farm/FeatureAttributeMapping.java:176-178 | one enumerant: the ea code and then the ee code, two 32-bit values |
| LegacyFarmFormat.EnumerantsAt | src/main/java/com/onesaf/farm/FeatureAttributeMapping.java:182-189 | the valid pairs: exactly 8 bytes per pair, or an end of file |
| LegacyFarmFormat.CellAt | src/main/java/com/onesaf/farm/FeatureAttributeMapping.java:143-206 | one cell never moves the cursor backwards or past the end; what each kind of cell holds is stated by CellTag, CellFixedValues, CellEnumeration and CellBoolean of LegacyFarmProperties |
| LegacyFarmFormat.Columns | src/main/java/com/onesaf/farm/FeatureAttributeMapping.java:141-142 | the i-th cell read goes with the i-th column code |
| LegacyFarmFormat.RowOf | src/main/java/com/onesaf/farm/FeatureAttributeMapping.java:138-142 | a row has the width of the largest code plus one |
| LegacyFarmFormat.RowOfSnoc | src/main/java/com/onesaf/farm/FeatureAttributeMapping.java:141-148 | each cell read sets the slot of its column code |
| LegacyFarmFormat.RowOfAt | src/main/java/com/onesaf/farm/FeatureAttributeMapping.java:138-206 | a slot is null when no column has its code, and otherwise holds the cell of the last column with that code |
| LegacyFarmFormat.Width | src/main/java/com/onesaf/farm/FeatureAttributeMapping.java:138 | Collections.max(codes) + 1 fits every code |
| LegacyFarmFormat.MaxCode | src/main/java/com/onesaf/farm/FeatureAttributeMapping.java:138 | Collections.max: not below any code, and one of them |
| LegacyFarmFormat.CodesAt | src/main/java/com/onesaf/farm/FeatureAttributeMapping.java:126-130 | the column codes: one 16-bit value per column, in order |
| LegacyFarmFormat.RowsAt | src/main/java/com/onesaf/farm/FeatureAttributeMapping.java:137-209 | the rows read so far: all of them on success, fewer on a failure |
| LegacyFarmFormat.RowAt | src/main/java/com/onesaf/farm/FeatureAttributeMapping.java:138-208 | a row added to the table is always as wide as the codes need, even when it fails half-filled |
| LegacyFarmFormat.RowCellsAt | src/main/java/com/onesaf/farm/FeatureAttributeMapping.java:141-208 | the cells of one row so far: all of them on success |
| LegacyFarmFormat.FarmTableAt | src/main/java/com/onesaf/farm/FeatureAttributeMapping.java:120-210 | readFarmTable never moves the cursor backwards or past the end; its shape is stated by FarmTableShape |
| LegacyFarmFormat.LabelEntryAt | src/main/java/com/onesaf/farm/FeatureAttributeMapping.java:220-225 | one label entry succeeds exactly when the string, a geometry of at most 3 and the category are there: the key is the label bytes with that geometry, the category is the 16-bit value after it, and the cursor ends 4 bytes past the string; a geometry above 3 fails with IllegalArgumentException right after it; any other failure is an IOException |
| LegacyFarmFormat.LabelEntriesAt | src/main/java/com/onesaf/farm/FeatureAttributeMapping.java:219-226 | the entries read so far: all of them on success |
| LegacyFarmFormat.LabelsAt | src/main/java/com/onesaf/farm/FeatureAttributeMapping.java:215-227 | the label map is consistent with the cursor; its contents are stated by LabelsAreLastWrites |
| LegacyFarmFormat.LabelsAreLastWrites | src/main/java/com/onesaf/farm/FeatureAttributeMapping.java:215-227 | the label map is built from the entries read, holds a key exactly when an entry has it, keeps the category of its last entry, and has at most mapSize keys |
| LegacyFarmFormat.FeatureAt | src/main/java/com/onesaf/farm/FeatureAttributeMapping.java:274-286 | readFeature: the category is the 32-bit value read first and the label the string after it; when that string is there the rest is FeatureFieldsAt, otherwise it fails with an IOException |
| LegacyFarmFormat.FeatureFieldsAt | src/main/java/com/onesaf/farm/FeatureAttributeMapping.java:279-283 | the rest of readFeature succeeds exactly when 20 bytes are there and the geometry at offset 4 is 0 to 3; the code, geometry, usage bitmask, precedence and overlay size are then the five 32-bit values in order; a bad geometry fails with IllegalArgumentException right after it, and any other failure is an end of file |
| LegacyFarmFormat.CategoryEntryAt | src/main/java/com/onesaf/farm/FeatureAttributeMapping.java:238-239 | a category entry carries the 16-bit category read first |
| LegacyFarmFormat.CategoryEntriesAt | src/main/java/com/onesaf/farm/FeatureAttributeMapping.java:237-247 | the entries read so far: all of them on success |
| LegacyFarmFormat.CategoriesAt | src/main/java/com/onesaf/farm/FeatureAttributeMapping.java:232-248 | the category list is consistent with the cursor; see IndexedListHolds and GeometryOfStored for its contents |
| LegacyFarmFormat.AttributeAt | src/main/java/com/onesaf/farm/FeatureAttributeMapping.java:291-301 | readAttribute: the label is the string read first; when it is there the rest is AttributeFieldsAt, otherwise it fails with an IOException |
| LegacyFarmFormat.AttributeFieldsAt | src/main/java/com/onesaf/farm/FeatureAttributeMapping.java:296-299 | the rest of readAttribute succeeds exactly when 16 bytes are there, the data type is 0 to 7 and the units 0 to 12; the code, data type, units and editability (true unless the last value is 0) are then the four 32-bit values in order; a bad data type or bad units fail with IllegalArgumentException right after that value, and any other failure is an end of file |
| LegacyFarmFormat.AttributeEntryAt | src/main/java/com/onesaf/farm/FeatureAttributeMapping.java:258-267 | an entry with a negative 32-bit code fails with IndexOutOfBoundsException once its attribute is read; a successful one carries the code |
| LegacyFarmFormat.AttributeEntriesAt | src/main/java/com/onesaf/farm/FeatureAttributeMapping.java:258-268 | the entries read so far: all of them on success |
| LegacyFarmFormat.AttributesAt | src/main/java/com/onesaf/farm/FeatureAttributeMapping.java:253-269 | the attribute list is consistent with the cursor; see IndexedListHolds for its contents |
| LegacyFarmFormat.IndexedListHolds | src/main/java/com/onesaf/farm/FeatureAttributeMapping.java:242-246 | the grown list is just long enough for the largest index written, a slot never written is null, and a written slot holds its last value |
| LegacyFarmFormat.Caught | src/main/java/com/onesaf/farm/FeatureAttributeMapping.java:100-104 | `read` turns an IOException into false, with that failure as its reason, and lets every other exception escape |
| LegacyFarmFormat.SectionsAt | src/main/java/com/onesaf/farm/FeatureAttributeMapping.java:83-96 | the four sections are read in order from where the version ends: read succeeds exactly when all four do, and then holds the farm table, label map, category list and attribute list they read; the first section that fails decides the outcome through Caught, and keeps what it and the sections before it had read |
| LegacyFarmFormat.ReadAt | src/main/java/com/onesaf/farm/FeatureAttributeMapping.java:54-105 | an unreadable file fails as Unreadable, a marker that is not the host's as WrongByteOrder, and a file too short for the marker and version with an end of file, each with nothing changed; otherwise the outcome is SectionsAt from offset 8, whatever the version is; a success therefore had such a file |
| LegacyFarmFormat.GeometryOf | src/main/java/com/onesaf/farm/FeatureAttributeMapping.java:313-325 | getFeatureGeometry finds a geometry exactly for an in-range category whose slot is not null |
| LegacyFarmFormat.AttributeOf | src/main/java/com/onesaf/farm/FeatureAttributeMapping.java:330-342 | getAttribute finds an attribute exactly for an in-range code whose slot is not null |
| LegacyFarmFormat.FeatureOf | src/main/java/com/onesaf/farm/FeatureAttributeMapping.java:347-366 | getFeature finds a feature exactly when the key is mapped to an in-range category whose slot is not null |
| LegacyFarmFormat.GeometryOfStored | src/main/java/com/onesaf/farm/FeatureAttributeMapping.java:232-248 | after reading the category section, getFeatureGeometry gives the geometry of the last feature stored under a category, and nothing when none was |
| LegacyFarmProperties.EnumerantsAreThePairsRead | src/main/java/com/onesaf/farm/FeatureAttributeMapping.java:182-190 | an enumerant is in the valid set exactly when one of the pairs read is that enumerant; duplicates collapse |
| LegacyFarmProperties.EnumerantsSnoc | src/main/java/com/onesaf/farm/FeatureAttributeMapping.java:184-189 | each pair read is added to the set |
| LegacyFarmProperties.CellTag | src/main/java/com/onesaf/farm/FeatureAttributeMapping.java:143-206 | a missing discriminant is an end of file, one above 6 fails with an IOException right after it, and a decoded cell is null exactly for 0 |
| LegacyFarmProperties.CellFixedPayload | src/main/java/com/onesaf/farm/FeatureAttributeMapping.java:145-204 | cells other than the enumeration one occupy their fixed payload size (16, 28, 4, 8 or 4 bytes) or fail with an end of file |
| LegacyFarmProperties.CellPayload | src/main/java/com/onesaf/farm/FeatureAttributeMapping.java:150-204 | the same, for one given discriminant |
| LegacyFarmProperties.CellFixedValues | src/main/java/com/onesaf/farm/FeatureAttributeMapping.java:150-203 | a decoded int32 cell holds the offset, default, minimum and maximum as the four 32-bit values after the discriminant; a float64 cell the offset and then the bits of three 64-bit doubles; a string or UUID cell the 32-bit offset alone |
| LegacyFarmProperties.CellEnumeration | src/main/java/com/onesaf/farm/FeatureAttributeMapping.java:171-193 | an enumeration cell holds its offset, its default pair and the set of the pairs of its counted tail; a negative count reads none |
| LegacyFarmProperties.CellBoolean | src/main/java/com/onesaf/farm/FeatureAttributeMapping.java:194-199 | a boolean cell is true unless its 32-bit default is zero |
| LegacyFarmProperties.RowsShape | src/main/java/com/onesaf/farm/FeatureAttributeMapping.java:137-140 | every row is as wide as the largest code plus one; with rows but no columns the read throws NoSuchElementException before reading anything |
| LegacyFarmProperties.FarmTableShape | src/main/java/com/onesaf/farm/FeatureAttributeMapping.java:120-210 | a table read in full has numRows rows, each as wide as the largest code plus one; numRows > 0 with numColumns == 0 throws NoSuchElementException |
| FeatureAttributeMappings.FeatureAttributeMapping.constructor | src/main/java/com/onesaf/farm/FeatureAttributeMapping.java:25-44 | a decoder that is not initialized, with empty collections |
| FeatureAttributeMappings.FeatureAttributeMapping.Read | src/main/java/com/onesaf/farm/FeatureAttributeMapping.java:54-105 | read returns true at once when initialized; otherwise the outcome and collections are those of ReadAt, and the decoder is initialized exactly on success |
| FeatureAttributeMappings.FeatureAttributeMapping.ReadSections | src/main/java/com/onesaf/farm/FeatureAttributeMapping.java:85-98 | the four sections fill their collections in the order of SectionsAt, leaving a failed section as far as it got |
| FeatureAttributeMappings.FeatureAttributeMapping.ReadVersion | src/main/java/com/onesaf/farm/FeatureAttributeMapping.java:110-115 | readVersion reads what VersionAt reads |
| FeatureAttributeMappings.FeatureAttributeMapping.ReadDataType | src/main/java/com/onesaf/farm/FeatureAttributeMapping.java:143-206 | one cell read by the switch is the CellAt cell |
| FeatureAttributeMappings.FeatureAttributeMapping.ReadValidEnums | src/main/java/com/onesaf/farm/FeatureAttributeMapping.java:182-190 | the valid-enum loop builds the EnumerantsAt set; a negative count reads none |
| FeatureAttributeMappings.FeatureAttributeMapping.ReadEnumerant | src/main/java/com/onesaf/farm/FeatureAttributeMapping.java:176-178 | one pair is the EnumerantAt pair |
| FeatureAttributeMappings.FeatureAttributeMapping.ReadFarmTable | src/main/java/com/onesaf/farm/FeatureAttributeMapping.java:120-210 | readFarmTable leaves the table and cursor of FarmTableAt and touches no other collection |
| FeatureAttributeMappings.FeatureAttributeMapping.ReadCodes | src/main/java/com/onesaf/farm/FeatureAttributeMapping.java:126-130 | the code loop reads what CodesAt reads |
| FeatureAttributeMappings.FeatureAttributeMapping.ReadRows | src/main/java/com/onesaf/farm/FeatureAttributeMapping.java:137-209 | the row loop builds the RowsAt table |
| FeatureAttributeMappings.FeatureAttributeMapping.ReadRow | src/main/java/com/onesaf/farm/FeatureAttributeMapping.java:138-139 | one more row extends the table as RowsAt does for one more row |
| FeatureAttributeMappings.FeatureAttributeMapping.ReadRowCells | src/main/java/com/onesaf/farm/FeatureAttributeMapping.java:141-208 | the cell loop fills the row as RowAt does |
| FeatureAttributeMappings.FeatureAttributeMapping.ReadLabelEntry | src/main/java/com/onesaf/farm/FeatureAttributeMapping.java:220-224 | one label entry is the LabelEntryAt entry |
| FeatureAttributeMappings.FeatureAttributeMapping.ReadFeatureLabelsAndGeometriesToCategories | src/main/java/com/onesaf/farm/FeatureAttributeMapping.java:215-227 | the label map becomes the LabelsAt map and no other collection changes |
| FeatureAttributeMappings.FeatureAttributeMapping.ReadFeature | src/main/java/com/onesaf/farm/FeatureAttributeMapping.java:274-286 | readFeature reads what FeatureAt reads |
| FeatureAttributeMappings.FeatureAttributeMapping.ReadFeatureFields | src/main/java/com/onesaf/farm/FeatureAttributeMapping.java:279-283 | the five reads after the label give what FeatureFieldsAt gives |
| FeatureAttributeMappings.FeatureAttributeMapping.ReadCategoryEntry | src/main/java/com/onesaf/farm/FeatureAttributeMapping.java:238-239 | one category entry is the CategoryEntryAt entry |
| FeatureAttributeMappings.FeatureAttributeMapping.ReadFeatureCategoriesToFeatures | src/main/java/com/onesaf/farm/FeatureAttributeMapping.java:232-248 | the category list becomes the CategoriesAt list and no other collection changes |
| FeatureAttributeMappings.FeatureAttributeMapping.ReadAttribute | src/main/java/com/onesaf/farm/FeatureAttributeMapping.java:291-301 | readAttribute reads what AttributeAt reads |
| FeatureAttributeMappings.FeatureAttributeMapping.ReadAttributeFields | src/main/java/com/onesaf/farm/FeatureAttributeMapping.java:296-299 | the four reads after the label give what AttributeFieldsAt gives |
| FeatureAttributeMappings.FeatureAttributeMapping.ReadAttributeEntry | src/main/java/com/onesaf/farm/FeatureAttributeMapping.java:259-260 | one attribute entry is the AttributeEntryAt entry |
| FeatureAttributeMappings.FeatureAttributeMapping.ReadAttributeCodesToAttributes | src/main/java/com/onesaf/farm/FeatureAttributeMapping.java:253-269 | the attribute list becomes the AttributesAt list and no other collection changes |
| FeatureAttributeMappings.FeatureAttributeMapping.GetFeatureGeometry | src/main/java/com/onesaf/farm/FeatureAttributeMapping.java:313-325 | the method answers what GeometryOf says |
| FeatureAttributeMappings.FeatureAttributeMapping.GetAttribute | src/main/java/com/onesaf/farm/FeatureAttributeMapping.java:330-342 | the method answers what AttributeOf says |
| FeatureAttributeMappings.FeatureAttributeMapping.GetFeature | src/main/java/com/onesaf/farm/FeatureAttributeMapping.java:347-366 | the method answers what FeatureOf says |
| FeatureAttributeMappings.FeatureAttributeMapping.Destroy | src/main/java/com/onesaf/farm/FeatureAttributeMapping.java:371-386 | destroy empties every collection and clears initialized, but only when initialized |
| FeatureAttributeMappings.PadWithNulls | src/main/java/com/onesaf/farm/FeatureAttributeMapping.java:242-244 | the padding loop adds nulls until the index is in range, and nothing for an index already in range or negative |
| FeatureAttributeMappings.PutGrowing | src/main/java/com/onesaf/farm/FeatureAttributeMapping.java:242-246 | pad then set: GrowAndSet |
| Containers.GrowAndSet | src/main/java/com/onesaf/farm/FeatureAttributeMapping.java:242-246 | the list grows to index + 1 with nulls only when needed; the index holds the value and every other slot is unchanged or a new null |
| Containers.UpsertsLastWins | src/main/java/com/onesaf/farm/FeatureAttributeMapping.java:225 | a map built by puts holds a key exactly when some put had it, with the value of the last such put |
| Containers.UpsertsSize | src/main/java/com/onesaf/farm/FeatureAttributeMapping.java:225 | a map built by n puts has at most n keys |
| Containers.ScatterAt | src/main/java/com/onesaf/farm/FeatureAttributeMapping.java:148-203 | a slot set in place holds its last write, or its old value when never written |
| FarmFormat.OrderOfMarker | src/main/java/com/onesaf/farm/parser/FarmParser.java:48-54 | the marker picks little-endian exactly when it is 1 |
| FarmFormat.VersionAt | src/main/java/com/onesaf/farm/parser/FarmParser.java:99-105 | parseVersion: three 16-bit values, six bytes, or an end of file |
| FarmFormat.CodesAt | src/main/java/com/onesaf/farm/parser/FarmParser.java:118-121 | the attribute codes: four bytes each, one per attribute |
| FarmFormat.EnumerantAt | src/main/java/com/onesaf/farm/parser/FarmParser.java:176-178 | one enumerant: attribute code then enumerant code, eight bytes |
| FarmFormat.EnumerantsAt | src/main/java/com/onesaf/farm/parser/FarmParser.java:183-189 | the valid enums, in the order read: eight bytes each |
| FarmFormat.DataTypeAt | src/main/java/com/onesaf/farm/parser/FarmParser.java:138-213 | the record keeps the 16-bit discriminant as a short, read first |
| FarmFormat.RecordsAt | src/main/java/com/onesaf/farm/parser/FarmParser.java:125-129 | one record per loop pass |
| FarmFormat.FarmTableAt | src/main/java/com/onesaf/farm/parser/FarmParser.java:110-133 | parseFarmTable reads the two counts first |
| FarmFormat.LabelEntryAt | src/main/java/com/onesaf/farm/parser/FarmParser.java:222-240 | a label entry succeeds exactly when a 16-bit length, that many bytes, a pad byte when the length is odd and the 16-bit geometry are there; the key is those label bytes with the geometry as a short, and any failure is an end of file |
| FarmFormat.LabelEntriesAt | src/main/java/com/onesaf/farm/parser/FarmParser.java:222-244 | one entry per loop pass |
| FarmFormat.FlagMapAt | src/main/java/com/onesaf/farm/parser/FarmParser.java:218-247 | parseFlagToFeatCategoryMap has at most mapSize keys, and every failure is an end of file; FlagMapLastIndex states the keys and values |
| FarmFormat.FeatureAt | src/main/java/com/onesaf/farm/parser/FarmParser.java:276-285 | parseFeature succeeds exactly when 24 bytes are there and then consumes them |
| FarmFormatProperties.FeatureFields | src/main/java/com/onesaf/farm/parser/FarmParser.java:276-285 | the six fields are the 32-bit values in order: category, code, geometry, usage bitmask, precedence and overlay size |
| FarmFormat.CategoryEntryAt | src/main/java/com/onesaf/farm/parser/FarmParser.java:256-264 | a category entry: the 16-bit category, two pad bytes and a feature, 28 bytes |
| FarmFormat.CategoryEntriesAt | src/main/java/com/onesaf/farm/parser/FarmParser.java:256-268 | 28 bytes per entry |
| FarmFormat.CategoryMapAt | src/main/java/com/onesaf/farm/parser/FarmParser.java:252-271 | parseFeatureCategoryToFeatureMap takes 28 bytes per entry and has at most mapSize keys; every failure is an end of file; CategoryMapLastWins states the keys and values |
| FarmFormat.AttributeAt | src/main/java/com/onesaf/farm/parser/FarmParser.java:311-318 | parseAttribute succeeds exactly when 16 bytes are there; the code, data type, units and editability are the four 32-bit values in order |
| FarmFormat.AttributeEntryAt | src/main/java/com/onesaf/farm/parser/FarmParser.java:294-299 | an attribute entry: its 32-bit code then the attribute, 20 bytes |
| FarmFormat.AttributeEntriesAt | src/main/java/com/onesaf/farm/parser/FarmParser.java:294-303 | 20 bytes per entry |
| FarmFormat.AttributeMapAt | src/main/java/com/onesaf/farm/parser/FarmParser.java:290-306 | parseAttributeCodeToAttributeMap takes 20 bytes per entry and has at most mapSize keys; every failure is an end of file; AttributeMapLastWins states the keys and values |
| FarmFormat.MapsAt | src/main/java/com/onesaf/farm/parser/FarmParser.java:68-88 | the three map sections: the label map has at most as many keys as the 16-bit size that starts the section, the sections take at least the three sizes plus 28 bytes per category and 20 per attribute, and every failure is an end of file; MapsLayout states the maps |
| FarmFormat.FileAt | src/main/java/com/onesaf/farm/parser/FarmParser.java:35-94 | a parsed file has at least the 8 bytes of marker and version |
| FarmFormatProperties.FileLayout | src/main/java/com/onesaf/farm/parser/FarmParser.java:42-65 | a parsed file's marker is 1 exactly for the bytes 01 00 or 00 01, which selects little-endian; the version is the three shorts at offsets 2, 4 and 6 in that order, the farm table is the one read at offset 8, and the three maps are those read right after it |
| FarmFormatProperties.MapsLayout | src/main/java/com/onesaf/farm/parser/FarmParser.java:68-88 | the three maps come one after the other, each after its 16-bit size: the label map read by FlagMapAt, the category map by CategoryMapAt and the attribute map by AttributeMapAt, so FlagMapLastIndex, CategoryMapLastWins and AttributeMapLastWins describe them |
| FarmFormatProperties.DataTypeFixedLayout | src/main/java/com/onesaf/farm/parser/FarmParser.java:146-209 | a record other than an enumeration takes 2 bytes plus its payload (16 for int32, 28 for float64, 4 for string and UUID, 8 for boolean, none for 0, and 4 skipped unread for an unknown discriminant), keeps the discriminant as a short, and has no data type exactly for 0 or above 6 |
| FarmFormatProperties.DataTypeFixedValues | src/main/java/com/onesaf/farm/parser/FarmParser.java:150-204 | the fields of the int32, float64, string, boolean and UUID records are the 32- and 64-bit values that follow the discriminant, in order |
| FarmFormatProperties.DataTypeEnumeration | src/main/java/com/onesaf/farm/parser/FarmParser.java:171-193 | an enumeration record fails with IllegalArgumentException for a negative count; otherwise it holds offset, default and the enumerants read, and takes 18 + 8 * count bytes |
| FarmFormatProperties.DataTypeMatchesEnumeration | src/main/java/com/onesaf/farm/parser/FarmParser.java:21-27 | the parser's discriminant constants agree with AttributeDataType: each decoded record's kind is fromValue of its discriminant, and no data type is kept exactly for NO_DATA_TYPE, DELETED and unknown codes |
| FarmFormatProperties.CodesSize | src/main/java/com/onesaf/farm/parser/FarmParser.java:118-121 | the codes read succeed exactly when four bytes per code are there |
| FarmFormatProperties.EnumerantsSize | src/main/java/com/onesaf/farm/parser/FarmParser.java:183-189 | the enumerants read succeed exactly when eight bytes per pair are there |
| FarmFormatProperties.CategoryEntriesSize | src/main/java/com/onesaf/farm/parser/FarmParser.java:256-268 | the category entries succeed exactly when 28 bytes per entry are there |
| FarmFormatProperties.AttributeEntriesSize | src/main/java/com/onesaf/farm/parser/FarmParser.java:294-303 | the attribute entries succeed exactly when 20 bytes per entry are there |
| FarmFormatProperties.CodeAtIndex | src/main/java/com/onesaf/farm/parser/FarmParser.java:119-121 | the i-th code is the 32-bit value at offset 4 * i |
| FarmFormatProperties.EnumerantAtIndex | src/main/java/com/onesaf/farm/parser/FarmParser.java:184-189 | the i-th valid enum is the pair at offset 8 * i |
| FarmFormatProperties.RecordAtIndex | src/main/java/com/onesaf/farm/parser/FarmParser.java:126-129 | the i-th record is the one parsed where the first i records end |
| FarmFormatProperties.FarmTableLayout | src/main/java/com/onesaf/farm/parser/FarmParser.java:110-133 | a parsed table holds the two short counts, attributeCount codes read at offset 4, and featureCount * attributeCount records after them |
| FarmFormatProperties.FarmTableNegativeCount | src/main/java/com/onesaf/farm/parser/FarmParser.java:115-118 | a negative attribute count fails with IllegalArgumentException right after the counts are read |
| FarmFormatProperties.LabelEntryAtIndex | src/main/java/com/onesaf/farm/parser/FarmParser.java:222-243 | entry i of the label map is the key parsed where the first i entries end, put with the value i |
| FarmFormatProperties.FlagMapLastIndex | src/main/java/com/onesaf/farm/parser/FarmParser.java:218-247 | every key read is in the map, and each key maps to the index of its last occurrence; the map has at most mapSize keys |
| FarmFormatProperties.CategoryMapLastWins | src/main/java/com/onesaf/farm/parser/FarmParser.java:252-271 | entry i sits at offset 28 * i; a category is in the map exactly when an entry has it, mapped to its last feature |
| FarmFormatProperties.CategoryEntryAtIndex | src/main/java/com/onesaf/farm/parser/FarmParser.java:256-264 | the i-th category entry is the one at offset 28 * i |
| FarmFormatProperties.AttributeMapLastWins | src/main/java/com/onesaf/farm/parser/FarmParser.java:290-306 | entry i sits at offset 20 * i; a code is in the map exactly when an entry has it, mapped to its last attribute |
| FarmFormatProperties.AttributeEntryAtIndex | src/main/java/com/onesaf/farm/parser/FarmParser.java:294-299 | the i-th attribute entry is the one at offset 20 * i |
| FarmParsers.Parse | src/main/java/com/onesaf/farm/parser/FarmParser.java:35-94 | parse returns exactly the file, or the first failure, that FileAt gives for the bytes |
| FarmParsers.ParseVersion | src/main/java/com/onesaf/farm/parser/FarmParser.java:99-105 | the loop or reads leave the value and reader position of VersionAt, with the byte order unchanged |
| FarmParsers.ParseFarmTable | src/main/java/com/onesaf/farm/parser/FarmParser.java:110-133 | the loop or reads leave the value and reader position of FarmTableAt, with the byte order unchanged |
| FarmParsers.ParseAttributeCodes | src/main/java/com/onesaf/farm/parser/FarmParser.java:118-121 | the loop or reads leave the value and reader position of CodesAt, with the byte order unchanged |
| FarmParsers.ParseDataTypes | src/main/java/com/onesaf/farm/parser/FarmParser.java:125-129 | the loop or reads leave the value and reader position of RecordsAt, with the byte order unchanged |
| FarmParsers.ParseSpecifiedDataType | src/main/java/com/onesaf/farm/parser/FarmParser.java:138-213 | the loop or reads leave the value and reader position of DataTypeAt, with the byte order unchanged |
| FarmParsers.ParseEnumerant | src/main/java/com/onesaf/farm/parser/FarmParser.java:176-178 | the loop or reads leave the value and reader position of EnumerantAt, with the byte order unchanged |
| FarmParsers.ParseValidEnums | src/main/java/com/onesaf/farm/parser/FarmParser.java:183-189 | the loop or reads leave the value and reader position of EnumerantsAt, with the byte order unchanged |
| FarmParsers.ParseFlagToFeatCategoryMap | src/main/java/com/onesaf/farm/parser/FarmParser.java:218-247 | the loop or reads leave the value and reader position of FlagMapAt, with the byte order unchanged |
| FarmParsers.ParseFlagEntry | src/main/java/com/onesaf/farm/parser/FarmParser.java:224-240 | the loop or reads leave the value and reader position of LabelEntryAt, with the byte order unchanged |
| FarmParsers.ParseFeatureCategoryToFeatureMap | src/main/java/com/onesaf/farm/parser/FarmParser.java:252-271 | the loop or reads leave the value and reader position of CategoryMapAt, with the byte order unchanged |
| FarmParsers.ParseCategoryEntry | src/main/java/com/onesaf/farm/parser/FarmParser.java:258-264 | the loop or reads leave the value and reader position of CategoryEntryAt, with the byte order unchanged |
| FarmParsers.ParseFeature | src/main/java/com/onesaf/farm/parser/FarmParser.java:276-285 | the loop or reads leave the value and reader position of FeatureAt, with the byte order unchanged |
| FarmParsers.ParseAttributeCodeToAttributeMap | src/main/java/com/onesaf/farm/parser/FarmParser.java:290-306 | the loop or reads leave the value and reader position of AttributeMapAt, with the byte order unchanged |
| FarmParsers.ParseAttributeEntry | src/main/java/com/onesaf/farm/parser/FarmParser.java:296-299 | the loop or reads leave the value and reader position of AttributeEntryAt, with the byte order unchanged |
| FarmParsers.ParseAttribute | src/main/java/com/onesaf/farm/parser/FarmParser.java:311-318 | the loop or reads leave the value and reader position of AttributeAt, with the byte order unchanged |

## Left out

- **File system.** Opening the file, the directory check
  (`DirectoryUtil.isFileReadable`) and closing the streams are not
  modelled. The legacy `read` takes the file as an optional byte
  sequence, with no file meaning an unreadable file. `parse` takes the
  bytes.
- **Host byte order.** `ByteOrder.nativeOrder()` is the parameter
  `hostLittleEndian`.
- **Logging.** It is left out. The legacy comparison of the version with
  `EXPECTED_VERSION` (8.0.0) only logs, so the model reads the version
  and does not compare it.
- **Floating point.** `float` and `double` values are kept as their 32 and
  64 bits (`Float32Bits`, `Float64Bits`). No arithmetic is done on them.
- **Strings.** Labels are kept as the bytes read. UTF-8 decoding into a
  Java `String` is not modelled, so two labels are equal when their bytes
  are.
- **Unused reader operations.** These are not used by either decoder, so
  the model leaves them out: `readByte6`, `readGdcSlice`, `position`,
  `seek`, `size`, `close` and `finalize` of `io/EnhancedBinaryReader`;
  `getByteOrder` and `close` of `util/BinaryReader`; `close` of
  `io/BinaryReader`.
- **Buffering in `io/EnhancedBinaryReader`.** Its buffer refill is not
  modelled. Reads work on the byte sequence at the reader's position,
  and a read that fails leaves the position as `ensureAvailable` leaves
  it. A channel read is assumed to deliver every byte left in the file up
  to the buffer size, which is what a file channel does.
- IoEnhancedBinaryReader.EnhancedBinaryReader.Skip: a negative count is
  not modelled (the count is a `nat`), because the decoder only skips 1,
  2 or 4 bytes.
- IoBinaryReader.BinaryReader.Skip: requires the bytes to skip to exist,
  because past the end of the file the source loop never ends (the
  channel read adds nothing and the count stays positive; see
  "## Findings").
- UtilBinaryReader.BinaryReader.StreamSkip: `InputStream.skip` is
  modelled as stopping at the end of the data. A `FileInputStream` may
  skip past the end, in which case `skip` would succeed where the model
  reports an end of file.
- **The never-filled attribute map.** The legacy decoder's
  `attributeLabelsToAttributes` is only ever cleared. It is a field of
  the class, and no operation fills it.
- **Getters.** `isInitialized` and the Lombok getters are plain field
  reads (`initialized`, `Contents()`).
- **Lombok setters.** The no-argument `EnumerantDataType` constructor and
  its setters, which the legacy decoder uses, do not check that the
  default is valid. The legacy `DataType` cell therefore holds the three
  fields without going through `EnumerantDataTypes.Create`.
- **Newer decoder's model classes.** The `model/` value classes used by
  `parser/FarmParser` are datatypes with the fields the parser sets:
  - `validEnums` is a sequence, because the parser builds a `List`;
  - a label key's geometry is the 16-bit value as read.
- LegacyFarmFormat.CellAt, LegacyFarmFormat.FarmTableAt,
  LegacyFarmFormat.LabelsAt, LegacyFarmFormat.CategoriesAt and
  LegacyFarmFormat.AttributesAt: their own contracts only bound the
  cursor. What they read is stated by CellTag, CellFixedPayload,
  CellFixedValues, CellEnumeration, CellBoolean, FarmTableShape,
  LabelsAreLastWrites, IndexedListHolds and GeometryOfStored.
- FarmFormat.DataTypeAt, FarmFormat.FarmTableAt, FarmFormat.VersionAt,
  FarmFormat.FeatureAt and FarmFormat.FileAt: their own contracts are
  partial. Their layout and values are stated by the FarmFormatProperties
  lemmas (DataTypeFixedLayout, FarmTableLayout, FileLayout, FeatureFields
  and MapsLayout).
- LegacyFarmFormat.ReadAt: `failureReason` is modelled by the kind of
  failure only (Unreadable, WrongByteOrder, or the IOException caught).
  The message text, the file path and the exception message are not.
- **Concurrency and object identity.** Java's object identity, and the
  `equals`/`hashCode` that Lombok generates, are value equality of
  datatypes.

## Findings

| source | as written | input that shows it | evidently intended | confidence | as-written member | corrected member |
|---|---|---|---|---|---|---|
| src/main/java/com/onesaf/farm/io/EnhancedBinaryReader.java:308-313 | `readUUID` first puts clock_seq_hi_and_reserved and clock_seq_low at bits 56 and 48. It then shifts the 64-bit value left by 8 six times while adding the node bytes, so both clock-sequence bytes fall off the top and the least significant half is the 48-bit node alone | sixteen zero bytes, and the same bytes with byte 8 set to 0x80, decode to the same UUID | the least significant half is bytes 8 to 16 read big-endian, as section 4.1.2 of RFC 4122 lays them out and as the legacy `util/BinaryReader.readUUID` reads them | high; not executed | IoEnhancedBinaryReader.ClockSequenceLost | IoEnhancedBinaryReader.IntendedUuidMatchesLegacy |
| src/main/java/com/onesaf/farm/io/BinaryReader.java:140-152 | `skip` loops while bytes remain. Each pass skips what is buffered, then clears the buffer and refills it with one channel read. It never checks whether that read brought anything | a file of 4 bytes and `skip(8)` at position 0: the first refill brings the 4 bytes and the next pass skips them; every channel read after that returns -1, so the count stays 4 and the loop repeats forever | an end of file, as every read of the same reader reports when the bytes are missing | high; not executed | IoBinaryReader.SkipNeverEndsPastEnd | IoBinaryReader.BinaryReader.SkipOrEndOfFile |

Neither decoder calls `readUUID`, because a UUID cell of the farm table
carries only an offset. The correction therefore changes no decoded
file. `IoEnhancedBinaryReader.EnhancedBinaryReader.ReadUuid` keeps the
behaviour as written, and `IntendedUuidAt` is the reading a caller
should rely on.

Neither decoder uses `io/BinaryReader`, so the corrected `skip` changes
no decoded file either. `IoBinaryReader.BinaryReader.Skip` keeps the
loop as written, under the requirement that the bytes exist, and
`SkipOrEndOfFile` is the behaviour a caller should rely on.
