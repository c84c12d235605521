/** What the newer file format promises: where each part of the file sits,
    which payload each discriminant selects, that lists are kept in file
    order, and which entry a map keeps when a key repeats. */
module FarmFormatProperties {
  import opened Results
  import opened Bytes
  import opened Containers
  import opened EnumerantDataTypes
  import opened FarmFormat
  import opened FarmFormatSteps
  import A = AttributeDataTypes
  import E = IoEnhancedBinaryReader

  /** The marker is read in the order the first two bytes suggest, so both
      encodings of 1 (01 00 and 00 01) select little-endian and everything
      else big-endian; the version then sits at 2 and the farm table at 8,
      read in the selected order. */
  lemma FileLayout(data: seq<byte>)
    requires FileAt(data).result.Ok?
    ensures var f := FileAt(data).result.value;
            var order := OrderOfMarker(f.endianness);
            (f.endianness == 1 <==> (data[0] == 1 && data[1] == 0) || (data[0] == 0 && data[1] == 1)) &&
            (order == LittleEndian <==> f.endianness == 1) &&
            f.version == Version(ToInt16(Unsigned16(order, data, 2)), ToInt16(Unsigned16(order, data, 4)), ToInt16(Unsigned16(order, data, 6))) &&
            FarmTableAt(order, data, 8).result == Ok(f.farmTable) &&
            MapsAt(order, data, FarmTableAt(order, data, 8).next).result ==
              Ok((f.flagToFeatCategoryMap, f.featCategoryToFeatureMap, f.attributeCodeToAttributeMap))
  {
    var detected := E.DetectOrderAt(data, 0);
    var marker := Unsigned16(detected.result.value, data, 0);
    assert ToInt16(marker) == 1 <==> marker == 1;
  }

  /** The three maps follow one another, each after its 16-bit size, so
      each map of a parsed file is the one FlagMapLastIndex,
      CategoryMapLastWins or AttributeMapLastWins describes. */
  lemma MapsLayout(order: ByteOrder, data: seq<byte>, p: nat)
    requires MapsAt(order, data, p).result.Ok?
    ensures var m := MapsAt(order, data, p).result.value;
            var labelCount := E.UInt16At(order, data, p);
            labelCount.result.Ok? &&
            var labels := FlagMapAt(order, data, labelCount.next, labelCount.result.value);
            labels.result == Ok(m.0) && labels.next >= 0 &&
            var categoryCount := E.UInt16At(order, data, labels.next);
            categoryCount.result.Ok? &&
            var categories := CategoryMapAt(order, data, categoryCount.next, categoryCount.result.value);
            categories.result == Ok(m.1) && categories.next >= 0 &&
            var attributeCount := E.UInt16At(order, data, categories.next);
            attributeCount.result.Ok? &&
            AttributeMapAt(order, data, attributeCount.next, attributeCount.result.value).result == Ok(m.2)
  {
  }

  /** Each data type other than the enumeration: its size, when it decodes,
      and that the data type is null exactly for discriminant 0 and for a
      discriminant above 6 (DELETED included), whose four bytes are skipped
      without reading, even past the end. */
  lemma DataTypeFixedLayout(order: ByteOrder, data: seq<byte>, p: nat)
    requires p + 2 <= |data| && Unsigned16(order, data, p) != 4
    ensures var tag := Unsigned16(order, data, p);
            var r := DataTypeAt(order, data, p);
            (r.result.Ok? <==> tag == 0 || tag > 6 || p + 2 + PayloadSize(tag) <= |data|) &&
            (r.result.Ok? ==> r.next == p + 2 + PayloadSize(tag) &&
                              r.result.value.attributeDataType == ToInt16(tag) &&
                              (r.result.value.dataType.None? <==> tag == 0 || tag > 6)) &&
            (r.result.Fail? ==> r.result == Fail(IO(EndOfFile)))
  {
    var tag := Unsigned16(order, data, p);
    if tag == 1 || tag == 2 {
      WideLayout(order, data, p);
    } else if tag == 5 {
    } else if tag == 3 || tag == 6 {
      assert PayloadSize(tag) == 4;
    }
  }

  /** The int32 and float64 data types: four 32-bit values, or a 32-bit
      offset and three 64-bit values. */
  lemma WideLayout(order: ByteOrder, data: seq<byte>, p: nat)
    requires p + 2 <= |data| && (Unsigned16(order, data, p) == 1 || Unsigned16(order, data, p) == 2)
    ensures var tag := Unsigned16(order, data, p);
            var r := DataTypeAt(order, data, p);
            (r.result.Ok? <==> p + 2 + PayloadSize(tag) <= |data|) &&
            (r.result.Ok? ==> r.next == p + 2 + PayloadSize(tag) && r.result.value.dataType.Some?) &&
            (r.result.Fail? ==> r.result == Fail(IO(EndOfFile)))
  {
    if Unsigned16(order, data, p) == 1 {
    } else {
    }
  }

  /** The fields of the fixed-size data types, at their offsets after the
      discriminant. */
  lemma DataTypeFixedValues(order: ByteOrder, data: seq<byte>, p: nat)
    requires DataTypeAt(order, data, p).result.Ok? && p + 6 <= |data|
    ensures var tag := Unsigned16(order, data, p);
            var d := DataTypeAt(order, data, p).result.value.dataType;
            (tag == 1 ==> p + 18 <= |data| && d == Some(Int32Data(I32(order, data, p + 2), I32(order, data, p + 6), I32(order, data, p + 10), I32(order, data, p + 14)))) &&
            (tag == 2 ==> p + 30 <= |data| &&
                          d == Some(Float64Data(I32(order, data, p + 2), Float64Bits(Unsigned64(order, data, p + 6)),
                                                Float64Bits(Unsigned64(order, data, p + 14)), Float64Bits(Unsigned64(order, data, p + 22))))) &&
            (tag == 3 ==> d == Some(StringData(I32(order, data, p + 2)))) &&
            (tag == 5 ==> p + 10 <= |data| && d == Some(BooleanData(I32(order, data, p + 2), I32(order, data, p + 6)))) &&
            (tag == 6 ==> d == Some(UuidData(I32(order, data, p + 2))))
  {
  }

  /** The enumeration data type: offset, default pair and a 32-bit count
      take 16 bytes after the discriminant; a negative count throws there,
      otherwise that many pairs follow and are kept as read. */
  lemma DataTypeEnumeration(order: ByteOrder, data: seq<byte>, p: nat)
    requires p + 2 <= |data| && Unsigned16(order, data, p) == 4
    ensures var r := DataTypeAt(order, data, p);
            (p + 18 > |data| ==> r.result == Fail(IO(EndOfFile))) &&
            (p + 18 <= |data| && I32(order, data, p + 14) < 0 ==> r == Step(Fail(IllegalArgument), p + 18)) &&
            (p + 18 <= |data| && I32(order, data, p + 14) >= 0 ==>
              var count := I32(order, data, p + 14);
              var valid := EnumerantsAt(order, data, p + 18, count);
              (r.result.Ok? <==> count == 0 || p + 18 + 8 * count <= |data|) &&
              (r.result.Ok? ==>
                r.next == p + 18 + 8 * count &&
                r.result.value == SpecifiedDataType(4, Some(EnumerationData(
                  I32(order, data, p + 2), Enumerant(I32(order, data, p + 6), I32(order, data, p + 10)), valid.result.value)))))
  {
    if p + 18 <= |data| && I32(order, data, p + 14) >= 0 {
      EnumerantsSize(order, data, p + 18, I32(order, data, p + 14));
    }
  }

  /** The kind of a data type, as the attribute-data-type enumeration names it. */
  function KindOf(d: DataType): A.AttributeDataType
  {
    match d
    case Int32Data(_, _, _, _) => A.Int32
    case Float64Data(_, _, _, _) => A.Float64
    case StringData(_) => A.String
    case EnumerationData(_, _, _) => A.Enumeration
    case BooleanData(_, _) => A.Boolean
    case UuidData(_) => A.Uuid
  }

  /** The parser's discriminant constants agree with the attribute-data-type
      enumeration: a data type is built only for the value that names its
      kind; NO_DATA and DELETED, like any value the enumeration does not
      know, leave it null. */
  lemma DataTypeMatchesEnumeration(order: ByteOrder, data: seq<byte>, p: nat)
    requires DataTypeAt(order, data, p).result.Ok?
    ensures var tag := Unsigned16(order, data, p);
            var d := DataTypeAt(order, data, p).result.value.dataType;
            (d.Some? ==> A.FromValue(tag) == Ok(KindOf(d.value))) &&
            (d.None? <==> A.FromValue(tag) == Ok(A.NoDataType) || A.FromValue(tag) == Ok(A.Deleted) || A.FromValue(tag).Fail?)
  {
    var tag := Unsigned16(order, data, p);
    if tag == 4 {
      DataTypeEnumeration(order, data, p);
    } else {
      DataTypeFixedLayout(order, data, p);
      if 1 <= tag <= 6 {
        DataTypeFixedValues(order, data, p);
      }
    }
  }

  /** A run of `n` attribute codes decodes exactly when `4 × n` bytes remain from
      `p`, and ends right after them. */
  lemma {:induction false} CodesSize(order: ByteOrder, data: seq<byte>, p: nat, n: nat)
    ensures var r := CodesAt(order, data, p, n);
            (r.result.Ok? <==> n == 0 || p + 4 * n <= |data|) &&
            (r.result.Ok? ==> r.next == p + 4 * n)
  {
    if n > 0 {
      CodesSize(order, data, p, n - 1);
    }
  }

  /** A run of `n` valid enumerants decodes exactly when `8 × n` bytes remain from
      `p`, and ends right after them. */
  lemma {:induction false} EnumerantsSize(order: ByteOrder, data: seq<byte>, p: nat, n: nat)
    ensures var r := EnumerantsAt(order, data, p, n);
            (r.result.Ok? <==> n == 0 || p + 8 * n <= |data|) &&
            (r.result.Ok? ==> r.next == p + 8 * n)
  {
    if n > 0 {
      EnumerantsSize(order, data, p, n - 1);
    }
  }

  /** Attribute code `i` is the 32-bit value `4 × i` bytes from `p`. */
  lemma CodeAtIndex(order: ByteOrder, data: seq<byte>, p: nat, n: nat, i: nat)
    requires CodesAt(order, data, p, n).result.Ok? && i < n
    ensures E.Int32At(order, data, p + 4 * i).result == Ok(CodesAt(order, data, p, n).result.value[i])
  {
    CodesPrefix(order, data, p, n, i);
    CodesLast(order, data, p, i);
    CodesSize(order, data, p, i);
  }

  /** Valid enumerant `i` is the pair `8 × i` bytes from `p`: the list keeps
      file order and repeats. */
  lemma EnumerantAtIndex(order: ByteOrder, data: seq<byte>, p: nat, n: nat, i: nat)
    requires EnumerantsAt(order, data, p, n).result.Ok? && i < n
    ensures EnumerantAt(order, data, p + 8 * i).result == Ok(EnumerantsAt(order, data, p, n).result.value[i])
  {
    EnumerantsPrefix(order, data, p, n, i);
    EnumerantsLast(order, data, p, i);
    EnumerantsSize(order, data, p, i);
  }

  /** Record `i` is the data type that starts where the first `i` records
      end. */
  lemma RecordAtIndex(order: ByteOrder, data: seq<byte>, p: nat, n: nat, i: nat)
    requires RecordsAt(order, data, p, n).result.Ok? && i < n
    ensures RecordsAt(order, data, p, i).result.Ok?
    ensures DataTypeAt(order, data, RecordsAt(order, data, p, i).next).result == Ok(RecordsAt(order, data, p, n).result.value[i])
  {
    RecordsPrefix(order, data, p, n, i);
    RecordsLast(order, data, p, i);
  }

  /** The farm table: the two counts cast to short, as many codes as the
      attribute count, then featureCount × attributeCount records (none when
      that product is not positive). */
  lemma FarmTableLayout(order: ByteOrder, data: seq<byte>, p: nat)
    requires FarmTableAt(order, data, p).result.Ok?
    ensures var t := FarmTableAt(order, data, p).result.value;
            t.featureCount == ToInt16(Unsigned16(order, data, p)) &&
            t.attributeCount == ToInt16(Unsigned16(order, data, p + 2)) &&
            t.attributeCount >= 0 &&
            CodesAt(order, data, p + 4, t.attributeCount).result == Ok(t.attributeCodes) &&
            |t.attributeCodes| == t.attributeCount &&
            RecordsAt(order, data, p + 4 + 4 * t.attributeCount, RecordCount(t.featureCount, t.attributeCount)).result == Ok(t.dataTypes) &&
            |t.dataTypes| == RecordCount(t.featureCount, t.attributeCount)
  {
    var attributeCount: int := ToInt16(Unsigned16(order, data, p + 2));
    assert attributeCount >= 0;
    var codes := CodesAt(order, data, p + 4, attributeCount);
    assert codes.result.Ok? && codes.next == p + 4 + 4 * attributeCount;
  }

  /** A negative attribute count throws before any code is read. */
  lemma FarmTableNegativeCount(order: ByteOrder, data: seq<byte>, p: nat)
    requires p + 4 <= |data| && ToInt16(Unsigned16(order, data, p + 2)) < 0
    ensures FarmTableAt(order, data, p) == Step(Fail(IllegalArgument), p + 4)
  {
  }

  /** Label entry `i` is put with its index `i`, and decodes where the
      entries before it end. */
  lemma LabelEntryAtIndex(order: ByteOrder, data: seq<byte>, p: nat, n: nat, i: nat)
    requires LabelEntriesAt(order, data, p, n).result.Ok? && i < n
    ensures LabelEntriesAt(order, data, p, n).result.value[i].1 == i
    ensures LabelEntriesAt(order, data, p, i).result.Ok?
    ensures LabelEntryAt(order, data, LabelEntriesAt(order, data, p, i).next).result == Ok(LabelEntriesAt(order, data, p, n).result.value[i].0)
  {
    LabelEntriesPrefix(order, data, p, n, i);
    LabelEntriesLast(order, data, p, i);
  }

  /** The label map holds every label read, each mapped to the index of its
      last occurrence, and has at most `mapSize` keys. */
  lemma FlagMapLastIndex(order: ByteOrder, data: seq<byte>, p: nat, mapSize: nat)
    requires FlagMapAt(order, data, p, mapSize).result.Ok?
    ensures var entries := LabelEntriesAt(order, data, p, mapSize).result.value;
            var m := FlagMapAt(order, data, p, mapSize).result.value;
            |m| <= mapSize &&
            (forall i :: 0 <= i < mapSize ==> entries[i].0 in m) &&
            (forall k :: k in m ==> 0 <= m[k] < mapSize && entries[m[k]].0 == k &&
                                    forall j :: m[k] < j < mapSize ==> entries[j].0 != k)
  {
    var entries := LabelEntriesAt(order, data, p, mapSize).result.value;
    forall i | 0 <= i < mapSize
      ensures entries[i].1 == i
    {
      LabelEntryAtIndex(order, data, p, mapSize, i);
    }
    UpsertsSize(entries);
    forall i | 0 <= i < mapSize
      ensures entries[i].0 in Upserts(entries)
    {
      UpsertsLastWins(entries, entries[i].0);
    }
    forall k | k in Upserts(entries)
      ensures var m := Upserts(entries);
              0 <= m[k] < mapSize && entries[m[k]].0 == k && forall j :: m[k] < j < mapSize ==> entries[j].0 != k
    {
      UpsertsLastWins(entries, k);
      LastWriteExists(entries, k);
      var i :| IsLastWrite(entries, i, k);
    }
  }

  /** parseFeature: the six fields are the 32-bit values at p, p + 4, …,
      p + 20, in the order category, code, geometry, usage bitmask,
      precedence and overlay size. */
  lemma FeatureFields(order: ByteOrder, data: seq<byte>, p: nat)
    requires p + 24 <= |data|
    ensures FeatureAt(order, data, p).result ==
              Ok(Feature(I32(order, data, p), I32(order, data, p + 4), I32(order, data, p + 8),
                         I32(order, data, p + 12), I32(order, data, p + 16), I32(order, data, p + 20)))
  {
  }

  /** A run of `n` category entries decodes exactly when `28 × n` bytes remain from
      `p`, and ends right after them. */
  lemma {:induction false} CategoryEntriesSize(order: ByteOrder, data: seq<byte>, p: nat, n: nat)
    ensures var r := CategoryEntriesAt(order, data, p, n);
            (r.result.Ok? <==> n == 0 || p + 28 * n <= |data|) &&
            (r.result.Ok? ==> r.next == p + 28 * n)
  {
    if n > 0 {
      CategoryEntriesSize(order, data, p, n - 1);
    }
  }

  /** A run of `n` attribute entries decodes exactly when `20 × n` bytes remain from
      `p`, and ends right after them. */
  lemma {:induction false} AttributeEntriesSize(order: ByteOrder, data: seq<byte>, p: nat, n: nat)
    ensures var r := AttributeEntriesAt(order, data, p, n);
            (r.result.Ok? <==> n == 0 || p + 20 * n <= |data|) &&
            (r.result.Ok? ==> r.next == p + 20 * n)
  {
    if n > 0 {
      AttributeEntriesSize(order, data, p, n - 1);
    }
  }

  /** The category map: entry `i` sits 28 bytes after entry `i - 1` and is
      keyed by its unsigned 16-bit category; a category is a key exactly
      when some entry carries it, and keeps the feature of its last entry. */
  lemma CategoryMapLastWins(order: ByteOrder, data: seq<byte>, p: nat, mapSize: nat)
    requires CategoryMapAt(order, data, p, mapSize).result.Ok?
    ensures var entries := CategoryEntriesAt(order, data, p, mapSize).result.value;
            var m := CategoryMapAt(order, data, p, mapSize).result.value;
            |m| <= mapSize &&
            (forall i :: 0 <= i < mapSize ==> CategoryEntryAt(order, data, p + 28 * i).result == Ok(entries[i])) &&
            (forall c :: c in m <==> Writes(entries, c)) &&
            (forall c, i :: IsLastWrite(entries, i, c) ==> c in m && m[c] == entries[i].1)
  {
    var entries := CategoryEntriesAt(order, data, p, mapSize).result.value;
    forall i | 0 <= i < mapSize
      ensures CategoryEntryAt(order, data, p + 28 * i).result == Ok(entries[i])
    {
      CategoryEntryAtIndex(order, data, p, mapSize, i);
    }
    UpsertsSize(entries);
    forall c
      ensures (c in Upserts(entries) <==> Writes(entries, c)) &&
              forall i :: IsLastWrite(entries, i, c) ==> c in Upserts(entries) && Upserts(entries)[c] == entries[i].1
    {
      UpsertsLastWins(entries, c);
    }
  }

  /** Category entry `i` is the one `28 × i` bytes from `p`. */
  lemma CategoryEntryAtIndex(order: ByteOrder, data: seq<byte>, p: nat, n: nat, i: nat)
    requires CategoryEntriesAt(order, data, p, n).result.Ok? && i < n
    ensures CategoryEntryAt(order, data, p + 28 * i).result == Ok(CategoryEntriesAt(order, data, p, n).result.value[i])
  {
    CategoryEntriesPrefix(order, data, p, n, i);
    CategoryEntriesLast(order, data, p, i);
    CategoryEntriesSize(order, data, p, i);
  }

  /** The attribute map: entry `i` sits 20 bytes after entry `i - 1` and is
      keyed by its 32-bit code; a code is a key exactly when some entry
      carries it, and keeps the attribute of its last entry. */
  lemma AttributeMapLastWins(order: ByteOrder, data: seq<byte>, p: nat, mapSize: nat)
    requires AttributeMapAt(order, data, p, mapSize).result.Ok?
    ensures var entries := AttributeEntriesAt(order, data, p, mapSize).result.value;
            var m := AttributeMapAt(order, data, p, mapSize).result.value;
            |m| <= mapSize &&
            (forall i :: 0 <= i < mapSize ==> AttributeEntryAt(order, data, p + 20 * i).result == Ok(entries[i])) &&
            (forall c :: c in m <==> Writes(entries, c)) &&
            (forall c, i :: IsLastWrite(entries, i, c) ==> c in m && m[c] == entries[i].1)
  {
    var entries := AttributeEntriesAt(order, data, p, mapSize).result.value;
    forall i | 0 <= i < mapSize
      ensures AttributeEntryAt(order, data, p + 20 * i).result == Ok(entries[i])
    {
      AttributeEntryAtIndex(order, data, p, mapSize, i);
    }
    UpsertsSize(entries);
    forall c
      ensures (c in Upserts(entries) <==> Writes(entries, c)) &&
              forall i :: IsLastWrite(entries, i, c) ==> c in Upserts(entries) && Upserts(entries)[c] == entries[i].1
    {
      UpsertsLastWins(entries, c);
    }
  }

  /** Attribute entry `i` is the one `20 × i` bytes from `p`. */
  lemma AttributeEntryAtIndex(order: ByteOrder, data: seq<byte>, p: nat, n: nat, i: nat)
    requires AttributeEntriesAt(order, data, p, n).result.Ok? && i < n
    ensures AttributeEntryAt(order, data, p + 20 * i).result == Ok(AttributeEntriesAt(order, data, p, n).result.value[i])
  {
    AttributeEntriesPrefix(order, data, p, n, i);
    AttributeEntriesLast(order, data, p, i);
    AttributeEntriesSize(order, data, p, i);
  }
}
