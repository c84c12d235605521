/** The file format the newer decoder (parser/FarmParser.java) reads, as
    functions of the byte order, the bytes and a start position. Each
    function follows one parse method: its reads in order, the value it
    builds, and where the cursor stands when it returns or throws. The
    parser builds every list and map locally and hands it back only on
    success, so a failure carries no partial value.

    This layout differs from the legacy one: attribute codes are 32-bit,
    the farm table is a flat list of tagged records, a label entry maps to
    its index in the file, a category entry has two pad bytes before its
    feature, and neither features nor attributes carry a label. */
module FarmFormat {
  import opened Results
  import opened Bytes
  import opened Containers
  import opened EnumerantDataTypes
  import E = IoEnhancedBinaryReader

  datatype Version = Version(version: int16, format: int16, update: int16)

  /** The cell types; `null` when the discriminant is 0 or unknown. A
      floating-point value is kept as its bit pattern. The enumeration cell
      keeps its valid enumerants as the list read, in file order. */
  datatype DataType =
    | Int32Data(offset: int32, defaultValue: int32, minValue: int32, maxValue: int32)
    | Float64Data(offset: int32, defaultBits: Float64Bits, minBits: Float64Bits, maxBits: Float64Bits)
    | StringData(offset: int32)
    | EnumerationData(offset: int32, defaultEnum: Enumerant, validEnums: seq<Enumerant>)
    | BooleanData(offset: int32, defaultValue: int32)
    | UuidData(offset: int32)

  /** A farm-table record: the discriminant as read (cast to short) and the
      data type it selected. */
  datatype SpecifiedDataType = SpecifiedDataType(attributeDataType: int16, dataType: Option<DataType>)

  datatype FarmTable = FarmTable(
    featureCount: int16,
    attributeCount: int16,
    attributeCodes: seq<int32>,
    dataTypes: seq<SpecifiedDataType>)

  datatype FeatureLabelAndGeometry = FeatureLabelAndGeometry(featureLabel: seq<byte>, geometryEnum: int16)

  datatype Feature = Feature(
    category: int32,
    code: int32,
    geometryEnum: int32,
    usageBitmask: int32,
    precedence: int32,
    attributeOverlaySize: int32)

  datatype Attribute = Attribute(code: int32, dataTypeEnum: int32, unitsEnum: int32, editability: int32)

  datatype FarmFile = FarmFile(
    endianness: int16,
    version: Version,
    farmTable: FarmTable,
    flagToFeatCategoryMap: map<FeatureLabelAndGeometry, int>,
    featCategoryToFeatureMap: map<int, Feature>,
    attributeCodeToAttributeMap: map<int, Attribute>)

  /** The order `parse` switches to after reading the marker: little-endian
      for 1, big-endian for anything else. */
  function OrderOfMarker(endianness: int16): (o: ByteOrder)
    ensures o == LittleEndian <==> endianness == 1
  {
    if endianness == 1 then LittleEndian else BigEndian
  }

  /** parseVersion: three 16-bit numbers, each cast to short. */
  function VersionAt(order: ByteOrder, data: seq<byte>, p: nat): (r: Step<Version>)
    ensures r.result.Ok? <==> p + 6 <= |data|
    ensures r.result.Ok? ==> r.next == p + 6
    ensures r.result.Fail? ==> r.result == Fail(IO(EndOfFile))
  {
    var version :- E.UInt16At(order, data, p);
    var format :- E.UInt16At(order, data, version.next);
    var update :- E.UInt16At(order, data, format.next);
    Step(Ok(Version(ToInt16(version.value), ToInt16(format.value), ToInt16(update.value))), update.next)
  }

  /** The `n` 32-bit attribute codes that follow the two counts. */
  function CodesAt(order: ByteOrder, data: seq<byte>, p: nat, n: nat): (r: Step<seq<int32>>)
    ensures r.result.Ok? ==> r.next == p + 4 * n && |r.result.value| == n
    ensures r.result.Fail? ==> r.result == Fail(IO(EndOfFile))
    decreases n
  {
    if n == 0 then Step(Ok([]), p)
    else
      var init :- CodesAt(order, data, p, n - 1);
      var code :- E.Int32At(order, data, init.next);
      Step(Ok(init.value + [code.value]), code.next)
  }

  /** One enumerant: its attribute code, then its own code. */
  function EnumerantAt(order: ByteOrder, data: seq<byte>, p: nat): (r: Step<Enumerant>)
    ensures r.result.Ok? <==> p + 8 <= |data|
    ensures r.result.Ok? ==> r.next == p + 8 && r.result.value == Enumerant(I32(order, data, p), I32(order, data, p + 4))
    ensures r.result.Fail? ==> r.result == Fail(IO(EndOfFile))
  {
    var attributeCode :- E.Int32At(order, data, p);
    var enumerantCode :- E.Int32At(order, data, attributeCode.next);
    Step(Ok(Enumerant(attributeCode.value, enumerantCode.value)), enumerantCode.next)
  }

  /** The valid enumerants of an enumeration cell: `n` pairs appended to a
      list in the order read. */
  function EnumerantsAt(order: ByteOrder, data: seq<byte>, p: nat, n: nat): (r: Step<seq<Enumerant>>)
    ensures r.result.Ok? ==> r.next == p + 8 * n && |r.result.value| == n
    ensures r.result.Fail? ==> r.result == Fail(IO(EndOfFile))
    decreases n
  {
    if n == 0 then Step(Ok([]), p)
    else
      var init :- EnumerantsAt(order, data, p, n - 1);
      var e :- EnumerantAt(order, data, init.next);
      Step(Ok(init.value + [e.value]), e.next)
  }

  /** The payload that follows the discriminant of each data type whose
      size does not depend on the data: 0 for null, 4 skipped for an
      unknown discriminant. */
  function PayloadSize(tag: int): nat
  {
    if tag == 1 then 16
    else if tag == 2 then 28
    else if tag == 3 || tag == 6 then 4
    else if tag == 5 then 8
    else if tag == 0 then 0
    else 4
  }

  /** parseSpecifiedDataType: a 16-bit discriminant, then the payload it
      selects. An enumeration payload is an offset, the default pair, a
      32-bit count and that many pairs; a negative count makes
      `new ArrayList<>(count)` throw. An unknown discriminant is skipped
      over four bytes, unread, and leaves the data type null. */
  function DataTypeAt(order: ByteOrder, data: seq<byte>, p: nat): (r: Step<SpecifiedDataType>)
    ensures r.result.Ok? ==> p + 2 <= |data| && r.next >= p + 2
    ensures r.result.Ok? ==> r.result.value.attributeDataType == ToInt16(Unsigned16(order, data, p))
  {
    var tag :- E.UInt16At(order, data, p);
    var q := tag.next;
    var t := ToInt16(tag.value);
    if tag.value == 0 then Step(Ok(SpecifiedDataType(t, None)), q)
    else if tag.value == 1 then
      var offset :- E.Int32At(order, data, q);
      var dflt :- E.Int32At(order, data, offset.next);
      var min :- E.Int32At(order, data, dflt.next);
      var max :- E.Int32At(order, data, min.next);
      Step(Ok(SpecifiedDataType(t, Some(Int32Data(offset.value, dflt.value, min.value, max.value)))), max.next)
    else if tag.value == 2 then
      var offset :- E.Int32At(order, data, q);
      var dflt :- E.Float64At(order, data, offset.next);
      var min :- E.Float64At(order, data, dflt.next);
      var max :- E.Float64At(order, data, min.next);
      Step(Ok(SpecifiedDataType(t, Some(Float64Data(offset.value, dflt.value, min.value, max.value)))), max.next)
    else if tag.value == 3 then
      var offset :- E.Int32At(order, data, q);
      Step(Ok(SpecifiedDataType(t, Some(StringData(offset.value)))), offset.next)
    else if tag.value == 4 then
      var offset :- E.Int32At(order, data, q);
      var dflt :- EnumerantAt(order, data, offset.next);
      var count :- E.Int32At(order, data, dflt.next);
      if count.value < 0 then Step(Fail(IllegalArgument), count.next)
      else
        var valid :- EnumerantsAt(order, data, count.next, count.value);
        Step(Ok(SpecifiedDataType(t, Some(EnumerationData(offset.value, dflt.value, valid.value)))), valid.next)
    else if tag.value == 5 then
      var offset :- E.Int32At(order, data, q);
      var dflt :- E.Int32At(order, data, offset.next);
      Step(Ok(SpecifiedDataType(t, Some(BooleanData(offset.value, dflt.value)))), dflt.next)
    else if tag.value == 6 then
      var offset :- E.Int32At(order, data, q);
      Step(Ok(SpecifiedDataType(t, Some(UuidData(offset.value)))), offset.next)
    else Step(Ok(SpecifiedDataType(t, None)), q + 4)
  }

  /** `n` records appended in file order. */
  function RecordsAt(order: ByteOrder, data: seq<byte>, p: nat, n: nat): (r: Step<seq<SpecifiedDataType>>)
    ensures r.result.Ok? ==> r.next >= p && |r.result.value| == n
    decreases n
  {
    if n == 0 then Step(Ok([]), p)
    else
      var init :- RecordsAt(order, data, p, n - 1);
      var record :- DataTypeAt(order, data, init.next);
      Step(Ok(init.value + [record.value]), record.next)
  }

  /** The number of records: featureCount × attributeCount, none when the
      product is not positive. */
  function RecordCount(featureCount: int16, attributeCount: int16): nat
  {
    if featureCount * attributeCount > 0 then featureCount * attributeCount else 0
  }

  /** parseFarmTable: the two counts (16-bit, cast to short), the attribute
      codes, then the records. A negative attribute count makes
      `new ArrayList<>(count)` throw before any code is read. */
  function FarmTableAt(order: ByteOrder, data: seq<byte>, p: nat): (r: Step<FarmTable>)
    ensures r.result.Ok? ==> p + 4 <= |data| && r.next >= p + 4
  {
    var features :- E.UInt16At(order, data, p);
    var attributes :- E.UInt16At(order, data, features.next);
    var featureCount := ToInt16(features.value);
    var attributeCount := ToInt16(attributes.value);
    if attributeCount < 0 then Step(Fail(IllegalArgument), attributes.next)
    else
      var codes :- CodesAt(order, data, attributes.next, attributeCount);
      var records :- RecordsAt(order, data, codes.next, RecordCount(featureCount, attributeCount));
      Step(Ok(FarmTable(featureCount, attributeCount, codes.value, records.value)), records.next)
  }

  /** One label entry: a 16-bit length, that many label bytes, one pad byte
      when the length is odd, then a 16-bit geometry cast to short. */
  function LabelEntryAt(order: ByteOrder, data: seq<byte>, p: nat): (r: Step<FeatureLabelAndGeometry>)
    ensures r.result.Ok? <==>
              p + 2 <= |data| &&
              var length := Unsigned16(order, data, p);
              p + 2 + length + length % 2 + 2 <= |data|
    ensures r.result.Ok? ==>
              var length := Unsigned16(order, data, p);
              var end := p + 2 + length + length % 2;
              r.next == end + 2 &&
              r.result.value == FeatureLabelAndGeometry(data[p + 2..p + 2 + length], ToInt16(Unsigned16(order, data, end)))
    ensures r.result.Fail? ==> r.result == Fail(IO(EndOfFile))
  {
    var length :- E.UInt16At(order, data, p);
    var name :- E.StringAt(data, length.next, length.value);
    var pad := if length.value % 2 != 0 then 1 else 0;
    var geometry :- E.UInt16At(order, data, name.next + pad);
    Step(Ok(FeatureLabelAndGeometry(name.value, ToInt16(geometry.value))), geometry.next)
  }

  /** The puts of parseFlagToFeatCategoryMap: each key with its index. */
  function LabelEntriesAt(order: ByteOrder, data: seq<byte>, p: nat, n: nat): (r: Step<seq<(FeatureLabelAndGeometry, int)>>)
    ensures r.result.Ok? ==> r.next >= p && |r.result.value| == n
    ensures r.result.Fail? ==> r.result == Fail(IO(EndOfFile))
    decreases n
  {
    if n == 0 then Step(Ok([]), p)
    else
      var init :- LabelEntriesAt(order, data, p, n - 1);
      var key :- LabelEntryAt(order, data, init.next);
      Step(Ok(init.value + [(key.value, n - 1)]), key.next)
  }

  /** parseFlagToFeatCategoryMap: the entries put into a HashMap. */
  function FlagMapAt(order: ByteOrder, data: seq<byte>, p: nat, mapSize: nat): (r: Step<map<FeatureLabelAndGeometry, int>>)
    ensures r.result.Ok? ==> r.next >= p && |r.result.value| <= mapSize
    ensures r.result.Fail? ==> r.result == Fail(IO(EndOfFile))
  {
    var entries :- LabelEntriesAt(order, data, p, mapSize);
    UpsertsSize(entries.value);
    Step(Ok(Upserts(entries.value)), entries.next)
  }

  /** parseFeature: six 32-bit fields. */
  function FeatureAt(order: ByteOrder, data: seq<byte>, p: nat): (r: Step<Feature>)
    ensures r.result.Ok? <==> p + 24 <= |data|
    ensures r.result.Ok? ==> r.next == p + 24
    ensures r.result.Fail? ==> r.result == Fail(IO(EndOfFile))
  {
    var category :- E.Int32At(order, data, p);
    var code :- E.Int32At(order, data, category.next);
    var geometry :- E.Int32At(order, data, code.next);
    var usage :- E.Int32At(order, data, geometry.next);
    var precedence :- E.Int32At(order, data, usage.next);
    var overlay :- E.Int32At(order, data, precedence.next);
    Step(Ok(Feature(category.value, code.value, geometry.value, usage.value, precedence.value, overlay.value)), overlay.next)
  }

  /** One category entry: a 16-bit category, two skipped pad bytes, then the
      feature. */
  function CategoryEntryAt(order: ByteOrder, data: seq<byte>, p: nat): (r: Step<(int, Feature)>)
    ensures r.result.Ok? <==> p + 28 <= |data|
    ensures r.result.Ok? ==> r.next == p + 28 && r.result.value.0 == Unsigned16(order, data, p)
    ensures r.result.Fail? ==> r.result == Fail(IO(EndOfFile))
  {
    var category :- E.UInt16At(order, data, p);
    var feature :- FeatureAt(order, data, category.next + 2);
    Step(Ok((category.value as int, feature.value)), feature.next)
  }

  /** The puts of parseFeatureCategoryToFeatureMap. */
  function CategoryEntriesAt(order: ByteOrder, data: seq<byte>, p: nat, n: nat): (r: Step<seq<(int, Feature)>>)
    ensures r.result.Ok? ==> r.next == p + 28 * n && |r.result.value| == n
    ensures r.result.Fail? ==> r.result == Fail(IO(EndOfFile))
    decreases n
  {
    if n == 0 then Step(Ok([]), p)
    else
      var init :- CategoryEntriesAt(order, data, p, n - 1);
      var entry :- CategoryEntryAt(order, data, init.next);
      Step(Ok(init.value + [entry.value]), entry.next)
  }

  /** parseFeatureCategoryToFeatureMap: the entries put into a HashMap. */
  function CategoryMapAt(order: ByteOrder, data: seq<byte>, p: nat, mapSize: nat): (r: Step<map<int, Feature>>)
    ensures r.result.Ok? ==> r.next == p + 28 * mapSize && |r.result.value| <= mapSize
    ensures r.result.Fail? ==> r.result == Fail(IO(EndOfFile))
  {
    var entries :- CategoryEntriesAt(order, data, p, mapSize);
    UpsertsSize(entries.value);
    Step(Ok(Upserts(entries.value)), entries.next)
  }

  /** parseAttribute: four 32-bit fields and no label. */
  function AttributeAt(order: ByteOrder, data: seq<byte>, p: nat): (r: Step<Attribute>)
    ensures r.result.Ok? <==> p + 16 <= |data|
    ensures r.result.Ok? ==>
              r.next == p + 16 &&
              r.result.value == Attribute(I32(order, data, p), I32(order, data, p + 4), I32(order, data, p + 8), I32(order, data, p + 12))
    ensures r.result.Fail? ==> r.result == Fail(IO(EndOfFile))
  {
    var code :- E.Int32At(order, data, p);
    var dataType :- E.Int32At(order, data, code.next);
    var units :- E.Int32At(order, data, dataType.next);
    var editability :- E.Int32At(order, data, units.next);
    Step(Ok(Attribute(code.value, dataType.value, units.value, editability.value)), editability.next)
  }

  /** One attribute entry: a 32-bit code, then the attribute. */
  function AttributeEntryAt(order: ByteOrder, data: seq<byte>, p: nat): (r: Step<(int, Attribute)>)
    ensures r.result.Ok? <==> p + 20 <= |data|
    ensures r.result.Ok? ==> r.next == p + 20 && r.result.value.0 == I32(order, data, p)
    ensures r.result.Fail? ==> r.result == Fail(IO(EndOfFile))
  {
    var code :- E.Int32At(order, data, p);
    var attribute :- AttributeAt(order, data, code.next);
    Step(Ok((code.value as int, attribute.value)), attribute.next)
  }

  /** The puts of parseAttributeCodeToAttributeMap. */
  function AttributeEntriesAt(order: ByteOrder, data: seq<byte>, p: nat, n: nat): (r: Step<seq<(int, Attribute)>>)
    ensures r.result.Ok? ==> r.next == p + 20 * n && |r.result.value| == n
    ensures r.result.Fail? ==> r.result == Fail(IO(EndOfFile))
    decreases n
  {
    if n == 0 then Step(Ok([]), p)
    else
      var init :- AttributeEntriesAt(order, data, p, n - 1);
      var entry :- AttributeEntryAt(order, data, init.next);
      Step(Ok(init.value + [entry.value]), entry.next)
  }

  /** parseAttributeCodeToAttributeMap: the entries put into a HashMap. */
  function AttributeMapAt(order: ByteOrder, data: seq<byte>, p: nat, mapSize: nat): (r: Step<map<int, Attribute>>)
    ensures r.result.Ok? ==> r.next == p + 20 * mapSize && |r.result.value| <= mapSize
    ensures r.result.Fail? ==> r.result == Fail(IO(EndOfFile))
  {
    var entries :- AttributeEntriesAt(order, data, p, mapSize);
    UpsertsSize(entries.value);
    Step(Ok(Upserts(entries.value)), entries.next)
  }

  /** The three maps, each preceded by its 16-bit size. */
  function MapsAt(order: ByteOrder, data: seq<byte>, p: nat): (r: Step<(map<FeatureLabelAndGeometry, int>, map<int, Feature>, map<int, Attribute>)>)
    ensures r.result.Ok? ==>
              p + 2 <= |data| && |r.result.value.0| <= Unsigned16(order, data, p) &&
              r.next >= p + 6 + 28 * |r.result.value.1| + 20 * |r.result.value.2|
    ensures r.result.Fail? ==> r.result == Fail(IO(EndOfFile))
  {
    var labelCount :- E.UInt16At(order, data, p);
    var labels :- FlagMapAt(order, data, labelCount.next, labelCount.value);
    var categoryCount :- E.UInt16At(order, data, labels.next);
    var categories :- CategoryMapAt(order, data, categoryCount.next, categoryCount.value);
    var attributeCount :- E.UInt16At(order, data, categories.next);
    var attributes :- AttributeMapAt(order, data, attributeCount.next, attributeCount.value);
    Step(Ok((labels.value, categories.value, attributes.value)), attributes.next)
  }

  /** parse: detect the order from the first two bytes without consuming
      them, read the marker in that order and switch to the order it names,
      then the version, the farm table and the three maps. */
  function FileAt(data: seq<byte>): (r: Step<FarmFile>)
    ensures r.result.Ok? ==> 8 <= |data|
  {
    var detected :- E.DetectOrderAt(data, 0);
    // the two bytes just detected are there to be read as the marker
    var marker := E.UInt16At(detected.value, data, 0);
    var endianness := ToInt16(marker.result.value);
    var order := OrderOfMarker(endianness);
    var version :- VersionAt(order, data, marker.next);
    var table :- FarmTableAt(order, data, version.next);
    var maps :- MapsAt(order, data, table.next);
    Step(Ok(FarmFile(endianness, version.value, table.value, maps.value.0, maps.value.1, maps.value.2)), maps.next)
  }
}
