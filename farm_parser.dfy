/** The newer decoder, parser/FarmParser.java: each parse method reads from
    an EnhancedBinaryReader, builds its list or map locally and returns it.
    Every method is proved to leave the reader where the matching function
    of FarmFormat says and to return what that function returns; a thrown
    exception is a `Fail`. The parser has no state of its own, so its
    methods live at module level. */
module FarmParsers {
  import opened Results
  import opened Bytes
  import opened Containers
  import opened EnumerantDataTypes
  import opened FarmFormat
  import opened FarmFormatSteps
  import E = IoEnhancedBinaryReader

  /** parse: the file is the byte sequence the reader is opened on. */
  method Parse(data: seq<byte>) returns (r: Result<FarmFile>)
    ensures r == FileAt(data).result
  {
    var reader := new E.EnhancedBinaryReader(data);
    var detected :- reader.DetectAndSetByteOrder();
    var marker := reader.ReadUInt16();
    var endianness := ToInt16(marker.value);
    if endianness == 1 {
      reader.SetByteOrder(LittleEndian);
    } else {
      reader.SetByteOrder(BigEndian);
    }
    var version :- ParseVersion(reader);
    var farmTable :- ParseFarmTable(reader);
    ghost var mapsStart := reader.pos;
    var flagToFeatMapSize :- reader.ReadUInt16();
    var flagToFeatMap :- ParseFlagToFeatCategoryMap(reader, flagToFeatMapSize);
    var featCatToFeatMapSize :- reader.ReadUInt16();
    var featCatToFeatMap :- ParseFeatureCategoryToFeatureMap(reader, featCatToFeatMapSize);
    var attrCodeToAttrMapSize :- reader.ReadUInt16();
    var attrCodeToAttrMap :- ParseAttributeCodeToAttributeMap(reader, attrCodeToAttrMapSize);
    assert MapsAt(reader.order, data, mapsStart).result == Ok((flagToFeatMap, featCatToFeatMap, attrCodeToAttrMap));
    return Ok(FarmFile(endianness, version, farmTable, flagToFeatMap, featCatToFeatMap, attrCodeToAttrMap));
  }

  method ParseVersion(reader: E.EnhancedBinaryReader) returns (r: Result<Version>)
    modifies reader
    ensures reader.order == old(reader.order)
    ensures Step(r, reader.pos) == VersionAt(reader.order, reader.data, old(reader.pos))
  {
    var version :- reader.ReadUInt16();
    var format :- reader.ReadUInt16();
    var update :- reader.ReadUInt16();
    return Ok(Version(ToInt16(version), ToInt16(format), ToInt16(update)));
  }

  method ParseFarmTable(reader: E.EnhancedBinaryReader) returns (r: Result<FarmTable>)
    modifies reader
    ensures reader.order == old(reader.order)
    ensures Step(r, reader.pos) == FarmTableAt(reader.order, reader.data, old(reader.pos))
  {
    var features :- reader.ReadUInt16();
    var attributes :- reader.ReadUInt16();
    var featureCount := ToInt16(features);
    var attributeCount := ToInt16(attributes);
    if attributeCount < 0 {
      return Fail(IllegalArgument);
    }
    var attributeCodes :- ParseAttributeCodes(reader, attributeCount);
    var dataTypes :- ParseDataTypes(reader, RecordCount(featureCount, attributeCount));
    return Ok(FarmTable(featureCount, attributeCount, attributeCodes, dataTypes));
  }

  /** The loop of parseFarmTable that reads the attribute codes. */
  method ParseAttributeCodes(reader: E.EnhancedBinaryReader, attributeCount: nat) returns (r: Result<seq<int32>>)
    modifies reader
    ensures reader.order == old(reader.order)
    ensures Step(r, reader.pos) == CodesAt(reader.order, reader.data, old(reader.pos), attributeCount)
  {
    ghost var start := reader.pos;
    var attributeCodes: seq<int32> := [];
    for i: nat := 0 to attributeCount
      invariant reader.order == old(reader.order)
      invariant Step(Ok(attributeCodes), reader.pos) == CodesAt(reader.order, reader.data, start, i)
    {
      CodesNext(reader.order, reader.data, start, i);
      var code := reader.ReadInt32();
      if code.Fail? {
        CodesStop(reader.order, reader.data, start, i + 1, attributeCount);
        return Fail(code.error);
      }
      attributeCodes := attributeCodes + [code.value];
    }
    return Ok(attributeCodes);
  }

  /** The loop of parseFarmTable that reads featureCount × attributeCount
      records. */
  method ParseDataTypes(reader: E.EnhancedBinaryReader, count: nat) returns (r: Result<seq<SpecifiedDataType>>)
    modifies reader
    ensures reader.order == old(reader.order)
    ensures Step(r, reader.pos) == RecordsAt(reader.order, reader.data, old(reader.pos), count)
  {
    ghost var start := reader.pos;
    var dataTypes: seq<SpecifiedDataType> := [];
    for i: nat := 0 to count
      invariant reader.order == old(reader.order)
      invariant Step(Ok(dataTypes), reader.pos) == RecordsAt(reader.order, reader.data, start, i)
    {
      RecordsNext(reader.order, reader.data, start, i);
      var dataType := ParseSpecifiedDataType(reader);
      if dataType.Fail? {
        RecordsStop(reader.order, reader.data, start, i + 1, count);
        return Fail(dataType.error);
      }
      dataTypes := dataTypes + [dataType.value];
    }
    return Ok(dataTypes);
  }

  method ParseSpecifiedDataType(reader: E.EnhancedBinaryReader) returns (r: Result<SpecifiedDataType>)
    modifies reader
    ensures reader.order == old(reader.order)
    ensures Step(r, reader.pos) == DataTypeAt(reader.order, reader.data, old(reader.pos))
  {
    var attributeDataType :- reader.ReadUInt16();
    var t := ToInt16(attributeDataType);
    if attributeDataType == 0 {
      return Ok(SpecifiedDataType(t, None));
    } else if attributeDataType == 1 {
      var offset :- reader.ReadInt32();
      var dflt :- reader.ReadInt32();
      var min :- reader.ReadInt32();
      var max :- reader.ReadInt32();
      return Ok(SpecifiedDataType(t, Some(Int32Data(offset, dflt, min, max))));
    } else if attributeDataType == 2 {
      var offset :- reader.ReadInt32();
      var dflt :- reader.ReadFloat64();
      var min :- reader.ReadFloat64();
      var max :- reader.ReadFloat64();
      return Ok(SpecifiedDataType(t, Some(Float64Data(offset, dflt, min, max))));
    } else if attributeDataType == 3 {
      var offset :- reader.ReadInt32();
      return Ok(SpecifiedDataType(t, Some(StringData(offset))));
    } else if attributeDataType == 4 {
      var offset :- reader.ReadInt32();
      var defaultEnum :- ParseEnumerant(reader);
      var enumCount :- reader.ReadInt32();
      if enumCount < 0 {
        return Fail(IllegalArgument);
      }
      var validEnums :- ParseValidEnums(reader, enumCount);
      return Ok(SpecifiedDataType(t, Some(EnumerationData(offset, defaultEnum, validEnums))));
    } else if attributeDataType == 5 {
      var offset :- reader.ReadInt32();
      var dflt :- reader.ReadInt32();
      return Ok(SpecifiedDataType(t, Some(BooleanData(offset, dflt))));
    } else if attributeDataType == 6 {
      var offset :- reader.ReadInt32();
      return Ok(SpecifiedDataType(t, Some(UuidData(offset))));
    } else {
      reader.Skip(4);
      return Ok(SpecifiedDataType(t, None));
    }
  }

  /** An enumerant of an enumeration cell: two 32-bit codes. */
  method ParseEnumerant(reader: E.EnhancedBinaryReader) returns (r: Result<Enumerant>)
    modifies reader
    ensures reader.order == old(reader.order)
    ensures Step(r, reader.pos) == EnumerantAt(reader.order, reader.data, old(reader.pos))
  {
    var attributeCode :- reader.ReadInt32();
    var enumerantCode :- reader.ReadInt32();
    return Ok(Enumerant(attributeCode, enumerantCode));
  }

  /** The loop that appends `enumCount` enumerants to the valid list. */
  method ParseValidEnums(reader: E.EnhancedBinaryReader, enumCount: nat) returns (r: Result<seq<Enumerant>>)
    modifies reader
    ensures reader.order == old(reader.order)
    ensures Step(r, reader.pos) == EnumerantsAt(reader.order, reader.data, old(reader.pos), enumCount)
  {
    ghost var start := reader.pos;
    var validEnums: seq<Enumerant> := [];
    for i: nat := 0 to enumCount
      invariant reader.order == old(reader.order)
      invariant Step(Ok(validEnums), reader.pos) == EnumerantsAt(reader.order, reader.data, start, i)
    {
      EnumerantsNext(reader.order, reader.data, start, i);
      var enumerant := ParseEnumerant(reader);
      if enumerant.Fail? {
        EnumerantsStop(reader.order, reader.data, start, i + 1, enumCount);
        return Fail(enumerant.error);
      }
      validEnums := validEnums + [enumerant.value];
    }
    return Ok(validEnums);
  }

  method ParseFlagToFeatCategoryMap(reader: E.EnhancedBinaryReader, mapSize: nat)
    returns (r: Result<map<FeatureLabelAndGeometry, int>>)
    modifies reader
    ensures reader.order == old(reader.order)
    ensures Step(r, reader.pos) == FlagMapAt(reader.order, reader.data, old(reader.pos), mapSize)
  {
    ghost var start := reader.pos;
    ghost var entries: seq<(FeatureLabelAndGeometry, int)> := [];
    var m: map<FeatureLabelAndGeometry, int> := map[];
    for i: nat := 0 to mapSize
      invariant reader.order == old(reader.order)
      invariant Step(Ok(entries), reader.pos) == LabelEntriesAt(reader.order, reader.data, start, i)
      invariant m == Upserts(entries)
    {
      LabelEntriesNext(reader.order, reader.data, start, i);
      var key := ParseFlagEntry(reader);
      if key.Fail? {
        LabelEntriesStop(reader.order, reader.data, start, i + 1, mapSize);
        return Fail(key.error);
      }
      UpsertsSnoc(entries, (key.value, i));
      entries := entries + [(key.value, i)];
      m := m[key.value := i];
    }
    return Ok(m);
  }

  /** The body of parseFlagToFeatCategoryMap's loop: the key it puts. */
  method ParseFlagEntry(reader: E.EnhancedBinaryReader) returns (r: Result<FeatureLabelAndGeometry>)
    modifies reader
    ensures reader.order == old(reader.order)
    ensures Step(r, reader.pos) == LabelEntryAt(reader.order, reader.data, old(reader.pos))
  {
    var labelLength :- reader.ReadUInt16();
    var featureLabel :- reader.ReadString(labelLength);
    if labelLength % 2 != 0 {
      reader.Skip(1);
    }
    var geometryEnum :- reader.ReadUInt16();
    return Ok(FeatureLabelAndGeometry(featureLabel, ToInt16(geometryEnum)));
  }

  method ParseFeatureCategoryToFeatureMap(reader: E.EnhancedBinaryReader, mapSize: nat)
    returns (r: Result<map<int, Feature>>)
    modifies reader
    ensures reader.order == old(reader.order)
    ensures Step(r, reader.pos) == CategoryMapAt(reader.order, reader.data, old(reader.pos), mapSize)
  {
    ghost var start := reader.pos;
    ghost var entries: seq<(int, Feature)> := [];
    var m: map<int, Feature> := map[];
    for i: nat := 0 to mapSize
      invariant reader.order == old(reader.order)
      invariant Step(Ok(entries), reader.pos) == CategoryEntriesAt(reader.order, reader.data, start, i)
      invariant m == Upserts(entries)
    {
      CategoryEntriesNext(reader.order, reader.data, start, i);
      var entry := ParseCategoryEntry(reader);
      if entry.Fail? {
        CategoryEntriesStop(reader.order, reader.data, start, i + 1, mapSize);
        return Fail(entry.error);
      }
      UpsertsSnoc(entries, entry.value);
      entries := entries + [entry.value];
      m := m[entry.value.0 := entry.value.1];
    }
    return Ok(m);
  }

  /** The body of parseFeatureCategoryToFeatureMap's loop: the category,
      two pad bytes skipped, and the feature. */
  method ParseCategoryEntry(reader: E.EnhancedBinaryReader) returns (r: Result<(int, Feature)>)
    modifies reader
    ensures reader.order == old(reader.order)
    ensures Step(r, reader.pos) == CategoryEntryAt(reader.order, reader.data, old(reader.pos))
  {
    var featureCategory :- reader.ReadUInt16();
    reader.Skip(2);
    var feature :- ParseFeature(reader);
    return Ok((featureCategory as int, feature));
  }

  method ParseFeature(reader: E.EnhancedBinaryReader) returns (r: Result<Feature>)
    modifies reader
    ensures reader.order == old(reader.order)
    ensures Step(r, reader.pos) == FeatureAt(reader.order, reader.data, old(reader.pos))
  {
    var category :- reader.ReadInt32();
    var code :- reader.ReadInt32();
    var geometryEnum :- reader.ReadInt32();
    var usageBitmask :- reader.ReadInt32();
    var precedence :- reader.ReadInt32();
    var attributeOverlaySize :- reader.ReadInt32();
    return Ok(Feature(category, code, geometryEnum, usageBitmask, precedence, attributeOverlaySize));
  }

  method ParseAttributeCodeToAttributeMap(reader: E.EnhancedBinaryReader, mapSize: nat)
    returns (r: Result<map<int, Attribute>>)
    modifies reader
    ensures reader.order == old(reader.order)
    ensures Step(r, reader.pos) == AttributeMapAt(reader.order, reader.data, old(reader.pos), mapSize)
  {
    ghost var start := reader.pos;
    ghost var entries: seq<(int, Attribute)> := [];
    var m: map<int, Attribute> := map[];
    for i: nat := 0 to mapSize
      invariant reader.order == old(reader.order)
      invariant Step(Ok(entries), reader.pos) == AttributeEntriesAt(reader.order, reader.data, start, i)
      invariant m == Upserts(entries)
    {
      AttributeEntriesNext(reader.order, reader.data, start, i);
      var entry := ParseAttributeEntry(reader);
      if entry.Fail? {
        AttributeEntriesStop(reader.order, reader.data, start, i + 1, mapSize);
        return Fail(entry.error);
      }
      UpsertsSnoc(entries, entry.value);
      entries := entries + [entry.value];
      m := m[entry.value.0 := entry.value.1];
    }
    return Ok(m);
  }

  /** The body of parseAttributeCodeToAttributeMap's loop: the code, then
      the attribute. */
  method ParseAttributeEntry(reader: E.EnhancedBinaryReader) returns (r: Result<(int, Attribute)>)
    modifies reader
    ensures reader.order == old(reader.order)
    ensures Step(r, reader.pos) == AttributeEntryAt(reader.order, reader.data, old(reader.pos))
  {
    var attributeCode :- reader.ReadInt32();
    var attribute :- ParseAttribute(reader);
    return Ok((attributeCode as int, attribute));
  }

  method ParseAttribute(reader: E.EnhancedBinaryReader) returns (r: Result<Attribute>)
    modifies reader
    ensures reader.order == old(reader.order)
    ensures Step(r, reader.pos) == AttributeAt(reader.order, reader.data, old(reader.pos))
  {
    var code :- reader.ReadInt32();
    var dataTypeEnum :- reader.ReadInt32();
    var unitsEnum :- reader.ReadInt32();
    var editability :- reader.ReadInt32();
    return Ok(Attribute(code, dataTypeEnum, unitsEnum, editability));
  }
}
