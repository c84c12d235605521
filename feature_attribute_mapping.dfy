/** The legacy decoder FeatureAttributeMapping.java: an object whose
    collections `read` clears and refills in place from farm.dat through a
    util/BinaryReader, and whose getters look features and attributes up.

    Each read method is proved to leave the cursor and the collection it
    fills exactly as the matching function of LegacyFarmFormat says, on
    success and on every failure. The file is given as its bytes (`None`
    when it cannot be read) and the host's byte order as a flag. */
module FeatureAttributeMappings {
  import opened Results
  import opened Bytes
  import opened Containers
  import opened EnumerantDataTypes
  import opened LegacyFarmFormat
  import opened LegacyFarmProperties
  import FeatureGeometries
  import AttributeDataTypes
  import AttributeUnitsEnum
  import UtilBinaryReader

  type Reader = UtilBinaryReader.BinaryReader

  class FeatureAttributeMapping {
    var initialized: bool
    var labels: map<FeatureLabelAndGeometry, int>
    var categories: seq<Option<Feature>>
    var attributes: seq<Option<Attribute>>
    var attributeLabels: map<seq<byte>, Attribute>
    var farm: seq<Row>

    /** The four collections `read` fills. */
    function Contents(): Tables
      reads this
    {
      Tables(labels, categories, attributes, farm)
    }

    /** A decoder with empty collections, not initialized. */
    constructor()
      ensures !initialized && Contents() == Tables(map[], [], [], []) && attributeLabels == map[]
    {
      initialized := false;
      labels := map[];
      categories := [];
      attributes := [];
      attributeLabels := map[];
      farm := [];
    }

    /** read: true at once when initialized; otherwise the outcome and the
        collections ReadAt gives, and initialized exactly on success. */
    method Read(file: Option<seq<byte>>, hostLittleEndian: bool) returns (r: ReadOutcome)
      modifies this
      ensures old(initialized) ==> r == Succeeded && initialized && Contents() == old(Contents())
      ensures !old(initialized) ==> (r, Contents()) == ReadAt(hostLittleEndian, file, old(Contents()))
      ensures !old(initialized) ==> initialized == (r == Succeeded)
      ensures attributeLabels == old(attributeLabels)
    {
      if initialized {
        return Succeeded;
      }
      if file.None? {
        return Failed(Unreadable);
      }
      var reader := new UtilBinaryReader.BinaryReader(file.value, LittleEndian);
      var marker := reader.ReadUInt16();
      if marker.Fail? {
        return Caught(marker.error);
      }
      if marker.value != ExpectedMarker(hostLittleEndian) {
        return Failed(WrongByteOrder);
      }
      var version := ReadVersion(reader);
      if version.Fail? {
        return Caught(version.error);
      }
      r := ReadSections(reader);
      initialized := r == Succeeded;
    }

    /** The four sections after the version, each method filling its
        collection in place; IOException is caught, anything else escapes. */
    method ReadSections(reader: Reader) returns (r: ReadOutcome)
      requires reader.Valid()
      modifies this, reader
      ensures (r, Contents()) == SectionsAt(reader.order, reader.data, old(reader.pos), old(Contents()))
      ensures initialized == old(initialized) && attributeLabels == old(attributeLabels)
    {
      var table := ReadFarmTable(reader);
      if table.Fail? {
        return Caught(table.error);
      }
      var labelMap := ReadFeatureLabelsAndGeometriesToCategories(reader);
      if labelMap.Fail? {
        return Caught(labelMap.error);
      }
      var categoryList := ReadFeatureCategoriesToFeatures(reader);
      if categoryList.Fail? {
        return Caught(categoryList.error);
      }
      var attributeList := ReadAttributeCodesToAttributes(reader);
      if attributeList.Fail? {
        return Caught(attributeList.error);
      }
      return Succeeded;
    }

    method ReadVersion(reader: Reader) returns (r: Result<Version>)
      requires reader.Valid()
      modifies reader
      ensures reader.Valid() && Step(r, reader.pos) == VersionAt(reader.order, reader.data, old(reader.pos))
    {
      var versionNumber :- reader.ReadUInt16();
      var formatNumber :- reader.ReadUInt16();
      var updateNumber :- reader.ReadUInt16();
      return Ok(Version(versionNumber, formatNumber, updateNumber));
    }

    /** The switch on a cell's discriminant inside readFarmTable. */
    method ReadDataType(reader: Reader) returns (r: Result<Option<DataType>>)
      requires reader.Valid()
      modifies reader
      ensures reader.Valid() && Step(r, reader.pos) == CellAt(reader.order, reader.data, old(reader.pos))
    {
      var dataType :- reader.ReadUInt16();
      if dataType == 0 {
        return Ok(None);
      } else if dataType == 1 {
        var offset :- reader.ReadInt32();
        var defaultValue :- reader.ReadInt32();
        var minValue :- reader.ReadInt32();
        var maxValue :- reader.ReadInt32();
        return Ok(Some(Int32Type(offset, defaultValue, minValue, maxValue)));
      } else if dataType == 2 {
        var offset :- reader.ReadInt32();
        var defaultValue :- reader.ReadFloat64();
        var minValue :- reader.ReadFloat64();
        var maxValue :- reader.ReadFloat64();
        return Ok(Some(Float64Type(offset, defaultValue, minValue, maxValue)));
      } else if dataType == 3 {
        var offset :- reader.ReadInt32();
        return Ok(Some(StringType(offset)));
      } else if dataType == 4 {
        var offset :- reader.ReadInt32();
        var defaultEnum :- ReadEnumerant(reader);
        var numValidEnums :- reader.ReadInt32();
        var validEnums := ReadValidEnums(reader, numValidEnums);
        if validEnums.Fail? {
          return Fail(validEnums.error);
        }
        return Ok(Some(EnumerationType(EnumerantDataType(offset, Some(defaultEnum), validEnums.value))));
      } else if dataType == 5 {
        var offset :- reader.ReadInt32();
        var defaultValue :- reader.ReadInt32();
        return Ok(Some(BooleanType(offset, defaultValue != 0)));
      } else if dataType == 6 {
        var offset :- reader.ReadInt32();
        return Ok(Some(UuidType(offset)));
      } else {
        return Fail(IO(UnsupportedDataType(dataType)));
      }
    }

    /** The loop that adds `count` pairs to the valid set of an enumeration
        cell; a negative count adds none. */
    method ReadValidEnums(reader: Reader, count: int32) returns (r: Result<set<Enumerant>>)
      requires reader.Valid()
      modifies reader
      ensures reader.Valid()
      ensures Step(r, reader.pos) == EnumerantsAt(reader.order, reader.data, old(reader.pos), if count < 0 then 0 else count)
    {
      ghost var start := reader.pos;
      var validEnums: set<Enumerant> := {};
      var n: nat := if count < 0 then 0 else count;
      for i := 0 to n
        invariant reader.Valid()
        invariant Step(Ok(validEnums), reader.pos) == EnumerantsAt(reader.order, reader.data, start, i)
      {
        EnumerantsNext(reader.order, reader.data, start, i);
        var e := ReadEnumerant(reader);
        if e.Fail? {
          EnumerantsStop(reader.order, reader.data, start, i + 1, n);
          return Fail(e.error);
        }
        validEnums := validEnums + {e.value};
      }
      return Ok(validEnums);
    }

    /** One (eaCode, eeCode) pair, as read for the default and for each
        valid enumerant. */
    method ReadEnumerant(reader: Reader) returns (r: Result<Enumerant>)
      requires reader.Valid()
      modifies reader
      ensures reader.Valid() && Step(r, reader.pos) == EnumerantAt(reader.order, reader.data, old(reader.pos))
    {
      var eaCode :- reader.ReadInt32();
      var eeCode :- reader.ReadInt32();
      return Ok(Enumerant(eaCode, eeCode));
    }

    /** readFarmTable: the counts and codes are read before the table is
        cleared; then the rows are read and the table holds every row
        added, the last one as far as its cells went. */
    method ReadFarmTable(reader: Reader) returns (r: Result<()>)
      requires reader.Valid()
      modifies this, reader
      ensures reader.Valid()
      ensures Outcome(r, reader.pos, farm) == FarmTableAt(reader.order, reader.data, old(reader.pos), old(farm))
      ensures labels == old(labels) && categories == old(categories) && attributes == old(attributes)
      ensures initialized == old(initialized) && attributeLabels == old(attributeLabels)
    {
      var numRows :- reader.ReadUInt16();
      var numColumns :- reader.ReadUInt16();
      var codes :- ReadCodes(reader, numColumns);
      farm := [];
      var table;
      r, table := ReadRows(reader, codes, numRows);
      farm := table;
    }

    /** The column codes of readFarmTable. */
    method ReadCodes(reader: Reader, numColumns: uint16) returns (r: Result<seq<uint16>>)
      requires reader.Valid()
      modifies reader
      ensures reader.Valid() && Step(r, reader.pos) == CodesAt(reader.order, reader.data, old(reader.pos), numColumns)
    {
      ghost var start := reader.pos;
      var codes: seq<uint16> := [];
      for column: nat := 0 to numColumns as nat
        invariant reader.Valid()
        invariant Step(Ok(codes), reader.pos) == CodesAt(reader.order, reader.data, start, column)
      {
        var code :- reader.ReadUInt16();
        codes := codes + [code];
      }
      return Ok(codes);
    }

    /** The row loop of readFarmTable. */
    method ReadRows(reader: Reader, codes: seq<uint16>, numRows: uint16) returns (r: Result<()>, table: seq<Row>)
      requires reader.Valid()
      modifies reader
      ensures reader.Valid()
      ensures Outcome(r, reader.pos, table) == RowsAt(reader.order, reader.data, old(reader.pos), codes, numRows)
    {
      ghost var start := reader.pos;
      table := [];
      for row: nat := 0 to numRows as nat
        invariant reader.Valid()
        invariant Outcome(Ok(()), reader.pos, table) == RowsAt(reader.order, reader.data, start, codes, row)
      {
        r, table := ReadRow(reader, codes, table, start, row);
        if r.Fail? {
          RowsStop(reader.order, reader.data, start, codes, row + 1, numRows);
          return;
        }
        assert r.value == ();
      }
      return Ok(()), table;
    }

    /** One pass of the row loop: Collections.max over the codes, which
        fails when there are none; then a row of that many nulls plus one
        joins the table before its cells are read, so a row whose cell
        fails stays in the table as far as it went. */
    method ReadRow(reader: Reader, codes: seq<uint16>, table: seq<Row>, ghost start: nat, ghost row: nat)
      returns (r: Result<()>, table': seq<Row>)
      requires reader.Valid() && start <= |reader.data|
      requires Outcome(Ok(()), reader.pos, table) == RowsAt(reader.order, reader.data, start, codes, row)
      modifies reader
      ensures reader.Valid()
      ensures Outcome(r, reader.pos, table') == RowsAt(reader.order, reader.data, start, codes, row + 1)
    {
      if |codes| == 0 {
        return Fail(NoSuchElement), table;
      }
      RowsNext(reader.order, reader.data, start, codes, row);
      var rowData;
      r, rowData := ReadRowCells(reader, codes, start, row);
      table' := table + [rowData];
    }

    /** The inner loop of readFarmTable: a row of nulls as wide as the
        largest code plus one, in which each cell read is set at its
        column's code. */
    method ReadRowCells(reader: Reader, codes: seq<uint16>, ghost start: nat, ghost row: nat)
      returns (r: Result<()>, rowData: Row)
      requires reader.Valid() && start <= |reader.data| && |codes| > 0
      requires reader.pos == RowsAt(reader.order, reader.data, start, codes, row).next
      modifies reader
      ensures reader.Valid()
      ensures Outcome(r, reader.pos, rowData) == RowAt(reader.order, reader.data, start, codes, row)
    {
      ghost var cells: seq<Option<DataType>> := [];
      rowData := seq(MaxCode(codes) as nat + 1, _ => None);
      assert rowData == RowOf(codes, Width(codes), []);
      for column := 0 to |codes|
        invariant reader.Valid()
        invariant Outcome(Ok(()), reader.pos, cells) == RowCellsAt(reader.order, reader.data, start, codes, row, column)
        invariant rowData == RowOf(codes, Width(codes), cells)
      {
        var code := codes[column];
        RowCellsNext(reader.order, reader.data, start, codes, row, column);
        var cell := ReadDataType(reader);
        if cell.Fail? {
          RowCellsStop(reader.order, reader.data, start, codes, row, column + 1, |codes|);
          return Fail(cell.error), rowData;
        }
        RowOfSnoc(codes, Width(codes), cells, cell.value);
        rowData := rowData[code := cell.value];
        cells := cells + [cell.value];
      }
      return Ok(()), rowData;
    }

    /** One entry of the label map, as read inside its loop. */
    method ReadLabelEntry(reader: Reader) returns (r: Result<(FeatureLabelAndGeometry, int)>)
      requires reader.Valid()
      modifies reader
      ensures reader.Valid() && Step(r, reader.pos) == LabelEntryAt(reader.order, reader.data, old(reader.pos))
    {
      var name :- reader.ReadString();
      var g :- reader.ReadUInt16();
      var geometry :- FeatureGeometries.FromValue(g);
      var category :- reader.ReadUInt16();
      return Ok((FeatureLabelAndGeometry(name, geometry), category as int));
    }

    /** readFeatureLabelsAndGeometriesToCategories */
    method ReadFeatureLabelsAndGeometriesToCategories(reader: Reader) returns (r: Result<()>)
      requires reader.Valid()
      modifies this, reader
      ensures reader.Valid()
      ensures Outcome(r, reader.pos, labels) == LabelsAt(reader.order, reader.data, old(reader.pos), old(labels))
      ensures farm == old(farm) && categories == old(categories) && attributes == old(attributes)
      ensures initialized == old(initialized) && attributeLabels == old(attributeLabels)
    {
      var mapSize :- reader.ReadUInt16();
      labels := map[];
      ghost var start := reader.pos;
      ghost var entries: seq<(FeatureLabelAndGeometry, int)> := [];
      for i: nat := 0 to mapSize as nat
        invariant reader.Valid()
        invariant Outcome(Ok(()), reader.pos, entries) == LabelEntriesAt(reader.order, reader.data, start, i)
        invariant labels == Upserts(entries)
        invariant farm == old(farm) && categories == old(categories) && attributes == old(attributes)
        invariant initialized == old(initialized) && attributeLabels == old(attributeLabels)
      {
        var entry := ReadLabelEntry(reader);
        if entry.Fail? {
          LabelEntriesStop(reader.order, reader.data, start, i + 1, mapSize);
          return Fail(entry.error);
        }
        labels := labels[entry.value.0 := entry.value.1];
        assert (entries + [entry.value])[..|entries|] == entries;
        entries := entries + [entry.value];
      }
      return Ok(());
    }

    /** readFeature */
    method ReadFeature(reader: Reader) returns (r: Result<Feature>)
      requires reader.Valid()
      modifies reader
      ensures reader.Valid() && Step(r, reader.pos) == FeatureAt(reader.order, reader.data, old(reader.pos))
    {
      var category :- reader.ReadInt32();
      var name :- reader.ReadString();
      r := ReadFeatureFields(reader, category, name);
    }

    /** The rest of readFeature, once its category and label are read. */
    method ReadFeatureFields(reader: Reader, category: int32, name: seq<byte>) returns (r: Result<Feature>)
      requires reader.Valid()
      modifies reader
      ensures reader.Valid() && Step(r, reader.pos) == FeatureFieldsAt(reader.order, reader.data, old(reader.pos), category, name)
    {
      var code :- reader.ReadInt32();
      var g :- reader.ReadInt32();
      var geometry :- FeatureGeometries.FromValue(g);
      var usageBitmask :- reader.ReadInt32();
      var precedence :- reader.ReadInt32();
      var overlaySize :- reader.ReadInt32();
      return Ok(Feature(category, name, code, geometry, usageBitmask, precedence, overlaySize));
    }

    /** One entry of the category list, as read inside its loop: the
        16-bit category, then the feature. */
    method ReadCategoryEntry(reader: Reader) returns (r: Result<(nat, Feature)>)
      requires reader.Valid()
      modifies reader
      ensures reader.Valid() && Step(r, reader.pos) == CategoryEntryAt(reader.order, reader.data, old(reader.pos))
    {
      var category :- reader.ReadUInt16();
      var feature :- ReadFeature(reader);
      return Ok((category as nat, feature));
    }

    /** readFeatureCategoriesToFeatures */
    method ReadFeatureCategoriesToFeatures(reader: Reader) returns (r: Result<()>)
      requires reader.Valid()
      modifies this, reader
      ensures reader.Valid()
      ensures Outcome(r, reader.pos, categories) == CategoriesAt(reader.order, reader.data, old(reader.pos))
      ensures farm == old(farm) && labels == old(labels) && attributes == old(attributes)
      ensures initialized == old(initialized) && attributeLabels == old(attributeLabels)
    {
      categories := [];
      var mapSize :- reader.ReadUInt16();
      ghost var start := reader.pos;
      ghost var entries: seq<(nat, Feature)> := [];
      for i: nat := 0 to mapSize as nat
        invariant reader.Valid()
        invariant Outcome(Ok(()), reader.pos, entries) == CategoryEntriesAt(reader.order, reader.data, start, i)
        invariant categories == GrowSets(entries)
        invariant farm == old(farm) && labels == old(labels) && attributes == old(attributes)
        invariant initialized == old(initialized) && attributeLabels == old(attributeLabels)
      {
        var entry := ReadCategoryEntry(reader);
        if entry.Fail? {
          CategoryEntriesStop(reader.order, reader.data, start, i + 1, mapSize);
          return Fail(entry.error);
        }
        CategoryEntriesNext(reader.order, reader.data, start, i);
        categories := PutGrowing(categories, entry.value.0, entry.value.1);
        GrowSetsSnoc(entries, entry.value);
        entries := entries + [entry.value];
      }
      return Ok(());
    }

    /** readAttribute */
    method ReadAttribute(reader: Reader) returns (r: Result<Attribute>)
      requires reader.Valid()
      modifies reader
      ensures reader.Valid() && Step(r, reader.pos) == AttributeAt(reader.order, reader.data, old(reader.pos))
    {
      var name :- reader.ReadString();
      r := ReadAttributeFields(reader, name);
    }

    /** The rest of readAttribute, once its label is read. */
    method ReadAttributeFields(reader: Reader, name: seq<byte>) returns (r: Result<Attribute>)
      requires reader.Valid()
      modifies reader
      ensures reader.Valid() && Step(r, reader.pos) == AttributeFieldsAt(reader.order, reader.data, old(reader.pos), name)
    {
      var code :- reader.ReadInt32();
      var t :- reader.ReadInt32();
      var dataType :- AttributeDataTypes.FromValue(t);
      var u :- reader.ReadInt32();
      var units :- AttributeUnitsEnum.FromValue(u);
      var editability :- reader.ReadInt32();
      return Ok(Attribute(name, code, dataType, units, editability != 0));
    }

    /** One entry of the attribute list, as read inside its loop: the
        32-bit code, then the attribute. A negative code pads nothing, so
        the List.set that follows throws IndexOutOfBoundsException. */
    method ReadAttributeEntry(reader: Reader) returns (r: Result<(nat, Attribute)>)
      requires reader.Valid()
      modifies reader
      ensures reader.Valid() && Step(r, reader.pos) == AttributeEntryAt(reader.order, reader.data, old(reader.pos))
    {
      var code :- reader.ReadInt32();
      var attribute :- ReadAttribute(reader);
      if code < 0 {
        return Fail(IndexOutOfBounds(code));
      }
      return Ok((code as nat, attribute));
    }

    /** readAttributeCodesToAttributes */
    method ReadAttributeCodesToAttributes(reader: Reader) returns (r: Result<()>)
      requires reader.Valid()
      modifies this, reader
      ensures reader.Valid()
      ensures Outcome(r, reader.pos, attributes) == AttributesAt(reader.order, reader.data, old(reader.pos))
      ensures farm == old(farm) && labels == old(labels) && categories == old(categories)
      ensures initialized == old(initialized) && attributeLabels == old(attributeLabels)
    {
      attributes := [];
      var mapSize :- reader.ReadUInt16();
      ghost var start := reader.pos;
      ghost var entries: seq<(nat, Attribute)> := [];
      for i: nat := 0 to mapSize as nat
        invariant reader.Valid()
        invariant Outcome(Ok(()), reader.pos, entries) == AttributeEntriesAt(reader.order, reader.data, start, i)
        invariant attributes == GrowSets(entries)
        invariant farm == old(farm) && labels == old(labels) && categories == old(categories)
        invariant initialized == old(initialized) && attributeLabels == old(attributeLabels)
      {
        var entry := ReadAttributeEntry(reader);
        if entry.Fail? {
          AttributeEntriesStop(reader.order, reader.data, start, i + 1, mapSize);
          return Fail(entry.error);
        }
        AttributeEntriesNext(reader.order, reader.data, start, i);
        attributes := PutGrowing(attributes, entry.value.0, entry.value.1);
        GrowSetsSnoc(entries, entry.value);
        entries := entries + [entry.value];
      }
      return Ok(());
    }

    /** getFeatureGeometry: the out-parameter and the boolean become one
        optional result. */
    method GetFeatureGeometry(featureCategory: int32) returns (r: Option<FeatureGeometries.FeatureGeometry>)
      ensures r == GeometryOf(categories, featureCategory)
    {
      if featureCategory < 0 || featureCategory >= |categories| {
        return None;
      }
      var feature := categories[featureCategory];
      if feature.None? {
        return None;
      }
      return Some(feature.value.geometry);
    }

    /** getAttribute */
    method GetAttribute(attributeCategory: int32) returns (r: Option<Attribute>)
      ensures r == AttributeOf(attributes, attributeCategory)
    {
      if attributeCategory < 0 || attributeCategory >= |attributes| {
        return None;
      }
      var attribute := attributes[attributeCategory];
      if attribute.None? {
        return None;
      }
      return attribute;
    }

    /** getFeature */
    method GetFeature(featureLabel: seq<byte>, featureGeometry: FeatureGeometries.FeatureGeometry) returns (r: Option<Feature>)
      ensures r == FeatureOf(labels, categories, featureLabel, featureGeometry)
    {
      var key := FeatureLabelAndGeometry(featureLabel, featureGeometry);
      if key !in labels {
        return None;
      }
      var category := labels[key];
      if category < 0 || category >= |categories| {
        return None;
      }
      var feature := categories[category];
      if feature.None? {
        return None;
      }
      return feature;
    }

    /** destroy: clears every collection, but only when initialized. */
    method Destroy()
      modifies this
      ensures old(initialized) ==> !initialized && Contents() == Tables(map[], [], [], []) && attributeLabels == map[]
      ensures !old(initialized) ==> !initialized && Contents() == old(Contents()) && attributeLabels == old(attributeLabels)
    {
      if initialized {
        labels := map[];
        categories := [];
        attributes := [];
        attributeLabels := map[];
        farm := [];
        initialized := false;
      }
    }
  }

  /** `while (list.size() <= index) list.add(null)`: nothing for a negative
      index. */
  method PadWithNulls<V>(list: seq<Option<V>>, index: int) returns (padded: seq<Option<V>>)
    ensures index < |list| ==> padded == list
    ensures index >= |list| ==> padded == list + seq(index + 1 - |list|, _ => None)
  {
    padded := list;
    while |padded| <= index
      invariant |list| <= |padded| && (index >= |list| ==> |padded| <= index + 1)
      invariant index < |list| ==> padded == list
      invariant padded == list + seq(|padded| - |list|, _ => None)
      decreases index - |padded|
    {
      padded := padded + [None];
    }
  }

  /** `while (list.size() <= index) list.add(null); list.set(index, v)`. */
  method PutGrowing<V>(list: seq<Option<V>>, index: nat, v: V) returns (r: seq<Option<V>>)
    ensures r == GrowAndSet(list, index, v)
  {
    r := PadWithNulls(list, index);
    r := r[index := Some(v)];
  }
}
