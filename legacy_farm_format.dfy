/** The file format the legacy decoder (FeatureAttributeMapping.java) reads,
    as functions of the byte order, the bytes and a start position. Each
    function follows one read method of the decoder, including the state
    the decoder has already written when an exception stops it: the
    decoder clears and refills its collections in place, so a failure in
    the middle of a section leaves the entries read so far behind. */
module LegacyFarmFormat {
  import opened Results
  import opened Bytes
  import opened Containers
  import R = UtilBinaryReader
  import FeatureGeometries
  import AttributeDataTypes
  import AttributeUnitsEnum
  import opened EnumerantDataTypes

  type FeatureGeometry = FeatureGeometries.FeatureGeometry

  datatype Version = Version(versionNumber: uint16, formatNumber: uint16, updateNumber: uint16)

  /** The version the software was written for; any other only warns. */
  const ExpectedVersion := Version(8, 0, 0)

  datatype FeatureLabelAndGeometry = FeatureLabelAndGeometry(featureLabel: seq<byte>, geometry: FeatureGeometry)

  datatype Feature = Feature(
    category: int32,
    featureLabel: seq<byte>,
    code: int32,
    geometry: FeatureGeometry,
    usageBitmask: int32,
    precedence: int32,
    attributesOverlaySize: int32)

  datatype Attribute = Attribute(
    attributeLabel: seq<byte>,
    code: int32,
    dataType: AttributeDataTypes.AttributeDataType,
    units: AttributeUnitsEnum.AttributeUnits,
    editable: bool)

  /** The cell types of the farm table; a floating-point value is kept as
      its bit pattern. The enumeration cell is built with the no-argument
      constructor and setters, so its default is not checked against its
      valid set. */
  datatype DataType =
    | Int32Type(offset: int32, defaultValue: int32, minValue: int32, maxValue: int32)
    | Float64Type(offset: int32, defaultBits: Float64Bits, minBits: Float64Bits, maxBits: Float64Bits)
    | StringType(offset: int32)
    | EnumerationType(enumeration: EnumerantDataType)
    | BooleanType(offset: int32, defaultFlag: bool)
    | UuidType(offset: int32)

  type Row = seq<Option<DataType>>

  /** What a read that fills a collection in place leaves behind: whether
      it completed, where the cursor stands, and the collection as far as
      it got. */
  datatype Outcome<S> = Outcome(result: Result<()>, next: int, state: S)

  /** A failed read, with the state that is left when it stops the section. */
  function Abort<T, S>(s: Step<T>, state: S): (r: Outcome<S>)
    requires s.result.Fail?
    ensures r.result == Fail(s.result.error) && r.next == s.next && r.state == state
  {
    Outcome(Fail(s.result.error), s.next, state)
  }

  /** readVersion: three 16-bit numbers. */
  function VersionAt(order: ByteOrder, data: seq<byte>, p: nat): (r: Step<Version>)
    requires p <= |data|
    ensures r.result.Ok? <==> p + 6 <= |data|
    ensures r.result.Ok? ==>
              r.next == p + 6 &&
              r.result.value == Version(Unsigned16(order, data, p), Unsigned16(order, data, p + 2), Unsigned16(order, data, p + 4))
    ensures r.result.Fail? ==> r == Step(Fail(IO(EndOfFile)), |data|)
  {
    var v :- R.UInt16At(order, data, p);
    var f :- R.UInt16At(order, data, v.next);
    var u :- R.UInt16At(order, data, f.next);
    Step(Ok(Version(v.value, f.value, u.value)), u.next)
  }

  /** The pair whose two 32-bit codes are the eight bytes at `p`. */
  predicate EnumerantBytes(order: ByteOrder, data: seq<byte>, p: nat, e: Enumerant)
    requires p + 8 <= |data|
  {
    e == Enumerant(ToInt32(Unsigned32(order, data, p)), ToInt32(Unsigned32(order, data, p + 4)))
  }

  /** One (eaCode, eeCode) pair. */
  function EnumerantAt(order: ByteOrder, data: seq<byte>, p: nat): (r: Step<Enumerant>)
    requires p <= |data|
    ensures r.result.Ok? <==> p + 8 <= |data|
    ensures r.result.Ok? ==> r.next == p + 8 && EnumerantBytes(order, data, p, r.result.value)
    ensures r.result.Fail? ==> r == Step(Fail(IO(EndOfFile)), |data|)
  {
    var ea :- R.Int32At(order, data, p);
    var ee :- R.Int32At(order, data, ea.next);
    Step(Ok(Enumerant(ea.value, ee.value)), ee.next)
  }

  /** `n` pairs added in turn to a HashSet. */
  function EnumerantsAt(order: ByteOrder, data: seq<byte>, p: nat, n: nat): (r: Step<set<Enumerant>>)
    requires p <= |data|
    ensures r.result.Ok? <==> p + 8 * n <= |data|
    ensures r.result.Ok? ==> r.next == p + 8 * n
    ensures r.result.Fail? ==> r == Step(Fail(IO(EndOfFile)), |data|)
    decreases n
  {
    if n == 0 then Step(Ok({}), p)
    else
      var init :- EnumerantsAt(order, data, p, n - 1);
      var e :- EnumerantAt(order, data, init.next);
      Step(Ok(init.value + {e.value}), e.next)
  }

  /** The bytes that follow the 16-bit discriminant of a cell whose payload
      has a fixed size; discriminant 4 has a counted tail and discriminants
      above 6 are rejected. */
  function FixedPayload(tag: int): nat
  {
    if tag == 1 then 16
    else if tag == 2 then 28
    else if tag == 3 || tag == 6 then 4
    else if tag == 5 then 8
    else 0
  }

  /** One cell of the farm table: a 16-bit discriminant and its payload.
      Discriminant 0 is a null cell; 4 is an offset, the default pair, a
      32-bit count and that many pairs (a negative count reads none);
      anything above 6 is an IOException once the discriminant is read. */
  function CellAt(order: ByteOrder, data: seq<byte>, p: nat): (r: Step<Option<DataType>>)
    requires p <= |data|
    ensures p <= r.next <= |data|
  {
    var tag :- R.UInt16At(order, data, p);
    var q := tag.next;
    if tag.value == 0 then Step(Ok(None), q)
    else if tag.value == 1 then
      var offset :- R.Int32At(order, data, q);
      var dflt :- R.Int32At(order, data, offset.next);
      var min :- R.Int32At(order, data, dflt.next);
      var max :- R.Int32At(order, data, min.next);
      Step(Ok(Some(Int32Type(offset.value, dflt.value, min.value, max.value))), max.next)
    else if tag.value == 2 then
      var offset :- R.Int32At(order, data, q);
      var dflt :- R.Float64At(order, data, offset.next);
      var min :- R.Float64At(order, data, dflt.next);
      var max :- R.Float64At(order, data, min.next);
      Step(Ok(Some(Float64Type(offset.value, dflt.value, min.value, max.value))), max.next)
    else if tag.value == 3 then
      var offset :- R.Int32At(order, data, q);
      Step(Ok(Some(StringType(offset.value))), offset.next)
    else if tag.value == 4 then
      var offset :- R.Int32At(order, data, q);
      var dflt :- EnumerantAt(order, data, offset.next);
      var count :- R.Int32At(order, data, dflt.next);
      var valid :- EnumerantsAt(order, data, count.next, if count.value < 0 then 0 else count.value);
      Step(Ok(Some(EnumerationType(EnumerantDataType(offset.value, Some(dflt.value), valid.value)))), valid.next)
    else if tag.value == 5 then
      var offset :- R.Int32At(order, data, q);
      var dflt :- R.Int32At(order, data, offset.next);
      Step(Ok(Some(BooleanType(offset.value, dflt.value != 0))), dflt.next)
    else if tag.value == 6 then
      var offset :- R.Int32At(order, data, q);
      Step(Ok(Some(UuidType(offset.value))), offset.next)
    else Step(Fail(IO(UnsupportedDataType(tag.value))), q)
  }

  /** The column codes paired with the cells read for them. */
  function Columns<V>(codes: seq<uint16>, cells: seq<V>): (w: seq<(int, V)>)
    requires |cells| <= |codes|
    ensures |w| == |cells|
    ensures forall i :: 0 <= i < |w| ==> w[i] == (codes[i] as int, cells[i])
  {
    seq(|cells|, i requires 0 <= i < |cells| => (codes[i] as int, cells[i]))
  }

  /** Every code fits a row of the given width. */
  predicate CodesFit(codes: seq<uint16>, width: nat)
  {
    forall i :: 0 <= i < |codes| ==> codes[i] < width
  }

  /** A row of `width` nulls in which each cell read so far is set at its
      column's code. */
  function RowOf(codes: seq<uint16>, width: nat, cells: seq<Option<DataType>>): (row: Row)
    requires CodesFit(codes, width) && |cells| <= |codes|
    ensures |row| == width
  {
    var w := Columns(codes, cells);
    assert InRow(w, width);
    Scatter(seq(width, _ => None), w)
  }

  /** Setting one more cell. */
  lemma RowOfSnoc(codes: seq<uint16>, width: nat, cells: seq<Option<DataType>>, c: Option<DataType>)
    requires CodesFit(codes, width) && |cells| < |codes|
    ensures RowOf(codes, width, cells + [c]) == RowOf(codes, width, cells)[codes[|cells|] as int := c]
  {
    var w := Columns(codes, cells + [c]);
    assert w[..|cells|] == Columns(codes, cells);
  }

  /** A cell lands at its column's code, not at the column's position: a
      slot that no column names stays null, and a slot named by several
      columns holds the cell of the last of them. */
  lemma RowOfAt(codes: seq<uint16>, width: nat, cells: seq<Option<DataType>>, k: nat)
    requires CodesFit(codes, width) && |cells| <= |codes| && k < width
    ensures (forall c :: 0 <= c < |cells| ==> codes[c] as int != k) ==> RowOf(codes, width, cells)[k] == None
    ensures forall c :: 0 <= c < |cells| && codes[c] as int == k && (forall d :: c < d < |cells| ==> codes[d] as int != k) ==>
              RowOf(codes, width, cells)[k] == cells[c]
  {
    var w := Columns(codes, cells);
    assert InRow(w, width);
    ScatterAt(seq(width, _ => None), w, k);
    forall c | 0 <= c < |cells| && codes[c] as int == k && (forall d :: c < d < |cells| ==> codes[d] as int != k)
      ensures RowOf(codes, width, cells)[k] == cells[c]
    {
      assert IsLastWrite(w, c, k);
    }
    if forall c :: 0 <= c < |cells| ==> codes[c] as int != k {
      assert !Writes(w, k);
    }
  }

  /** How wide every row is: the largest code plus one, so every code fits. */
  function Width(codes: seq<uint16>): (w: nat)
    requires |codes| > 0
    ensures CodesFit(codes, w)
  {
    MaxCode(codes) as nat + 1
  }

  /** The table after `n` rows of the nested loop of readFarmTable. Each
      row evaluates Collections.max over the codes, which fails when there
      are none, before its row of nulls is added to the table; the row is
      then filled in place, so when a cell fails the row stays in the table
      with the cells set so far. */
  function RowsAt(order: ByteOrder, data: seq<byte>, p: nat, codes: seq<uint16>, n: nat): (r: Outcome<seq<Row>>)
    requires p <= |data|
    ensures p <= r.next <= |data|
    ensures |r.state| <= n && (r.result.Ok? ==> |r.state| == n)
    decreases n, 0, 0
  {
    if n == 0 then Outcome(Ok(()), p, [])
    else
      var init := RowsAt(order, data, p, codes, n - 1);
      if init.result.Fail? then init
      else if |codes| == 0 then Outcome(Fail(NoSuchElement), init.next, init.state)
      else
        var row := RowAt(order, data, p, codes, n - 1);
        Outcome(row.result, row.next, init.state + [row.state])
  }

  /** The row that follows `n` rows: as wide as the largest code plus one,
      with each of its cells set at its column's code as far as they were
      read. */
  function RowAt(order: ByteOrder, data: seq<byte>, p: nat, codes: seq<uint16>, n: nat): (r: Outcome<Row>)
    requires p <= |data| && |codes| > 0
    ensures p <= r.next <= |data| && |r.state| == Width(codes)
    decreases n, 2
  {
    var cells := RowCellsAt(order, data, p, codes, n, |codes|);
    Outcome(cells.result, cells.next, RowOf(codes, Width(codes), cells.state))
  }

  /** The first `k` cells of the row that follows `n` rows, read in turn
      from where those rows end; on failure, the cells read before it. */
  function RowCellsAt(order: ByteOrder, data: seq<byte>, p: nat, codes: seq<uint16>, n: nat, k: nat)
    : (r: Outcome<seq<Option<DataType>>>)
    requires p <= |data|
    ensures p <= r.next <= |data|
    ensures |r.state| <= k && (r.result.Ok? ==> |r.state| == k)
    decreases n, 1, k
  {
    if k == 0 then Outcome(Ok(()), RowsAt(order, data, p, codes, n).next, [])
    else
      var init := RowCellsAt(order, data, p, codes, n, k - 1);
      if init.result.Fail? then init
      else
        var c := CellAt(order, data, init.next);
        if c.result.Fail? then Abort(c, init.state)
        else Outcome(Ok(()), c.next, init.state + [c.result.value])
  }

  /** `n` 16-bit column codes. */
  function CodesAt(order: ByteOrder, data: seq<byte>, p: nat, n: nat): (r: Step<seq<uint16>>)
    requires p <= |data|
    ensures r.result.Ok? <==> p + 2 * n <= |data|
    ensures r.result.Ok? ==>
              r.next == p + 2 * n && |r.result.value| == n &&
              forall i :: 0 <= i < n ==> r.result.value[i] == Unsigned16(order, data, p + 2 * i)
    ensures r.result.Fail? ==> r == Step(Fail(IO(EndOfFile)), |data|)
    decreases n
  {
    if n == 0 then Step(Ok([]), p)
    else
      var init :- CodesAt(order, data, p, n - 1);
      var c :- R.UInt16At(order, data, init.next);
      Step(Ok(init.value + [c.value]), c.next)
  }

  /** Collections.max over a non-empty list of codes. */
  function MaxCode(codes: seq<uint16>): (m: uint16)
    requires |codes| > 0
    ensures forall i :: 0 <= i < |codes| ==> codes[i] <= m
    ensures exists i :: 0 <= i < |codes| && codes[i] == m
  {
    if |codes| == 1 then codes[0]
    else
      var m := MaxCode(codes[..|codes| - 1]);
      assert forall i :: 0 <= i < |codes| - 1 ==> codes[..|codes| - 1][i] == codes[i];
      if codes[|codes| - 1] > m then codes[|codes| - 1] else m
  }

  /** readFarmTable: row and column counts and the column codes are read
      before the old table is cleared, then the rows. */
  function FarmTableAt(order: ByteOrder, data: seq<byte>, p: nat, farm: seq<Row>): (r: Outcome<seq<Row>>)
    requires p <= |data|
    ensures p <= r.next <= |data|
  {
    var rows := R.UInt16At(order, data, p);
    if rows.result.Fail? then Abort(rows, farm)
    else
      var columns := R.UInt16At(order, data, rows.next);
      if columns.result.Fail? then Abort(columns, farm)
      else
        var codes := CodesAt(order, data, columns.next, columns.result.value);
        if codes.result.Fail? then Abort(codes, farm)
        else RowsAt(order, data, codes.next, codes.result.value, rows.result.value)
  }

  /** One label-map entry: a padded string, a 16-bit geometry and a 16-bit
      category; an unknown geometry throws IllegalArgumentException. */
  function LabelEntryAt(order: ByteOrder, data: seq<byte>, p: nat): (r: Step<(FeatureLabelAndGeometry, int)>)
    requires p <= |data|
    ensures p <= r.next <= |data|
    ensures r.result.Ok? <==>
              R.StringFits(order, data, p) && R.StringEnd(order, data, p) + 4 <= |data| &&
              Unsigned16(order, data, R.StringEnd(order, data, p)) <= 3
    ensures r.result.Ok? ==>
              var q := R.StringEnd(order, data, p);
              var (key, category) := r.result.value;
              r.next == q + 4 &&
              key.featureLabel == data[p + 2..p + 2 + Unsigned16(order, data, p)] &&
              key.geometry.Value() == Unsigned16(order, data, q) &&
              category == Unsigned16(order, data, q + 2)
    ensures R.StringFits(order, data, p) && R.StringEnd(order, data, p) + 2 <= |data| &&
            Unsigned16(order, data, R.StringEnd(order, data, p)) > 3 ==>
              r == Step(Fail(IllegalArgument), R.StringEnd(order, data, p) + 2)
    ensures r.result.Fail? && r.result.error != IllegalArgument ==> r.result.error.IO?
  {
    R.StringLayout(order, data, p);
    var name :- R.StringAt(order, data, p);
    var g :- R.UInt16At(order, data, name.next);
    var geometry :- Step(FeatureGeometries.FromValue(g.value), g.next);
    var category :- R.UInt16At(order, data, g.next);
    Step(Ok((FeatureLabelAndGeometry(name.value, geometry.value), category.value as int)), category.next)
  }

  /** `n` label entries; on failure, the entries read before it. */
  function LabelEntriesAt(order: ByteOrder, data: seq<byte>, p: nat, n: nat): (r: Outcome<seq<(FeatureLabelAndGeometry, int)>>)
    requires p <= |data|
    ensures p <= r.next <= |data|
    ensures |r.state| <= n && (r.result.Ok? ==> |r.state| == n)
    decreases n
  {
    if n == 0 then Outcome(Ok(()), p, [])
    else
      var init := LabelEntriesAt(order, data, p, n - 1);
      if init.result.Fail? then init
      else
        var e := LabelEntryAt(order, data, init.next);
        if e.result.Fail? then Abort(e, init.state)
        else Outcome(Ok(()), e.next, init.state + [e.result.value])
  }

  /** readFeatureLabelsAndGeometriesToCategories: the count is read before
      the map is cleared, then every entry is put in turn. */
  function LabelsAt(order: ByteOrder, data: seq<byte>, p: nat, labels: map<FeatureLabelAndGeometry, int>): (r: Outcome<map<FeatureLabelAndGeometry, int>>)
    requires p <= |data|
    ensures p <= r.next <= |data|
  {
    var count := R.UInt16At(order, data, p);
    if count.result.Fail? then Abort(count, labels)
    else
      var entries := LabelEntriesAt(order, data, count.next, count.result.value);
      Outcome(entries.result, entries.next, Upserts(entries.state))
  }

  /** After the label map is read, a key is present exactly when some entry
      names it, with the category of the last such entry, and the map has
      no more keys than the file declares entries. */
  lemma LabelsAreLastWrites(order: ByteOrder, data: seq<byte>, p: nat, labels: map<FeatureLabelAndGeometry, int>, k: FeatureLabelAndGeometry)
    requires p + 2 <= |data|
    ensures var r := LabelsAt(order, data, p, labels);
            var entries := LabelEntriesAt(order, data, p + 2, Unsigned16(order, data, p)).state;
            r.state == Upserts(entries) &&
            |r.state| <= Unsigned16(order, data, p) &&
            (k in r.state <==> Writes(entries, k)) &&
            forall i :: IsLastWrite(entries, i, k) ==> k in r.state && r.state[k] == entries[i].1
  {
    var entries := LabelEntriesAt(order, data, p + 2, Unsigned16(order, data, p)).state;
    UpsertsLastWins(entries, k);
    UpsertsSize(entries);
  }

  /** readFeature: a 32-bit category and a padded label, then the
      remaining fields. */
  function FeatureAt(order: ByteOrder, data: seq<byte>, p: nat): (r: Step<Feature>)
    requires p <= |data|
    ensures p <= r.next <= |data|
    ensures R.StringFits(order, data, p + 4) ==>
              r == FeatureFieldsAt(order, data, R.StringEnd(order, data, p + 4), I32(order, data, p),
                                   data[p + 6..p + 6 + Unsigned16(order, data, p + 4)])
    ensures !R.StringFits(order, data, p + 4) ==> r.result.Fail? && r.result.error.IO?
  {
    var category :- R.Int32At(order, data, p);
    R.StringLayout(order, data, p + 4);
    var name :- R.StringAt(order, data, p + 4);
    FeatureFieldsAt(order, data, name.next, category.value, name.value)
  }

  /** The rest of readFeature once its category and label are read: code,
      geometry (checked as soon as it is read), usage bitmask, precedence
      and overlay size, each a 32-bit value. */
  function FeatureFieldsAt(order: ByteOrder, data: seq<byte>, q: nat, category: int32, featureLabel: seq<byte>): (r: Step<Feature>)
    requires q <= |data|
    ensures q <= r.next <= |data|
    ensures r.result.Ok? <==> q + 20 <= |data| && 0 <= I32(order, data, q + 4) <= 3
    ensures r.result.Ok? ==>
              var f := r.result.value;
              r.next == q + 20 &&
              f.category == category && f.featureLabel == featureLabel &&
              f.code == I32(order, data, q) &&
              f.geometry.Value() == I32(order, data, q + 4) &&
              f.usageBitmask == I32(order, data, q + 8) &&
              f.precedence == I32(order, data, q + 12) &&
              f.attributesOverlaySize == I32(order, data, q + 16)
    ensures q + 8 <= |data| && !(0 <= I32(order, data, q + 4) <= 3) ==> r == Step(Fail(IllegalArgument), q + 8)
    ensures r.result.Fail? && r.result.error != IllegalArgument ==> r.result == Fail(IO(EndOfFile))
  {
    var code :- R.Int32At(order, data, q);
    var g :- R.Int32At(order, data, code.next);
    var geometry :- Step(FeatureGeometries.FromValue(g.value), g.next);
    var usage :- R.Int32At(order, data, g.next);
    var precedence :- R.Int32At(order, data, usage.next);
    var overlay :- R.Int32At(order, data, precedence.next);
    Step(Ok(Feature(category, featureLabel, code.value, geometry.value, usage.value, precedence.value, overlay.value)), overlay.next)
  }

  /** One category entry: a 16-bit category and the feature stored under it. */
  function CategoryEntryAt(order: ByteOrder, data: seq<byte>, p: nat): (r: Step<(nat, Feature)>)
    requires p <= |data|
    ensures p <= r.next <= |data|
    ensures r.result.Ok? ==> p + 2 <= |data| && r.result.value.0 == Unsigned16(order, data, p)
  {
    var category :- R.UInt16At(order, data, p);
    var feature :- FeatureAt(order, data, category.next);
    Step(Ok((category.value as nat, feature.value)), feature.next)
  }

  function CategoryEntriesAt(order: ByteOrder, data: seq<byte>, p: nat, n: nat): (r: Outcome<seq<(nat, Feature)>>)
    requires p <= |data|
    ensures p <= r.next <= |data|
    ensures |r.state| <= n && (r.result.Ok? ==> |r.state| == n)
    decreases n
  {
    if n == 0 then Outcome(Ok(()), p, [])
    else
      var init := CategoryEntriesAt(order, data, p, n - 1);
      if init.result.Fail? then init
      else
        var e := CategoryEntryAt(order, data, init.next);
        if e.result.Fail? then Abort(e, init.state)
        else Outcome(Ok(()), e.next, init.state + [e.result.value])
  }

  /** readFeatureCategoriesToFeatures: the list is cleared, then the count
      is read and each feature is stored at its category, padding with
      nulls as needed. */
  function CategoriesAt(order: ByteOrder, data: seq<byte>, p: nat): (r: Outcome<seq<Option<Feature>>>)
    requires p <= |data|
    ensures p <= r.next <= |data|
  {
    var count := R.UInt16At(order, data, p);
    if count.result.Fail? then Abort(count, [])
    else
      var entries := CategoryEntriesAt(order, data, count.next, count.result.value);
      Outcome(entries.result, entries.next, GrowSets(entries.state))
  }

  /** readAttribute: a padded label, then the remaining fields. */
  function AttributeAt(order: ByteOrder, data: seq<byte>, p: nat): (r: Step<Attribute>)
    requires p <= |data|
    ensures p <= r.next <= |data|
    ensures R.StringFits(order, data, p) ==>
              r == AttributeFieldsAt(order, data, R.StringEnd(order, data, p), data[p + 2..p + 2 + Unsigned16(order, data, p)])
    ensures !R.StringFits(order, data, p) ==> r.result.Fail? && r.result.error.IO?
  {
    R.StringLayout(order, data, p);
    var name :- R.StringAt(order, data, p);
    AttributeFieldsAt(order, data, name.next, name.value)
  }

  /** The rest of readAttribute once its label is read: code, data type
      and units (each checked as soon as it is read) and editability, each
      a 32-bit value; the attribute is editable unless the last is zero. */
  function AttributeFieldsAt(order: ByteOrder, data: seq<byte>, q: nat, attributeLabel: seq<byte>): (r: Step<Attribute>)
    requires q <= |data|
    ensures q <= r.next <= |data|
    ensures r.result.Ok? <==>
              q + 16 <= |data| && 0 <= I32(order, data, q + 4) <= 7 && 0 <= I32(order, data, q + 8) <= 12
    ensures r.result.Ok? ==>
              var a := r.result.value;
              r.next == q + 16 &&
              a.attributeLabel == attributeLabel &&
              a.code == I32(order, data, q) &&
              a.dataType.Value() == I32(order, data, q + 4) &&
              a.units.Value() == I32(order, data, q + 8) &&
              (a.editable <==> I32(order, data, q + 12) != 0)
    ensures q + 8 <= |data| && !(0 <= I32(order, data, q + 4) <= 7) ==> r == Step(Fail(IllegalArgument), q + 8)
    ensures q + 12 <= |data| && 0 <= I32(order, data, q + 4) <= 7 && !(0 <= I32(order, data, q + 8) <= 12) ==>
              r == Step(Fail(IllegalArgument), q + 12)
    ensures r.result.Fail? && r.result.error != IllegalArgument ==> r.result == Fail(IO(EndOfFile))
  {
    var code :- R.Int32At(order, data, q);
    var t :- R.Int32At(order, data, code.next);
    var dataType :- Step(AttributeDataTypes.FromValue(t.value), t.next);
    var u :- R.Int32At(order, data, t.next);
    var units :- Step(AttributeUnitsEnum.FromValue(u.value), u.next);
    var editable :- R.Int32At(order, data, u.next);
    Step(Ok(Attribute(attributeLabel, code.value, dataType.value, units.value, editable.value != 0)), editable.next)
  }

  /** One attribute entry: a 32-bit code and the attribute stored under it.
      A negative code passes the padding loop and fails in List.set, after
      the attribute has been read. */
  function AttributeEntryAt(order: ByteOrder, data: seq<byte>, p: nat): (r: Step<(nat, Attribute)>)
    requires p <= |data|
    ensures p <= r.next <= |data|
    ensures p + 4 <= |data| && ToInt32(Unsigned32(order, data, p)) < 0 ==> r.result.Fail?
    ensures p + 4 <= |data| && AttributeAt(order, data, p + 4).result.Ok? && ToInt32(Unsigned32(order, data, p)) < 0 ==>
              r == Step(Fail(IndexOutOfBounds(ToInt32(Unsigned32(order, data, p)))), AttributeAt(order, data, p + 4).next)
    ensures r.result.Ok? ==> p + 4 <= |data| && r.result.value.0 == ToInt32(Unsigned32(order, data, p))
  {
    var code :- R.Int32At(order, data, p);
    var attribute :- AttributeAt(order, data, code.next);
    if code.value < 0 then Step(Fail(IndexOutOfBounds(code.value)), attribute.next)
    else Step(Ok((code.value as nat, attribute.value)), attribute.next)
  }

  function AttributeEntriesAt(order: ByteOrder, data: seq<byte>, p: nat, n: nat): (r: Outcome<seq<(nat, Attribute)>>)
    requires p <= |data|
    ensures p <= r.next <= |data|
    ensures |r.state| <= n && (r.result.Ok? ==> |r.state| == n)
    decreases n
  {
    if n == 0 then Outcome(Ok(()), p, [])
    else
      var init := AttributeEntriesAt(order, data, p, n - 1);
      if init.result.Fail? then init
      else
        var e := AttributeEntryAt(order, data, init.next);
        if e.result.Fail? then Abort(e, init.state)
        else Outcome(Ok(()), e.next, init.state + [e.result.value])
  }

  /** readAttributeCodesToAttributes: as for categories, keyed by code. */
  function AttributesAt(order: ByteOrder, data: seq<byte>, p: nat): (r: Outcome<seq<Option<Attribute>>>)
    requires p <= |data|
    ensures p <= r.next <= |data|
  {
    var count := R.UInt16At(order, data, p);
    if count.result.Fail? then Abort(count, [])
    else
      var entries := AttributeEntriesAt(order, data, count.next, count.result.value);
      Outcome(entries.result, entries.next, GrowSets(entries.state))
  }

  /** A list built by storing entries at their indices: it is one longer
      than the largest index stored, each stored index holds the last
      value stored there, and every other slot is null. */
  lemma IndexedListHolds<V>(entries: seq<(nat, V)>, k: nat)
    ensures forall i :: 0 <= i < |entries| ==> entries[i].0 < |GrowSets(entries)|
    ensures |entries| > 0 ==> Writes(entries, |GrowSets(entries)| - 1)
    ensures k < |GrowSets(entries)| && !Writes(entries, k) ==> GrowSets(entries)[k] == None
    ensures forall i :: IsLastWrite(entries, i, k) ==> GrowSets(entries)[k] == Some(entries[i].1)
  {
    GrowSetsLength(entries);
    GrowSetsAt(entries, k);
  }

  /** The decoder's collections. */
  datatype Tables = Tables(
    labels: map<FeatureLabelAndGeometry, int>,
    categories: seq<Option<Feature>>,
    attributes: seq<Option<Attribute>>,
    farm: seq<Row>)

  /** What `read` appends to its failureReason output parameter before
      returning false: the file cannot be opened, the byte-order marker is
      wrong, or an IOException was caught (its message is the failure). The
      message text itself is not modelled. */
  datatype FailureReason =
    | Unreadable
    | WrongByteOrder
    | ReadError(failure: IOFailure)

  /** How `read` ends: true, false with the reason it gives, or an
      exception it lets escape. */
  datatype ReadOutcome = Succeeded | Failed(reason: FailureReason) | Threw(error: Exception)

  /** `read` catches IOException only. */
  function Caught(e: Exception): (o: ReadOutcome)
    ensures o.Failed? <==> e.IO?
    ensures o.Failed? ==> o.reason == ReadError(e.failure)
    ensures !o.Failed? ==> o == Threw(e)
  {
    if e.IO? then Failed(ReadError(e.failure)) else Threw(e)
  }

  /** The byte-order marker `read` demands: 1 on a little-endian host, 0 on
      a big-endian one. */
  function ExpectedMarker(hostLittleEndian: bool): int
  {
    if hostLittleEndian then 1 else 0
  }

  /** The four sections after the version, each writing its collection in
      place, so that a failure leaves the sections before it written and the
      failed one as far as it got. */
  function SectionsAt(order: ByteOrder, data: seq<byte>, p: nat, t: Tables): (r: (ReadOutcome, Tables))
    requires p <= |data|
    ensures var farm := FarmTableAt(order, data, p, t.farm);
            var labels := LabelsAt(order, data, farm.next, t.labels);
            var categories := CategoriesAt(order, data, labels.next);
            var attributes := AttributesAt(order, data, categories.next);
            (r.0 == Succeeded <==> farm.result.Ok? && labels.result.Ok? && categories.result.Ok? && attributes.result.Ok?) &&
            (r.0 == Succeeded ==> r.1 == Tables(labels.state, categories.state, attributes.state, farm.state)) &&
            (farm.result.Fail? ==> r == (Caught(farm.result.error), t.(farm := farm.state))) &&
            (farm.result.Ok? && labels.result.Fail? ==>
               r == (Caught(labels.result.error), t.(farm := farm.state, labels := labels.state))) &&
            (farm.result.Ok? && labels.result.Ok? && categories.result.Fail? ==>
               r == (Caught(categories.result.error), t.(farm := farm.state, labels := labels.state, categories := categories.state))) &&
            (farm.result.Ok? && labels.result.Ok? && categories.result.Ok? && attributes.result.Fail? ==>
               r == (Caught(attributes.result.error), Tables(labels.state, categories.state, attributes.state, farm.state)))
  {
    var farm := FarmTableAt(order, data, p, t.farm);
    var t1 := t.(farm := farm.state);
    if farm.result.Fail? then (Caught(farm.result.error), t1)
    else
      var labels := LabelsAt(order, data, farm.next, t.labels);
      var t2 := t1.(labels := labels.state);
      if labels.result.Fail? then (Caught(labels.result.error), t2)
      else
        var categories := CategoriesAt(order, data, labels.next);
        var t3 := t2.(categories := categories.state);
        if categories.result.Fail? then (Caught(categories.result.error), t3)
        else
          var attributes := AttributesAt(order, data, categories.next);
          var t4 := t3.(attributes := attributes.state);
          if attributes.result.Fail? then (Caught(attributes.result.error), t4)
          else (Succeeded, t4)
  }

  /** `read` on a decoder that is not yet initialized. The file is always
      read little-endian; the marker is compared with the host's order; the
      version is read and only logged; the four sections follow, each
      writing its collection in place. */
  function ReadAt(hostLittleEndian: bool, file: Option<seq<byte>>, t: Tables): (r: (ReadOutcome, Tables))
    ensures r.0 == Succeeded ==>
              file.Some? && |file.value| >= 8 &&
              Unsigned16(LittleEndian, file.value, 0) == ExpectedMarker(hostLittleEndian)
    ensures file.None? ==> r == (Failed(Unreadable), t)
    ensures file.Some? && |file.value| < 2 ==> r == (Failed(ReadError(EndOfFile)), t)
    ensures file.Some? && |file.value| >= 2 && Unsigned16(LittleEndian, file.value, 0) != ExpectedMarker(hostLittleEndian) ==>
              r == (Failed(WrongByteOrder), t)
    ensures file.Some? && 2 <= |file.value| < 8 && Unsigned16(LittleEndian, file.value, 0) == ExpectedMarker(hostLittleEndian) ==>
              r == (Failed(ReadError(EndOfFile)), t)
    ensures file.Some? && |file.value| >= 8 && Unsigned16(LittleEndian, file.value, 0) == ExpectedMarker(hostLittleEndian) ==>
              r == SectionsAt(LittleEndian, file.value, 8, t)
  {
    if file.None? then (Failed(Unreadable), t)
    else
      var data := file.value;
      var marker := R.UInt16At(LittleEndian, data, 0);
      if marker.result.Fail? then (Caught(marker.result.error), t)
      else if marker.result.value != ExpectedMarker(hostLittleEndian) then (Failed(WrongByteOrder), t)
      else
        var version := VersionAt(LittleEndian, data, marker.next);
        if version.result.Fail? then (Caught(version.result.error), t)
        else
          SectionsAt(LittleEndian, data, version.next, t)
  }

  /** getFeatureGeometry: the geometry of the feature stored at a category,
      if the category is in range and its slot is not null. */
  function GeometryOf(categories: seq<Option<Feature>>, category: int): (g: Option<FeatureGeometry>)
    ensures g.Some? <==> 0 <= category < |categories| && categories[category].Some?
    ensures g.Some? ==> g.value == categories[category].value.geometry
  {
    if category < 0 || category >= |categories| then None
    else match categories[category]
      case None => None
      case Some(f) => Some(f.geometry)
  }

  /** getAttribute: the attribute stored at a code, if in range and not null. */
  function AttributeOf(attributes: seq<Option<Attribute>>, code: int): (a: Option<Attribute>)
    ensures a.Some? <==> 0 <= code < |attributes| && attributes[code].Some?
    ensures a.Some? ==> a == attributes[code]
  {
    if code < 0 || code >= |attributes| then None else attributes[code]
  }

  /** getFeature: the category stored for (label, geometry), then the
      feature stored at that category, if both exist. */
  function FeatureOf(labels: map<FeatureLabelAndGeometry, int>, categories: seq<Option<Feature>>, name: seq<byte>, geometry: FeatureGeometry): (f: Option<Feature>)
    ensures var key := FeatureLabelAndGeometry(name, geometry);
            f.Some? <==> key in labels && 0 <= labels[key] < |categories| && categories[labels[key]].Some?
    ensures f.Some? ==> f == categories[labels[FeatureLabelAndGeometry(name, geometry)]]
  {
    var key := FeatureLabelAndGeometry(name, geometry);
    if key !in labels then None
    else
      var category := labels[key];
      if category < 0 || category >= |categories| then None else categories[category]
  }

  /** Looking up a category after the list was built from `entries`: the
      geometry of the last feature stored under it, or nothing when none
      was. */
  lemma GeometryOfStored(entries: seq<(nat, Feature)>, category: nat)
    ensures !Writes(entries, category) ==> GeometryOf(GrowSets(entries), category) == None
    ensures forall i :: IsLastWrite(entries, i, category) ==> GeometryOf(GrowSets(entries), category) == Some(entries[i].1.geometry)
  {
    IndexedListHolds(entries, category);
  }
}
