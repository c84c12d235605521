/** Properties of the legacy format that relate several reads: what each
    kind of farm-table cell holds, the valid set of an enumeration cell,
    and the shape of the rows and of the table. */
module LegacyFarmProperties {
  import opened Results
  import opened Bytes
  import opened EnumerantDataTypes
  import opened LegacyFarmFormat

  /** The `i`-th pair of a run starting at `p` is `e`. */
  ghost predicate PairRead(order: ByteOrder, data: seq<byte>, p: nat, i: nat, e: Enumerant)
    requires p + 8 * i <= |data|
  {
    EnumerantAt(order, data, p + 8 * i).result == Ok(e)
  }

  /** One more pair read adds one more element. */
  lemma EnumerantsSnoc(order: ByteOrder, data: seq<byte>, p: nat, n: nat)
    requires p + 8 * n <= |data| && n > 0
    ensures EnumerantsAt(order, data, p, n).result.value ==
              EnumerantsAt(order, data, p, n - 1).result.value + {EnumerantAt(order, data, p + 8 * (n - 1)).result.value}
  {
  }

  /** A pair among the first `n` is either among the first `n - 1` or the last one. */
  lemma PairsReadSnoc(order: ByteOrder, data: seq<byte>, p: nat, n: nat, e: Enumerant)
    requires p + 8 * n <= |data| && n > 0
    ensures (exists i :: 0 <= i < n && PairRead(order, data, p, i, e)) <==>
            (exists i :: 0 <= i < n - 1 && PairRead(order, data, p, i, e)) || PairRead(order, data, p, n - 1, e)
  {
    if exists i :: 0 <= i < n && PairRead(order, data, p, i, e) {
      var i :| 0 <= i < n && PairRead(order, data, p, i, e);
      if i < n - 1 {
        assert 0 <= i < n - 1 && PairRead(order, data, p, i, e);
      }
    }
  }

  /** The valid set of an enumeration cell is exactly the set of pairs read:
      a pair read twice is kept once. */
  lemma {:induction false} EnumerantsAreThePairsRead(order: ByteOrder, data: seq<byte>, p: nat, n: nat, e: Enumerant)
    requires p + 8 * n <= |data|
    ensures e in EnumerantsAt(order, data, p, n).result.value <==> exists i :: 0 <= i < n && PairRead(order, data, p, i, e)
  {
    if n > 0 {
      EnumerantsSnoc(order, data, p, n);
      EnumerantsAreThePairsRead(order, data, p, n - 1, e);
      PairsReadSnoc(order, data, p, n, e);
    }
  }

  /** One cell, by its discriminant: a discriminant that cannot be read is an
      end of file, one above 6 is rejected right after it is read, and a
      decoded cell is null exactly for discriminant 0. */
  lemma CellTag(order: ByteOrder, data: seq<byte>, p: nat)
    requires p <= |data|
    ensures p + 2 > |data| ==> CellAt(order, data, p) == Step(Fail(IO(EndOfFile)), |data|)
    ensures p + 2 <= |data| && Unsigned16(order, data, p) > 6 ==>
              CellAt(order, data, p) == Step(Fail(IO(UnsupportedDataType(Unsigned16(order, data, p)))), p + 2)
    ensures p + 2 <= |data| && CellAt(order, data, p).result.Ok? ==>
              (CellAt(order, data, p).result.value == None <==> Unsigned16(order, data, p) == 0)
  {
  }

  /** A cell of any discriminant up to 6 other than the enumeration one
      occupies exactly the payload FixedPayload gives after its discriminant,
      and fails with an end of file when the data stop short of it. */
  lemma CellFixedPayload(order: ByteOrder, data: seq<byte>, p: nat)
    requires p + 2 <= |data| && Unsigned16(order, data, p) <= 6 && Unsigned16(order, data, p) != 4
    ensures var r := CellAt(order, data, p);
            var size := FixedPayload(Unsigned16(order, data, p));
            (r.result.Ok? <==> p + 2 + size <= |data|) &&
            (r.result.Ok? ==> r.next == p + 2 + size) &&
            (r.result.Fail? ==> r == Step(Fail(IO(EndOfFile)), |data|))
  {
    var tag := Unsigned16(order, data, p);
    if tag != 0 {
      CellPayload(order, data, p, tag);
    }
  }

  /** The fixed payload of one non-null discriminant other than the
      enumeration one. It is a lemma of its own, with one branch per
      discriminant, so that the case split is proved apart from
      CellFixedPayload: the two together in one proof come close to the
      solver's resource bound. The values these cells hold are stated by
      CellFixedValues and CellBoolean. */
  lemma CellPayload(order: ByteOrder, data: seq<byte>, p: nat, tag: uint16)
    requires p + 2 <= |data| && Unsigned16(order, data, p) == tag && tag in {1, 2, 3, 5, 6}
    ensures var r := CellAt(order, data, p);
            var size := FixedPayload(tag);
            (r.result.Ok? <==> p + 2 + size <= |data|) &&
            (r.result.Ok? ==> r.next == p + 2 + size) &&
            (r.result.Fail? ==> r == Step(Fail(IO(EndOfFile)), |data|))
  {
    if tag == 1 {
    } else if tag == 2 {
    } else if tag == 3 {
    } else if tag == 5 {
    } else {
    }
  }

  /** An enumeration cell holds its offset, its default pair and the pairs of
      its counted tail (none for a negative count). */
  lemma CellEnumeration(order: ByteOrder, data: seq<byte>, p: nat)
    requires p + 18 <= |data| && Unsigned16(order, data, p) == 4
    ensures var r := CellAt(order, data, p);
            var count := ToInt32(Unsigned32(order, data, p + 14));
            var n := if count < 0 then 0 else count;
            (r.result.Ok? <==> p + 18 + 8 * n <= |data|) &&
            (r.result.Ok? ==>
              r.next == p + 18 + 8 * n &&
              r.result.value == Some(EnumerationType(EnumerantDataType(
                ToInt32(Unsigned32(order, data, p + 2)),
                Some(EnumerantAt(order, data, p + 6).result.value),
                EnumerantsAt(order, data, p + 18, n).result.value))))
  {
  }

  /** What a decoded int32, float64, string or UUID cell holds: the 32-bit
      offset right after the discriminant, then, for int32 and float64, the
      default, minimum and maximum in that order, as 32-bit values or as the
      bits of 64-bit doubles. */
  lemma CellFixedValues(order: ByteOrder, data: seq<byte>, p: nat)
    requires p + 2 <= |data| && CellAt(order, data, p).result.Ok?
    ensures var tag := Unsigned16(order, data, p);
            var c := CellAt(order, data, p).result.value;
            (tag == 1 ==>
               p + 18 <= |data| &&
               c == Some(Int32Type(I32(order, data, p + 2), I32(order, data, p + 6),
                                   I32(order, data, p + 10), I32(order, data, p + 14)))) &&
            (tag == 2 ==>
               p + 30 <= |data| &&
               c == Some(Float64Type(I32(order, data, p + 2), Float64Bits(Unsigned64(order, data, p + 6)),
                                     Float64Bits(Unsigned64(order, data, p + 14)),
                                     Float64Bits(Unsigned64(order, data, p + 22))))) &&
            (tag == 3 ==> p + 6 <= |data| && c == Some(StringType(I32(order, data, p + 2)))) &&
            (tag == 6 ==> p + 6 <= |data| && c == Some(UuidType(I32(order, data, p + 2))))
  {
  }

  /** A boolean cell is true unless its 32-bit default is zero. */
  lemma CellBoolean(order: ByteOrder, data: seq<byte>, p: nat)
    requires p + 10 <= |data| && Unsigned16(order, data, p) == 5
    ensures CellAt(order, data, p).result ==
              Ok(Some(BooleanType(ToInt32(Unsigned32(order, data, p + 2)), Unsigned32(order, data, p + 6) != 0)))
  {
  }

  /** A failed run of cells is the run one longer. */
  lemma RowCellsUnfold(order: ByteOrder, data: seq<byte>, p: nat, codes: seq<uint16>, n: nat, k: nat)
    requires p <= |data| && k > 0 && RowCellsAt(order, data, p, codes, n, k - 1).result.Fail?
    ensures RowCellsAt(order, data, p, codes, n, k) == RowCellsAt(order, data, p, codes, n, k - 1)
  {
  }

  /** Once a run of cells has failed, reading further does not change it. */
  lemma RowCellsStop(order: ByteOrder, data: seq<byte>, p: nat, codes: seq<uint16>, n: nat, k: nat, m: nat)
    requires p <= |data| && k <= m && RowCellsAt(order, data, p, codes, n, k).result.Fail?
    ensures RowCellsAt(order, data, p, codes, n, m) == RowCellsAt(order, data, p, codes, n, k)
  {
    var j := k;
    while j < m
      invariant k <= j <= m && RowCellsAt(order, data, p, codes, n, j) == RowCellsAt(order, data, p, codes, n, k)
    {
      RowCellsUnfold(order, data, p, codes, n, j + 1);
      j := j + 1;
    }
  }

  /** A failed run of rows is the run one longer. */
  lemma RowsUnfold(order: ByteOrder, data: seq<byte>, p: nat, codes: seq<uint16>, n: nat)
    requires p <= |data| && n > 0 && RowsAt(order, data, p, codes, n - 1).result.Fail?
    ensures RowsAt(order, data, p, codes, n) == RowsAt(order, data, p, codes, n - 1)
  {
  }

  /** Once a run of rows has failed, reading further does not change it. */
  lemma RowsStop(order: ByteOrder, data: seq<byte>, p: nat, codes: seq<uint16>, k: nat, m: nat)
    requires p <= |data| && k <= m && RowsAt(order, data, p, codes, k).result.Fail?
    ensures RowsAt(order, data, p, codes, m) == RowsAt(order, data, p, codes, k)
  {
    var j := k;
    while j < m
      invariant k <= j <= m && RowsAt(order, data, p, codes, j) == RowsAt(order, data, p, codes, k)
    {
      RowsUnfold(order, data, p, codes, j + 1);
      j := j + 1;
    }
  }

  /** Every row of a table has the given width. */
  ghost predicate RowsWide(rows: seq<Row>, width: nat)
  {
    forall i :: 0 <= i < |rows| ==> |rows[i]| == width
  }

  /** Every row read is as wide as the largest code plus one, and with no
      codes the first row already fails, leaving the table empty. */
  lemma {:induction false} RowsShape(order: ByteOrder, data: seq<byte>, p: nat, codes: seq<uint16>, n: nat)
    requires p <= |data|
    ensures |codes| > 0 ==> RowsWide(RowsAt(order, data, p, codes, n).state, Width(codes))
    ensures |codes| == 0 && n > 0 ==> RowsAt(order, data, p, codes, n) == Outcome(Fail(NoSuchElement), p, [])
  {
    if n > 0 {
      RowsShape(order, data, p, codes, n - 1);
      var init := RowsAt(order, data, p, codes, n - 1);
      if init.result.Ok? && |codes| > 0 {
        var row := RowAt(order, data, p, codes, n - 1);
        assert RowsAt(order, data, p, codes, n).state == init.state + [row.state];
      }
    }
  }

  /** After a complete farm table there are exactly as many rows as the
      file declares, each as wide as the largest code plus one; a table
      with rows but no columns fails with NoSuchElementException and is
      left empty. */
  lemma FarmTableShape(order: ByteOrder, data: seq<byte>, p: nat, farm: seq<Row>)
    requires p + 4 <= |data|
    ensures var r := FarmTableAt(order, data, p, farm);
            r.result.Ok? ==> |r.state| == Unsigned16(order, data, p)
    ensures var r := FarmTableAt(order, data, p, farm);
            var numColumns := Unsigned16(order, data, p + 2);
            r.result.Ok? && Unsigned16(order, data, p) > 0 ==>
              numColumns > 0 &&
              RowsWide(r.state, MaxCode(CodesAt(order, data, p + 4, numColumns).result.value) as nat + 1)
    ensures Unsigned16(order, data, p) > 0 && Unsigned16(order, data, p + 2) == 0 ==>
              FarmTableAt(order, data, p, farm) == Outcome(Fail(NoSuchElement), p + 4, [])
  {
    var numColumns := Unsigned16(order, data, p + 2);
    var codes := CodesAt(order, data, p + 4, numColumns);
    if codes.result.Ok? {
      RowsShape(order, data, codes.next, codes.result.value, Unsigned16(order, data, p));
      assert FarmTableAt(order, data, p, farm) == RowsAt(order, data, codes.next, codes.result.value, Unsigned16(order, data, p));
    }
  }


  /** A failed run of label entries is the run one entry longer. */
  lemma LabelEntriesUnfold(order: ByteOrder, data: seq<byte>, p: nat, n: nat)
    requires p <= |data| && n > 0 && LabelEntriesAt(order, data, p, n - 1).result.Fail?
    ensures LabelEntriesAt(order, data, p, n) == LabelEntriesAt(order, data, p, n - 1)
  {
  }

  /** Once a run of entries has failed, reading further does not change it. */
  lemma LabelEntriesStop(order: ByteOrder, data: seq<byte>, p: nat, k: nat, m: nat)
    requires p <= |data| && k <= m && LabelEntriesAt(order, data, p, k).result.Fail?
    ensures LabelEntriesAt(order, data, p, m) == LabelEntriesAt(order, data, p, k)
  {
    var j := k;
    while j < m
      invariant k <= j <= m && LabelEntriesAt(order, data, p, j) == LabelEntriesAt(order, data, p, k)
    {
      LabelEntriesUnfold(order, data, p, j + 1);
      j := j + 1;
    }
  }

  /** A failed run of category entries is the run one entry longer. */
  lemma CategoryEntriesUnfold(order: ByteOrder, data: seq<byte>, p: nat, n: nat)
    requires p <= |data| && n > 0 && CategoryEntriesAt(order, data, p, n - 1).result.Fail?
    ensures CategoryEntriesAt(order, data, p, n) == CategoryEntriesAt(order, data, p, n - 1)
  {
  }

  /** Once a run of entries has failed, reading further does not change it. */
  lemma CategoryEntriesStop(order: ByteOrder, data: seq<byte>, p: nat, k: nat, m: nat)
    requires p <= |data| && k <= m && CategoryEntriesAt(order, data, p, k).result.Fail?
    ensures CategoryEntriesAt(order, data, p, m) == CategoryEntriesAt(order, data, p, k)
  {
    var j := k;
    while j < m
      invariant k <= j <= m && CategoryEntriesAt(order, data, p, j) == CategoryEntriesAt(order, data, p, k)
    {
      CategoryEntriesUnfold(order, data, p, j + 1);
      j := j + 1;
    }
  }

  /** A failed run of attribute entries is the run one entry longer. */
  lemma AttributeEntriesUnfold(order: ByteOrder, data: seq<byte>, p: nat, n: nat)
    requires p <= |data| && n > 0 && AttributeEntriesAt(order, data, p, n - 1).result.Fail?
    ensures AttributeEntriesAt(order, data, p, n) == AttributeEntriesAt(order, data, p, n - 1)
  {
  }

  /** Once a run of entries has failed, reading further does not change it. */
  lemma AttributeEntriesStop(order: ByteOrder, data: seq<byte>, p: nat, k: nat, m: nat)
    requires p <= |data| && k <= m && AttributeEntriesAt(order, data, p, k).result.Fail?
    ensures AttributeEntriesAt(order, data, p, m) == AttributeEntriesAt(order, data, p, k)
  {
    var j := k;
    while j < m
      invariant k <= j <= m && AttributeEntriesAt(order, data, p, j) == AttributeEntriesAt(order, data, p, k)
    {
      AttributeEntriesUnfold(order, data, p, j + 1);
      j := j + 1;
    }
  }

  /** One more category entry read after a run that succeeded. */
  lemma CategoryEntriesNext(order: ByteOrder, data: seq<byte>, p: nat, n: nat)
    requires p <= |data| && CategoryEntriesAt(order, data, p, n).result.Ok?
    ensures var init := CategoryEntriesAt(order, data, p, n);
            var e := CategoryEntryAt(order, data, init.next);
            CategoryEntriesAt(order, data, p, n + 1) ==
              if e.result.Fail? then Outcome(Fail(e.result.error), e.next, init.state)
              else Outcome(Ok(()), e.next, init.state + [e.result.value])
  {
  }

  /** One more attribute entry read after a run that succeeded. */
  lemma AttributeEntriesNext(order: ByteOrder, data: seq<byte>, p: nat, n: nat)
    requires p <= |data| && AttributeEntriesAt(order, data, p, n).result.Ok?
    ensures var init := AttributeEntriesAt(order, data, p, n);
            var e := AttributeEntryAt(order, data, init.next);
            AttributeEntriesAt(order, data, p, n + 1) ==
              if e.result.Fail? then Outcome(Fail(e.result.error), e.next, init.state)
              else Outcome(Ok(()), e.next, init.state + [e.result.value])
  {
  }

  /** One more pair read after a run that succeeded. */
  lemma EnumerantsNext(order: ByteOrder, data: seq<byte>, p: nat, n: nat)
    requires p <= |data| && EnumerantsAt(order, data, p, n).result.Ok?
    ensures var init := EnumerantsAt(order, data, p, n);
            var e := EnumerantAt(order, data, init.next);
            EnumerantsAt(order, data, p, n + 1) ==
              if e.result.Fail? then Step(Fail(e.result.error), e.next)
              else Step(Ok(init.result.value + {e.result.value}), e.next)
  {
  }

  /** Once a run of pairs has failed, reading further does not change it. */
  lemma EnumerantsStop(order: ByteOrder, data: seq<byte>, p: nat, k: nat, m: nat)
    requires p <= |data| && k <= m && EnumerantsAt(order, data, p, k).result.Fail?
    ensures EnumerantsAt(order, data, p, m) == EnumerantsAt(order, data, p, k)
  {
  }

  /** One more cell read after a run that succeeded. */
  lemma RowCellsNext(order: ByteOrder, data: seq<byte>, p: nat, codes: seq<uint16>, n: nat, k: nat)
    requires p <= |data| && RowCellsAt(order, data, p, codes, n, k).result.Ok?
    ensures var init := RowCellsAt(order, data, p, codes, n, k);
            var c := CellAt(order, data, init.next);
            RowCellsAt(order, data, p, codes, n, k + 1) ==
              if c.result.Fail? then Outcome(Fail(c.result.error), c.next, init.state)
              else Outcome(Ok(()), c.next, init.state + [c.result.value])
  {
  }

  /** One more row read after a run that succeeded, when there are codes:
      its cells start where the rows before it end. */
  lemma RowsNext(order: ByteOrder, data: seq<byte>, p: nat, codes: seq<uint16>, n: nat)
    requires p <= |data| && |codes| > 0 && RowsAt(order, data, p, codes, n).result.Ok?
    ensures var init := RowsAt(order, data, p, codes, n);
            var row := RowAt(order, data, p, codes, n);
            RowsAt(order, data, p, codes, n + 1) == Outcome(row.result, row.next, init.state + [row.state])
  {
  }

}
