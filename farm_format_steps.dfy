/** How the runs of the newer format fold one read after another: each run
    stops at its first failure, and a run that succeeded is extended by one
    more read where it ended. The parse loops are proved against these. */
module FarmFormatSteps {
  import opened Results
  import opened Bytes
  import opened FarmFormat
  import E = IoEnhancedBinaryReader

  /** A failed run of attribute codes is the run one longer. */
  lemma CodesUnfold(order: ByteOrder, data: seq<byte>, p: nat, n: nat)
    requires n > 0 && CodesAt(order, data, p, n - 1).result.Fail?
    ensures CodesAt(order, data, p, n) == CodesAt(order, data, p, n - 1)
  {
  }

  /** Once a run of attribute codes has failed, reading further does not change it. */
  lemma CodesStop(order: ByteOrder, data: seq<byte>, p: nat, k: nat, m: nat)
    requires k <= m && CodesAt(order, data, p, k).result.Fail?
    ensures CodesAt(order, data, p, m) == CodesAt(order, data, p, k)
  {
    var j := k;
    while j < m
      invariant k <= j <= m && CodesAt(order, data, p, j) == CodesAt(order, data, p, k)
    {
      CodesUnfold(order, data, p, j + 1);
      j := j + 1;
    }
  }

  /** One more code read after a run that succeeded. */
  lemma CodesNext(order: ByteOrder, data: seq<byte>, p: nat, n: nat)
    requires CodesAt(order, data, p, n).result.Ok?
    ensures var init := CodesAt(order, data, p, n);
            var e := E.Int32At(order, data, init.next);
            CodesAt(order, data, p, n + 1) ==
              if e.result.Fail? then Step(Fail(e.result.error), e.next)
              else Step(Ok(init.result.value + [e.result.value]), e.next)
  {
  }

  /** A failed run of pairs is the run one longer. */
  lemma EnumerantsUnfold(order: ByteOrder, data: seq<byte>, p: nat, n: nat)
    requires n > 0 && EnumerantsAt(order, data, p, n - 1).result.Fail?
    ensures EnumerantsAt(order, data, p, n) == EnumerantsAt(order, data, p, n - 1)
  {
  }

  /** Once a run of pairs has failed, reading further does not change it. */
  lemma EnumerantsStop(order: ByteOrder, data: seq<byte>, p: nat, k: nat, m: nat)
    requires k <= m && EnumerantsAt(order, data, p, k).result.Fail?
    ensures EnumerantsAt(order, data, p, m) == EnumerantsAt(order, data, p, k)
  {
    var j := k;
    while j < m
      invariant k <= j <= m && EnumerantsAt(order, data, p, j) == EnumerantsAt(order, data, p, k)
    {
      EnumerantsUnfold(order, data, p, j + 1);
      j := j + 1;
    }
  }

  /** One more pair read after a run that succeeded. */
  lemma EnumerantsNext(order: ByteOrder, data: seq<byte>, p: nat, n: nat)
    requires EnumerantsAt(order, data, p, n).result.Ok?
    ensures var init := EnumerantsAt(order, data, p, n);
            var e := EnumerantAt(order, data, init.next);
            EnumerantsAt(order, data, p, n + 1) ==
              if e.result.Fail? then Step(Fail(e.result.error), e.next)
              else Step(Ok(init.result.value + [e.result.value]), e.next)
  {
  }

  /** A failed run of records is the run one longer. */
  lemma RecordsUnfold(order: ByteOrder, data: seq<byte>, p: nat, n: nat)
    requires n > 0 && RecordsAt(order, data, p, n - 1).result.Fail?
    ensures RecordsAt(order, data, p, n) == RecordsAt(order, data, p, n - 1)
  {
  }

  /** Once a run of records has failed, reading further does not change it. */
  lemma RecordsStop(order: ByteOrder, data: seq<byte>, p: nat, k: nat, m: nat)
    requires k <= m && RecordsAt(order, data, p, k).result.Fail?
    ensures RecordsAt(order, data, p, m) == RecordsAt(order, data, p, k)
  {
    var j := k;
    while j < m
      invariant k <= j <= m && RecordsAt(order, data, p, j) == RecordsAt(order, data, p, k)
    {
      RecordsUnfold(order, data, p, j + 1);
      j := j + 1;
    }
  }

  /** One more record read after a run that succeeded. */
  lemma RecordsNext(order: ByteOrder, data: seq<byte>, p: nat, n: nat)
    requires RecordsAt(order, data, p, n).result.Ok?
    ensures var init := RecordsAt(order, data, p, n);
            var e := DataTypeAt(order, data, init.next);
            RecordsAt(order, data, p, n + 1) ==
              if e.result.Fail? then Step(Fail(e.result.error), e.next)
              else Step(Ok(init.result.value + [e.result.value]), e.next)
  {
  }

  /** A failed run of label entries is the run one longer. */
  lemma LabelEntriesUnfold(order: ByteOrder, data: seq<byte>, p: nat, n: nat)
    requires n > 0 && LabelEntriesAt(order, data, p, n - 1).result.Fail?
    ensures LabelEntriesAt(order, data, p, n) == LabelEntriesAt(order, data, p, n - 1)
  {
  }

  /** Once a run of label entries has failed, reading further does not change it. */
  lemma LabelEntriesStop(order: ByteOrder, data: seq<byte>, p: nat, k: nat, m: nat)
    requires k <= m && LabelEntriesAt(order, data, p, k).result.Fail?
    ensures LabelEntriesAt(order, data, p, m) == LabelEntriesAt(order, data, p, k)
  {
    var j := k;
    while j < m
      invariant k <= j <= m && LabelEntriesAt(order, data, p, j) == LabelEntriesAt(order, data, p, k)
    {
      LabelEntriesUnfold(order, data, p, j + 1);
      j := j + 1;
    }
  }

  /** One more label entry read after a run that succeeded. */
  lemma LabelEntriesNext(order: ByteOrder, data: seq<byte>, p: nat, n: nat)
    requires LabelEntriesAt(order, data, p, n).result.Ok?
    ensures var init := LabelEntriesAt(order, data, p, n);
            var e := LabelEntryAt(order, data, init.next);
            LabelEntriesAt(order, data, p, n + 1) ==
              if e.result.Fail? then Step(Fail(e.result.error), e.next)
              else Step(Ok(init.result.value + [(e.result.value, n)]), e.next)
  {
  }

  /** A failed run of category entries is the run one longer. */
  lemma CategoryEntriesUnfold(order: ByteOrder, data: seq<byte>, p: nat, n: nat)
    requires n > 0 && CategoryEntriesAt(order, data, p, n - 1).result.Fail?
    ensures CategoryEntriesAt(order, data, p, n) == CategoryEntriesAt(order, data, p, n - 1)
  {
  }

  /** Once a run of category entries has failed, reading further does not change it. */
  lemma CategoryEntriesStop(order: ByteOrder, data: seq<byte>, p: nat, k: nat, m: nat)
    requires k <= m && CategoryEntriesAt(order, data, p, k).result.Fail?
    ensures CategoryEntriesAt(order, data, p, m) == CategoryEntriesAt(order, data, p, k)
  {
    var j := k;
    while j < m
      invariant k <= j <= m && CategoryEntriesAt(order, data, p, j) == CategoryEntriesAt(order, data, p, k)
    {
      CategoryEntriesUnfold(order, data, p, j + 1);
      j := j + 1;
    }
  }

  /** One more category entry read after a run that succeeded. */
  lemma CategoryEntriesNext(order: ByteOrder, data: seq<byte>, p: nat, n: nat)
    requires CategoryEntriesAt(order, data, p, n).result.Ok?
    ensures var init := CategoryEntriesAt(order, data, p, n);
            var e := CategoryEntryAt(order, data, init.next);
            CategoryEntriesAt(order, data, p, n + 1) ==
              if e.result.Fail? then Step(Fail(e.result.error), e.next)
              else Step(Ok(init.result.value + [e.result.value]), e.next)
  {
  }

  /** A failed run of attribute entries is the run one longer. */
  lemma AttributeEntriesUnfold(order: ByteOrder, data: seq<byte>, p: nat, n: nat)
    requires n > 0 && AttributeEntriesAt(order, data, p, n - 1).result.Fail?
    ensures AttributeEntriesAt(order, data, p, n) == AttributeEntriesAt(order, data, p, n - 1)
  {
  }

  /** Once a run of attribute entries has failed, reading further does not change it. */
  lemma AttributeEntriesStop(order: ByteOrder, data: seq<byte>, p: nat, k: nat, m: nat)
    requires k <= m && AttributeEntriesAt(order, data, p, k).result.Fail?
    ensures AttributeEntriesAt(order, data, p, m) == AttributeEntriesAt(order, data, p, k)
  {
    var j := k;
    while j < m
      invariant k <= j <= m && AttributeEntriesAt(order, data, p, j) == AttributeEntriesAt(order, data, p, k)
    {
      AttributeEntriesUnfold(order, data, p, j + 1);
      j := j + 1;
    }
  }

  /** One more attribute entry read after a run that succeeded. */
  lemma AttributeEntriesNext(order: ByteOrder, data: seq<byte>, p: nat, n: nat)
    requires AttributeEntriesAt(order, data, p, n).result.Ok?
    ensures var init := AttributeEntriesAt(order, data, p, n);
            var e := AttributeEntryAt(order, data, init.next);
            AttributeEntriesAt(order, data, p, n + 1) ==
              if e.result.Fail? then Step(Fail(e.result.error), e.next)
              else Step(Ok(init.result.value + [e.result.value]), e.next)
  {
  }

  /** A run that succeeded extends the shorter run before it. */
  lemma CodesInit(order: ByteOrder, data: seq<byte>, p: nat, n: nat)
    requires CodesAt(order, data, p, n).result.Ok? && n > 0
    ensures CodesAt(order, data, p, n - 1).result.Ok?
    ensures CodesAt(order, data, p, n).result.value[..n - 1] == CodesAt(order, data, p, n - 1).result.value
  {
  }

  /** The last element of a run is the one read where the run before it
      ended. */
  lemma CodesLast(order: ByteOrder, data: seq<byte>, p: nat, n: nat)
    requires CodesAt(order, data, p, n + 1).result.Ok?
    ensures CodesAt(order, data, p, n).result.Ok?
    ensures E.Int32At(order, data, CodesAt(order, data, p, n).next).result == Ok(CodesAt(order, data, p, n + 1).result.value[n])
  {
  }

  /** Element `i` of a run is element `i` of the run that stops right after it. */
  lemma {:induction false} CodesPrefix(order: ByteOrder, data: seq<byte>, p: nat, n: nat, i: nat)
    requires CodesAt(order, data, p, n).result.Ok? && i < n
    ensures CodesAt(order, data, p, i + 1).result.Ok?
    ensures CodesAt(order, data, p, n).result.value[i] == CodesAt(order, data, p, i + 1).result.value[i]
  {
    if i < n - 1 {
      CodesInit(order, data, p, n);
      CodesPrefix(order, data, p, n - 1, i);
      assert CodesAt(order, data, p, n).result.value[..n - 1][i] == CodesAt(order, data, p, n).result.value[i];
    }
  }

  /** A run that succeeded extends the shorter run before it. */
  lemma EnumerantsInit(order: ByteOrder, data: seq<byte>, p: nat, n: nat)
    requires EnumerantsAt(order, data, p, n).result.Ok? && n > 0
    ensures EnumerantsAt(order, data, p, n - 1).result.Ok?
    ensures EnumerantsAt(order, data, p, n).result.value[..n - 1] == EnumerantsAt(order, data, p, n - 1).result.value
  {
  }

  /** The last element of a run is the one read where the run before it
      ended. */
  lemma EnumerantsLast(order: ByteOrder, data: seq<byte>, p: nat, n: nat)
    requires EnumerantsAt(order, data, p, n + 1).result.Ok?
    ensures EnumerantsAt(order, data, p, n).result.Ok?
    ensures EnumerantAt(order, data, EnumerantsAt(order, data, p, n).next).result == Ok(EnumerantsAt(order, data, p, n + 1).result.value[n])
  {
  }

  /** Element `i` of a run is element `i` of the run that stops right after it. */
  lemma {:induction false} EnumerantsPrefix(order: ByteOrder, data: seq<byte>, p: nat, n: nat, i: nat)
    requires EnumerantsAt(order, data, p, n).result.Ok? && i < n
    ensures EnumerantsAt(order, data, p, i + 1).result.Ok?
    ensures EnumerantsAt(order, data, p, n).result.value[i] == EnumerantsAt(order, data, p, i + 1).result.value[i]
  {
    if i < n - 1 {
      EnumerantsInit(order, data, p, n);
      EnumerantsPrefix(order, data, p, n - 1, i);
      assert EnumerantsAt(order, data, p, n).result.value[..n - 1][i] == EnumerantsAt(order, data, p, n).result.value[i];
    }
  }

  /** A run that succeeded extends the shorter run before it. */
  lemma RecordsInit(order: ByteOrder, data: seq<byte>, p: nat, n: nat)
    requires RecordsAt(order, data, p, n).result.Ok? && n > 0
    ensures RecordsAt(order, data, p, n - 1).result.Ok?
    ensures RecordsAt(order, data, p, n).result.value[..n - 1] == RecordsAt(order, data, p, n - 1).result.value
  {
  }

  /** The last element of a run is the one read where the run before it
      ended. */
  lemma RecordsLast(order: ByteOrder, data: seq<byte>, p: nat, n: nat)
    requires RecordsAt(order, data, p, n + 1).result.Ok?
    ensures RecordsAt(order, data, p, n).result.Ok?
    ensures DataTypeAt(order, data, RecordsAt(order, data, p, n).next).result == Ok(RecordsAt(order, data, p, n + 1).result.value[n])
  {
    RecordsInit(order, data, p, n + 1);
    RecordsNext(order, data, p, n);
  }

  /** Element `i` of a run is element `i` of the run that stops right after it. */
  lemma {:induction false} RecordsPrefix(order: ByteOrder, data: seq<byte>, p: nat, n: nat, i: nat)
    requires RecordsAt(order, data, p, n).result.Ok? && i < n
    ensures RecordsAt(order, data, p, i + 1).result.Ok?
    ensures RecordsAt(order, data, p, n).result.value[i] == RecordsAt(order, data, p, i + 1).result.value[i]
  {
    if i < n - 1 {
      RecordsInit(order, data, p, n);
      RecordsPrefix(order, data, p, n - 1, i);
      assert RecordsAt(order, data, p, n).result.value[..n - 1][i] == RecordsAt(order, data, p, n).result.value[i];
    }
  }

  /** A run that succeeded extends the shorter run before it. */
  lemma LabelEntriesInit(order: ByteOrder, data: seq<byte>, p: nat, n: nat)
    requires LabelEntriesAt(order, data, p, n).result.Ok? && n > 0
    ensures LabelEntriesAt(order, data, p, n - 1).result.Ok?
    ensures LabelEntriesAt(order, data, p, n).result.value[..n - 1] == LabelEntriesAt(order, data, p, n - 1).result.value
  {
  }

  /** The last entry of a run is the one read where the run before it
      ended, with index `n`. */
  lemma LabelEntriesLast(order: ByteOrder, data: seq<byte>, p: nat, n: nat)
    requires LabelEntriesAt(order, data, p, n + 1).result.Ok?
    ensures LabelEntriesAt(order, data, p, n).result.Ok?
    ensures LabelEntryAt(order, data, LabelEntriesAt(order, data, p, n).next).result == Ok(LabelEntriesAt(order, data, p, n + 1).result.value[n].0)
    ensures LabelEntriesAt(order, data, p, n + 1).result.value[n].1 == n
  {
    LabelEntriesInit(order, data, p, n + 1);
    LabelEntriesNext(order, data, p, n);
  }

  /** Element `i` of a run is element `i` of the run that stops right after it. */
  lemma {:induction false} LabelEntriesPrefix(order: ByteOrder, data: seq<byte>, p: nat, n: nat, i: nat)
    requires LabelEntriesAt(order, data, p, n).result.Ok? && i < n
    ensures LabelEntriesAt(order, data, p, i + 1).result.Ok?
    ensures LabelEntriesAt(order, data, p, n).result.value[i] == LabelEntriesAt(order, data, p, i + 1).result.value[i]
  {
    if i < n - 1 {
      LabelEntriesInit(order, data, p, n);
      LabelEntriesPrefix(order, data, p, n - 1, i);
      assert LabelEntriesAt(order, data, p, n).result.value[..n - 1][i] == LabelEntriesAt(order, data, p, n).result.value[i];
    }
  }

  /** A run that succeeded extends the shorter run before it. */
  lemma CategoryEntriesInit(order: ByteOrder, data: seq<byte>, p: nat, n: nat)
    requires CategoryEntriesAt(order, data, p, n).result.Ok? && n > 0
    ensures CategoryEntriesAt(order, data, p, n - 1).result.Ok?
    ensures CategoryEntriesAt(order, data, p, n).result.value[..n - 1] == CategoryEntriesAt(order, data, p, n - 1).result.value
  {
  }

  /** The last element of a run is the one read where the run before it
      ended. */
  lemma CategoryEntriesLast(order: ByteOrder, data: seq<byte>, p: nat, n: nat)
    requires CategoryEntriesAt(order, data, p, n + 1).result.Ok?
    ensures CategoryEntriesAt(order, data, p, n).result.Ok?
    ensures CategoryEntryAt(order, data, CategoryEntriesAt(order, data, p, n).next).result == Ok(CategoryEntriesAt(order, data, p, n + 1).result.value[n])
  {
  }

  /** Element `i` of a run is element `i` of the run that stops right after it. */
  lemma {:induction false} CategoryEntriesPrefix(order: ByteOrder, data: seq<byte>, p: nat, n: nat, i: nat)
    requires CategoryEntriesAt(order, data, p, n).result.Ok? && i < n
    ensures CategoryEntriesAt(order, data, p, i + 1).result.Ok?
    ensures CategoryEntriesAt(order, data, p, n).result.value[i] == CategoryEntriesAt(order, data, p, i + 1).result.value[i]
  {
    if i < n - 1 {
      CategoryEntriesInit(order, data, p, n);
      CategoryEntriesPrefix(order, data, p, n - 1, i);
      assert CategoryEntriesAt(order, data, p, n).result.value[..n - 1][i] == CategoryEntriesAt(order, data, p, n).result.value[i];
    }
  }

  /** A run that succeeded extends the shorter run before it. */
  lemma AttributeEntriesInit(order: ByteOrder, data: seq<byte>, p: nat, n: nat)
    requires AttributeEntriesAt(order, data, p, n).result.Ok? && n > 0
    ensures AttributeEntriesAt(order, data, p, n - 1).result.Ok?
    ensures AttributeEntriesAt(order, data, p, n).result.value[..n - 1] == AttributeEntriesAt(order, data, p, n - 1).result.value
  {
  }

  /** The last element of a run is the one read where the run before it
      ended. */
  lemma AttributeEntriesLast(order: ByteOrder, data: seq<byte>, p: nat, n: nat)
    requires AttributeEntriesAt(order, data, p, n + 1).result.Ok?
    ensures AttributeEntriesAt(order, data, p, n).result.Ok?
    ensures AttributeEntryAt(order, data, AttributeEntriesAt(order, data, p, n).next).result == Ok(AttributeEntriesAt(order, data, p, n + 1).result.value[n])
  {
  }

  /** Element `i` of a run is element `i` of the run that stops right after it. */
  lemma {:induction false} AttributeEntriesPrefix(order: ByteOrder, data: seq<byte>, p: nat, n: nat, i: nat)
    requires AttributeEntriesAt(order, data, p, n).result.Ok? && i < n
    ensures AttributeEntriesAt(order, data, p, i + 1).result.Ok?
    ensures AttributeEntriesAt(order, data, p, n).result.value[i] == AttributeEntriesAt(order, data, p, i + 1).result.value[i]
  {
    if i < n - 1 {
      AttributeEntriesInit(order, data, p, n);
      AttributeEntriesPrefix(order, data, p, n - 1, i);
      assert AttributeEntriesAt(order, data, p, n).result.value[..n - 1][i] == AttributeEntriesAt(order, data, p, n).result.value[i];
    }
  }
}
