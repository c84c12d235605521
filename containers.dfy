/** The container updates the decoders perform entry by entry, each given as
    a fold over the list of writes in file order together with a lemma that
    says, independently of the fold, what every slot or key holds afterwards:
    - `Upserts`: HashMap.put into an empty map,
    - `Scatter`: List.set into a row of fixed length,
    - `GrowSets`: `while (list.size() <= i) list.add(null); list.set(i, v)`
      into an empty list. */
module Containers {
  import opened Results

  /** Entry `i` is the last of `writes` that writes key `k`. */
  ghost predicate IsLastWrite<K, V>(writes: seq<(K, V)>, i: int, k: K)
  {
    0 <= i < |writes| && writes[i].0 == k && forall j :: i < j < |writes| ==> writes[j].0 != k
  }

  /** Some entry of `writes` writes key `k`. */
  ghost predicate Writes<K, V>(writes: seq<(K, V)>, k: K)
  {
    exists i :: 0 <= i < |writes| && writes[i].0 == k
  }

  /** How the last write to a key relates to the writes before the final one. */
  lemma LastWriteSnoc<K, V>(writes: seq<(K, V)>, k: K)
    requires |writes| > 0
    ensures var n := |writes|;
            var init := writes[..n - 1];
            (writes[n - 1].0 != k ==> (Writes(writes, k) <==> Writes(init, k))) &&
            (writes[n - 1].0 != k ==> forall i :: IsLastWrite(writes, i, k) ==> IsLastWrite(init, i, k)) &&
            (writes[n - 1].0 == k ==> Writes(writes, k) && forall i :: IsLastWrite(writes, i, k) ==> i == n - 1)
  {
    var n := |writes|;
    var init := writes[..n - 1];
    assert forall i :: 0 <= i < n - 1 ==> init[i] == writes[i];
    if writes[n - 1].0 != k {
      forall i | IsLastWrite(writes, i, k) ensures IsLastWrite(init, i, k) { }
      if Writes(init, k) {
        var i :| 0 <= i < n - 1 && init[i].0 == k;
        assert writes[i].0 == k;
      }
    } else {
      forall i | IsLastWrite(writes, i, k) ensures i == n - 1 { }
    }
  }

  /** The map obtained by putting every entry, in order, into an empty map. */
  function Upserts<K, V>(writes: seq<(K, V)>): map<K, V>
  {
    if |writes| == 0 then map[]
    else Upserts(writes[..|writes| - 1])[writes[|writes| - 1].0 := writes[|writes| - 1].1]
  }

  /** A key is present exactly when some entry writes it, and then it holds
      the value of the last such entry. */
  lemma {:induction false} UpsertsLastWins<K, V>(writes: seq<(K, V)>, k: K)
    ensures k in Upserts(writes) <==> Writes(writes, k)
    ensures forall i :: IsLastWrite(writes, i, k) ==> k in Upserts(writes) && Upserts(writes)[k] == writes[i].1
  {
    if |writes| > 0 {
      UpsertsLastWins(writes[..|writes| - 1], k);
      LastWriteSnoc(writes, k);
    }
  }

  /** A map built from `n` entries has at most `n` keys. */
  lemma {:induction false} UpsertsSize<K, V>(writes: seq<(K, V)>)
    ensures |Upserts(writes)| <= |writes|
  {
    if |writes| > 0 {
      UpsertsSize(writes[..|writes| - 1]);
    }
  }

  /** A key that is written at all has a last write. */
  lemma {:induction false} LastWriteExists<K, V>(writes: seq<(K, V)>, k: K)
    requires Writes(writes, k)
    ensures exists i :: IsLastWrite(writes, i, k)
  {
    var n := |writes|;
    LastWriteSnoc(writes, k);
    if writes[n - 1].0 == k {
      assert IsLastWrite(writes, n - 1, k);
    } else {
      var init := writes[..n - 1];
      LastWriteExists(init, k);
      var i :| IsLastWrite(init, i, k);
      assert IsLastWrite(writes, i, k);
    }
  }

  /** One more put updates the map built from the puts before it. */
  lemma UpsertsSnoc<K, V>(writes: seq<(K, V)>, w: (K, V))
    ensures Upserts(writes + [w]) == Upserts(writes)[w.0 := w.1]
  {
    assert (writes + [w])[..|writes|] == writes;
  }

  ghost predicate InRow<V>(writes: seq<(int, V)>, width: int)
  {
    forall i :: 0 <= i < |writes| ==> 0 <= writes[i].0 < width
  }

  /** The row obtained by setting, in order, slot `w.0` to `w.1` for each write. */
  function Scatter<V>(row: seq<V>, writes: seq<(int, V)>): (r: seq<V>)
    requires InRow(writes, |row|)
    ensures |r| == |row|
  {
    if |writes| == 0 then row
    else Scatter(row, writes[..|writes| - 1])[writes[|writes| - 1].0 := writes[|writes| - 1].1]
  }

  /** A slot that no write names keeps its value; a slot that is written holds
      the value of the last write to it. */
  lemma {:induction false} ScatterAt<V>(row: seq<V>, writes: seq<(int, V)>, k: int)
    requires InRow(writes, |row|) && 0 <= k < |row|
    ensures !Writes(writes, k) ==> Scatter(row, writes)[k] == row[k]
    ensures forall i :: IsLastWrite(writes, i, k) ==> Scatter(row, writes)[k] == writes[i].1
  {
    if |writes| > 0 {
      var init := writes[..|writes| - 1];
      assert InRow(init, |row|);
      ScatterAt(row, init, k);
      LastWriteSnoc(writes, k);
    }
  }

  /** `while (list.size() <= index) list.add(null); list.set(index, v);` */
  function GrowAndSet<V>(list: seq<Option<V>>, index: nat, v: V): (r: seq<Option<V>>)
    ensures |r| == if index < |list| then |list| else index + 1
    ensures r[index] == Some(v)
    ensures forall j :: 0 <= j < |r| && j != index ==> r[j] == if j < |list| then list[j] else None
  {
    var padded := if index < |list| then list else list + seq(index + 1 - |list|, _ => None);
    padded[index := Some(v)]
  }

  /** The list obtained by growing an empty list and setting each write in turn. */
  function GrowSets<V>(writes: seq<(nat, V)>): seq<Option<V>>
  {
    if |writes| == 0 then []
    else GrowAndSet(GrowSets(writes[..|writes| - 1]), writes[|writes| - 1].0, writes[|writes| - 1].1)
  }

  /** One more write grows and sets the list built from the writes before it. */
  lemma GrowSetsSnoc<V>(writes: seq<(nat, V)>, w: (nat, V))
    ensures GrowSets(writes + [w]) == GrowAndSet(GrowSets(writes), w.0, w.1)
  {
    assert (writes + [w])[..|writes|] == writes;
  }

  /** The list is exactly one longer than the largest index written. */
  lemma {:induction false} GrowSetsLength<V>(writes: seq<(nat, V)>)
    ensures forall i :: 0 <= i < |writes| ==> writes[i].0 < |GrowSets(writes)|
    ensures |writes| == 0 <==> |GrowSets(writes)| == 0
    ensures |writes| > 0 ==> Writes(writes, |GrowSets(writes)| - 1)
  {
    if |writes| > 0 {
      var n := |writes|;
      var init := writes[..n - 1];
      assert forall i :: 0 <= i < n - 1 ==> init[i] == writes[i];
      GrowSetsLength(init);
      var before := GrowSets(init);
      var after := GrowSets(writes);
      if writes[n - 1].0 < |before| {
        if n > 1 {
          var i :| 0 <= i < n - 1 && init[i].0 == |before| - 1;
          assert writes[i].0 == |after| - 1;
        }
      } else {
        assert writes[n - 1].0 == |after| - 1;
      }
    }
  }

  /** A slot holds the value of the last write to it, and a hole holds null. */
  lemma {:induction false} GrowSetsAt<V>(writes: seq<(nat, V)>, k: int)
    ensures 0 <= k < |GrowSets(writes)| && !Writes(writes, k) ==> GrowSets(writes)[k] == None
    ensures forall i :: IsLastWrite(writes, i, k) ==> k < |GrowSets(writes)| && GrowSets(writes)[k] == Some(writes[i].1)
  {
    GrowSetsLength(writes);
    if |writes| > 0 {
      var init := writes[..|writes| - 1];
      GrowSetsAt(init, k);
      GrowSetsLength(init);
      LastWriteSnoc(writes, k);
    }
  }
}
