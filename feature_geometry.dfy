/** The geometry discriminant of a feature (model/FeatureGeometry.java). */
module FeatureGeometries {
  import opened Results

  datatype FeatureGeometry = Null | Point | Linear | Areal {
    /** getValue: the discriminant stored in the file. */
    function Value(): int
    {
      match this
      case Null => 0
      case Point => 1
      case Linear => 2
      case Areal => 3
    }
  }

  /** values(), in declaration order. */
  const Values: seq<FeatureGeometry> := [Null, Point, Linear, Areal]

  /** fromValue: the first constant whose value is `v`; any other value is an
      IllegalArgumentException. */
  function FromValue(v: int): (r: Result<FeatureGeometry>)
    ensures r.Ok? <==> 0 <= v <= 3
    ensures r.Ok? ==> r.value.Value() == v
    ensures r.Fail? ==> r.error == IllegalArgument
  {
    match v
    case 0 => Ok(Null)
    case 1 => Ok(Point)
    case 2 => Ok(Linear)
    case 3 => Ok(Areal)
    case _ => Fail(IllegalArgument)
  }

  /** `values()` lists the constants in the order of their values, so the
      constant at index `i` has value `i`. */
  lemma ValuesInOrder()
    ensures forall i :: 0 <= i < |Values| ==> Values[i].Value() == i
  {
    forall i | 0 <= i < |Values|
      ensures Values[i].Value() == i
    {
      if i == 0 { assert Values[0].Value() == 0; }
      else if i == 1 { assert Values[1].Value() == 1; }
      else if i == 2 { assert Values[2].Value() == 2; }
      else if i == 3 { assert Values[3].Value() == 3; }
    }
  }

  /** `fromValue` searches `values()`: it succeeds exactly when some constant
      has value `v`, and then returns that constant. */
  lemma FromValueSearchesValues(v: int)
    ensures FromValue(v).Ok? <==> exists i :: 0 <= i < |Values| && Values[i].Value() == v
    ensures forall i :: 0 <= i < |Values| && Values[i].Value() == v ==> FromValue(v) == Ok(Values[i])
  {
    ValuesInOrder();
    if 0 <= v < |Values| {
      assert Values[v].Value() == v;
    }
  }

  /** Decoding the value of a geometry gives the geometry back. */
  lemma FromValueOfValue(g: FeatureGeometry)
    ensures FromValue(g.Value()) == Ok(g)
  {
  }

  /** Distinct geometries have distinct values. */
  lemma ValueInjective(g: FeatureGeometry, h: FeatureGeometry)
    ensures g.Value() == h.Value() ==> g == h
  {
  }
}
