/** The data-type discriminant of an attribute (model/AttributeDataType.java). */
module AttributeDataTypes {
  import opened Results

  datatype AttributeDataType =
    | NoDataType | Int32 | Float64 | String | Enumeration | Boolean | Uuid | Deleted
  {
    /** getValue */
    function Value(): int
    {
      match this
      case NoDataType => 0
      case Int32 => 1
      case Float64 => 2
      case String => 3
      case Enumeration => 4
      case Boolean => 5
      case Uuid => 6
      case Deleted => 7
    }
  }

  /** values(), in declaration order. */
  const Values: seq<AttributeDataType> :=
    [NoDataType, Int32, Float64, String, Enumeration, Boolean, Uuid, Deleted]

  /** fromValue: 0..7, DELETED included; any other value is an
      IllegalArgumentException. */
  function FromValue(v: int): (r: Result<AttributeDataType>)
    ensures r.Ok? <==> 0 <= v <= 7
    ensures r.Ok? ==> r.value.Value() == v
    ensures r.Fail? ==> r.error == IllegalArgument
  {
    match v
    case 0 => Ok(NoDataType)
    case 1 => Ok(Int32)
    case 2 => Ok(Float64)
    case 3 => Ok(String)
    case 4 => Ok(Enumeration)
    case 5 => Ok(Boolean)
    case 6 => Ok(Uuid)
    case 7 => Ok(Deleted)
    case _ => Fail(IllegalArgument)
  }

  /** `values()` lists the constants in the order of their values, so the
      constant at index `i` has value `i`. */
  lemma ValuesInOrder()
    ensures forall i :: 0 <= i < |Values| ==> Values[i].Value() == i
  {
    forall i | 0 <= i < |Values|
      ensures Values[i].Value() == i
    {
      if i == 0 { assert Values[0].Value() == 0; }
      else if i == 1 { assert Values[1].Value() == 1; }
      else if i == 2 { assert Values[2].Value() == 2; }
      else if i == 3 { assert Values[3].Value() == 3; }
      else if i == 4 { assert Values[4].Value() == 4; }
      else if i == 5 { assert Values[5].Value() == 5; }
      else if i == 6 { assert Values[6].Value() == 6; }
      else if i == 7 { assert Values[7].Value() == 7; }
    }
  }

  /** `fromValue` searches `values()`: it succeeds exactly when some constant
      has value `v`, and then returns that constant. */
  lemma FromValueSearchesValues(v: int)
    ensures FromValue(v).Ok? <==> exists i :: 0 <= i < |Values| && Values[i].Value() == v
    ensures forall i :: 0 <= i < |Values| && Values[i].Value() == v ==> FromValue(v) == Ok(Values[i])
  {
    ValuesInOrder();
    if 0 <= v < |Values| {
      assert Values[v].Value() == v;
    }
  }

  lemma FromValueOfValue(t: AttributeDataType)
    ensures FromValue(t.Value()) == Ok(t)
  {
  }

  lemma ValueInjective(t: AttributeDataType, u: AttributeDataType)
    ensures t.Value() == u.Value() ==> t == u
  {
  }
}
