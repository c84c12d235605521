/** The physical unit of an attribute (model/AttributeUnits.java). */
module AttributeUnitsEnum {
  import opened Results

  datatype AttributeUnits =
    | Unitless | Meters | MetersPerSecond | SquareMeters | Degrees | Kilograms
    | KilogramsPerCubicMeter | Celsius | Liters | Lux | Pascals | EnumerationUnits
    | Milliseconds
  {
    /** getValue */
    function Value(): int
    {
      match this
      case Unitless => 0
      case Meters => 1
      case MetersPerSecond => 2
      case SquareMeters => 3
      case Degrees => 4
      case Kilograms => 5
      case KilogramsPerCubicMeter => 6
      case Celsius => 7
      case Liters => 8
      case Lux => 9
      case Pascals => 10
      case EnumerationUnits => 11
      case Milliseconds => 12
    }
  }

  /** values(), in declaration order. */
  const Values: seq<AttributeUnits> :=
    [Unitless, Meters, MetersPerSecond, SquareMeters, Degrees, Kilograms,
     KilogramsPerCubicMeter, Celsius, Liters, Lux, Pascals, EnumerationUnits,
     Milliseconds]

  /** fromValue: 0..12; any other value is an IllegalArgumentException. */
  function FromValue(v: int): (r: Result<AttributeUnits>)
    ensures r.Ok? <==> 0 <= v <= 12
    ensures r.Ok? ==> r.value.Value() == v
    ensures r.Fail? ==> r.error == IllegalArgument
  {
    match v
    case 0 => Ok(Unitless)
    case 1 => Ok(Meters)
    case 2 => Ok(MetersPerSecond)
    case 3 => Ok(SquareMeters)
    case 4 => Ok(Degrees)
    case 5 => Ok(Kilograms)
    case 6 => Ok(KilogramsPerCubicMeter)
    case 7 => Ok(Celsius)
    case 8 => Ok(Liters)
    case 9 => Ok(Lux)
    case 10 => Ok(Pascals)
    case 11 => Ok(EnumerationUnits)
    case 12 => Ok(Milliseconds)
    case _ => Fail(IllegalArgument)
  }

  /** `values()` lists the constants in the order of their values, so the
      constant at index `i` has value `i`. */
  lemma ValuesInOrder()
    ensures forall i :: 0 <= i < |Values| ==> Values[i].Value() == i
  {
    forall i | 0 <= i < |Values|
      ensures Values[i].Value() == i
    {
      if i == 0 { assert Values[0].Value() == 0; }
      else if i == 1 { assert Values[1].Value() == 1; }
      else if i == 2 { assert Values[2].Value() == 2; }
      else if i == 3 { assert Values[3].Value() == 3; }
      else if i == 4 { assert Values[4].Value() == 4; }
      else if i == 5 { assert Values[5].Value() == 5; }
      else if i == 6 { assert Values[6].Value() == 6; }
      else if i == 7 { assert Values[7].Value() == 7; }
      else if i == 8 { assert Values[8].Value() == 8; }
      else if i == 9 { assert Values[9].Value() == 9; }
      else if i == 10 { assert Values[10].Value() == 10; }
      else if i == 11 { assert Values[11].Value() == 11; }
      else if i == 12 { assert Values[12].Value() == 12; }
    }
  }

  /** `fromValue` searches `values()`: it succeeds exactly when some constant
      has value `v`, and then returns that constant. */
  lemma FromValueSearchesValues(v: int)
    ensures FromValue(v).Ok? <==> exists i :: 0 <= i < |Values| && Values[i].Value() == v
    ensures forall i :: 0 <= i < |Values| && Values[i].Value() == v ==> FromValue(v) == Ok(Values[i])
  {
    ValuesInOrder();
    if 0 <= v < |Values| {
      assert Values[v].Value() == v;
    }
  }

  lemma FromValueOfValue(u: AttributeUnits)
    ensures FromValue(u.Value()) == Ok(u)
  {
  }

  lemma ValueInjective(u: AttributeUnits, w: AttributeUnits)
    ensures u.Value() == w.Value() ==> u == w
  {
  }
}
