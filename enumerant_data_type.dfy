/** The enumeration data type of a farm-table cell
    (model/datatype/EnumerantDataType.java): an attribute offset, a default
    enumerant and the set of valid enumerants. */
module EnumerantDataTypes {
  import opened Results
  import opened Bytes

  /** An enumerant: the attribute it belongs to and its own code. The legacy
      decoder calls the two fields eaCode and eeCode, the newer one
      attributeCode and enumerantCode. */
  datatype Enumerant = Enumerant(eaCode: int32, eeCode: int32)

  /** A `null` default is `None`. */
  datatype EnumerantDataType = EnumerantDataType(offset: int32, defaultEnum: Option<Enumerant>, validEnums: set<Enumerant>)

  /** The invariant the validating constructor checks. */
  predicate DefaultIsValid(t: EnumerantDataType)
  {
    t.defaultEnum.Some? && t.defaultEnum.value in t.validEnums
  }

  /** The no-argument constructor: offset 0, a null default and an empty set
      of valid enumerants. */
  function Empty(): (r: EnumerantDataType)
    ensures r.validEnums == {} && r.defaultEnum.None?
    ensures !DefaultIsValid(r)
  {
    EnumerantDataType(0, None, {})
  }

  /** The three-argument constructor: it stores its arguments and then throws
      IllegalArgumentException unless the default is one of the valid
      enumerants. */
  function Create(offset: int32, defaultEnum: Option<Enumerant>, validEnums: set<Enumerant>): (r: Result<EnumerantDataType>)
    ensures r.Ok? <==> defaultEnum.Some? && defaultEnum.value in validEnums
    ensures r.Ok? ==> r.value.offset == offset && r.value.defaultEnum == defaultEnum && r.value.validEnums == validEnums
    ensures r.Ok? ==> DefaultIsValid(r.value)
    ensures r.Fail? ==> r.error == IllegalArgument
  {
    var t := EnumerantDataType(offset, defaultEnum, validEnums);
    if defaultEnum.Some? && defaultEnum.value in validEnums then Ok(t) else Fail(IllegalArgument)
  }

  /** getDefault: the enumerant code of the default, or NullPointerException
      when the default is null. */
  function GetDefault(t: EnumerantDataType): (r: Result<int32>)
    ensures r.Ok? <==> t.defaultEnum.Some?
    ensures r.Ok? ==> r.value == t.defaultEnum.value.eeCode
    ensures r.Fail? ==> r.error == NullPointer
  {
    match t.defaultEnum
    case None => Fail(NullPointer)
    case Some(e) => Ok(e.eeCode)
  }

  /** Every value `Create` accepts has a default, and that default's code is
      the code of one of its valid enumerants. */
  lemma CreatedDefaultIsValid(offset: int32, defaultEnum: Option<Enumerant>, validEnums: set<Enumerant>)
    requires Create(offset, defaultEnum, validEnums).Ok?
    ensures var t := Create(offset, defaultEnum, validEnums).value;
            GetDefault(t).Ok? && exists e :: e in validEnums && e.eeCode == GetDefault(t).value
  {
    var e := defaultEnum.value;
    assert e in validEnums && e.eeCode == GetDefault(Create(offset, defaultEnum, validEnums).value).value;
  }

  /** A value `Create` accepts is rebuilt unchanged by `Create` from its own
      fields, and the no-argument value is never one of them. */
  lemma CreateRoundTrip(t: EnumerantDataType)
    ensures Create(t.offset, t.defaultEnum, t.validEnums) == if DefaultIsValid(t) then Ok(t) else Fail(IllegalArgument)
    ensures Create(Empty().offset, Empty().defaultEnum, Empty().validEnums).Fail?
  {
  }
}
