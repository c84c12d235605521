/** The usage flags of a feature and their rendering as text
    (model/UsageBitmask.java). The bitmask is a Java `int`, so a `bv32` here. */
module UsageBitmask {

  const Avenue: bv32 := 0x0000001
  const Aperture: bv32 := 0x0000002
  const Building: bv32 := 0x0000004
  const AgricultureFarm: bv32 := 0x0000008
  const Forest: bv32 := 0x0000010
  const Furniture: bv32 := 0x0000020
  const RaisedCombatPos: bv32 := 0x0000040
  const DugInCombatPos: bv32 := 0x0000080
  const Lane: bv32 := 0x0000100
  const MultiBldg: bv32 := 0x0000200
  const LfSmlVehObstacle: bv32 := 0x0000400
  const VehObstacle: bv32 := 0x0000800
  const AirVehObstacle: bv32 := 0x0001000
  const Urban: bv32 := 0x0002000
  const Nbc: bv32 := 0x0004000
  const BlocksLSmlVehLos: bv32 := 0x0008000
  const BlocksVehLos: bv32 := 0x0010000
  const BlocksLos: bv32 := 0x0020000
  const ProtectsLSmlVeh: bv32 := 0x0040000
  const ProtectsVeh: bv32 := 0x0080000
  const BodyOfWater: bv32 := 0x0100000

  const Separator: string := ", "

  /** The flags `toString` tests, in the order it tests them, with their names. */
  const RenderedFlags: seq<(bv32, string)> :=
    [(Avenue, "AVENUE"), (Aperture, "APERTURE"), (Building, "BUILDING"),
     (AgricultureFarm, "AGRICULTURE_FARM"), (Forest, "FOREST")]

  /** `(bitmask & flag) != 0` */
  predicate IsSet(bitmask: bv32, flag: bv32)
  {
    bitmask & flag != 0
  }

  /** The names of the flags of `flags` that are set in `bitmask`, in order. */
  function NamesOf(bitmask: bv32, flags: seq<(bv32, string)>): seq<string>
  {
    if |flags| == 0 then []
    else
      var last := flags[|flags| - 1];
      NamesOf(bitmask, flags[..|flags| - 1]) + (if IsSet(bitmask, last.0) then [last.1] else [])
  }

  /** `names` joined by ", ". */
  function Join(names: seq<string>): string
  {
    if |names| == 0 then ""
    else if |names| == 1 then names[0]
    else Join(names[..|names| - 1]) + Separator + names[|names| - 1]
  }

  lemma JoinSnoc(names: seq<string>, name: string)
    ensures Join(names + [name]) == if names == [] then name else Join(names) + Separator + name
  {
    assert (names + [name])[..|names|] == names;
  }

  /** Appending a name after a separator, unless it is the first, extends the join. */
  lemma AppendName(names: seq<string>, name: string, sb: string, first: bool)
    requires sb == Join(names) && first == (names == [])
    ensures (if first then sb else sb + Separator) + name == Join(names + [name])
  {
    JoinSnoc(names, name);
  }

  lemma NamesOfSnoc(bitmask: bv32, tested: seq<(bv32, string)>, flag: (bv32, string))
    ensures NamesOf(bitmask, tested + [flag]) == NamesOf(bitmask, tested) + (if IsSet(bitmask, flag.0) then [flag.1] else [])
  {
    assert (tested + [flag])[..|tested|] == tested;
  }

  /** `sb` and `first` once `toString` has tested the flags `tested`. */
  ghost predicate RenderedSoFar(bitmask: bv32, tested: seq<(bv32, string)>, sb: string, first: bool)
  {
    var names := NamesOf(bitmask, tested);
    sb == Join(names) && first == (names == [])
  }

  /** Testing one more flag, as each `if` of `toString` does, keeps
      `RenderedSoFar`: `sb'` and `first'` are `sb` and `first` after the `if`. */
  lemma Step(bitmask: bv32, tested: seq<(bv32, string)>, flag: (bv32, string),
             sb: string, first: bool, sb': string, first': bool)
    requires RenderedSoFar(bitmask, tested, sb, first)
    requires sb' == if IsSet(bitmask, flag.0) then (if first then sb else sb + Separator) + flag.1 else sb
    requires first' == (first && !IsSet(bitmask, flag.0))
    ensures RenderedSoFar(bitmask, tested + [flag], sb', first')
  {
    var before := NamesOf(bitmask, tested);
    NamesOfSnoc(bitmask, tested, flag);
    if IsSet(bitmask, flag.0) {
      AppendName(before, flag.1, sb, first);
    } else {
      assert before + [] == before;
    }
  }

  /** toString(bitmask): appends the name of each set flag to a StringBuilder,
      preceded by ", " unless it is the first. */
  method ToString(bitmask: bv32) returns (s: string)
    ensures s == Join(NamesOf(bitmask, RenderedFlags))
  {
    var sb := "";
    var first := true;
    ghost var tested: seq<(bv32, string)> := [];
    ghost var sb0, first0 := sb, first;
    if bitmask & Avenue != 0 {
      sb := sb + "AVENUE";
      first := false;
    }
    Step(bitmask, tested, (Avenue, "AVENUE"), sb0, first0, sb, first);
    tested := tested + [(Avenue, "AVENUE")];
    sb0, first0 := sb, first;
    if bitmask & Aperture != 0 {
      if !first { sb := sb + Separator; }
      sb := sb + "APERTURE";
      first := false;
    }
    Step(bitmask, tested, (Aperture, "APERTURE"), sb0, first0, sb, first);
    tested := tested + [(Aperture, "APERTURE")];
    sb0, first0 := sb, first;
    if bitmask & Building != 0 {
      if !first { sb := sb + Separator; }
      sb := sb + "BUILDING";
      first := false;
    }
    Step(bitmask, tested, (Building, "BUILDING"), sb0, first0, sb, first);
    tested := tested + [(Building, "BUILDING")];
    sb0, first0 := sb, first;
    if bitmask & AgricultureFarm != 0 {
      if !first { sb := sb + Separator; }
      sb := sb + "AGRICULTURE_FARM";
      first := false;
    }
    Step(bitmask, tested, (AgricultureFarm, "AGRICULTURE_FARM"), sb0, first0, sb, first);
    tested := tested + [(AgricultureFarm, "AGRICULTURE_FARM")];
    sb0, first0 := sb, first;
    if bitmask & Forest != 0 {
      if !first { sb := sb + Separator; }
      sb := sb + "FOREST";
      first := false;
    }
    Step(bitmask, tested, (Forest, "FOREST"), sb0, first0, sb, first);
    tested := tested + [(Forest, "FOREST")];
    assert tested == RenderedFlags;
    s := sb;
  }

  /** A name is listed exactly when some flag with that name is set. */
  lemma {:induction false} NamesOfMember(bitmask: bv32, flags: seq<(bv32, string)>, name: string)
    ensures name in NamesOf(bitmask, flags) <==>
            exists i :: 0 <= i < |flags| && flags[i].1 == name && IsSet(bitmask, flags[i].0)
  {
    if |flags| > 0 {
      var n := |flags|;
      var init := flags[..n - 1];
      NamesOfMember(bitmask, init, name);
      assert forall i :: 0 <= i < n - 1 ==> init[i] == flags[i];
      if name in NamesOf(bitmask, init) {
        var i :| 0 <= i < n - 1 && init[i].1 == name && IsSet(bitmask, init[i].0);
        assert flags[i].1 == name;
      }
    }
  }

  /** No name is listed exactly when no flag is set. */
  lemma {:induction false} NamesOfEmpty(bitmask: bv32, flags: seq<(bv32, string)>)
    ensures NamesOf(bitmask, flags) == [] <==> forall i :: 0 <= i < |flags| ==> !IsSet(bitmask, flags[i].0)
  {
    if |flags| > 0 {
      var n := |flags|;
      var init := flags[..n - 1];
      NamesOfEmpty(bitmask, init);
      assert forall i :: 0 <= i < n - 1 ==> init[i] == flags[i];
    }
  }

  /** Every bit of `flag` is in `mask`. */
  predicate Covers(mask: bv32, flag: bv32)
  {
    flag & mask == flag
  }

  lemma MaskedIsSet(bitmask: bv32, mask: bv32, flag: bv32)
    requires Covers(mask, flag)
    ensures IsSet(bitmask & mask, flag) == IsSet(bitmask, flag)
  {
    calc {
      (bitmask & mask) & flag;
      bitmask & (mask & flag);
      { assert mask & flag == flag & mask; }
      bitmask & flag;
    }
  }

  /** The five flags `toString` tests are the low five bits. */
  lemma LowFiveBits(bitmask: bv32)
    ensures bitmask & 0x1F == 0 <==>
            !IsSet(bitmask, Avenue) && !IsSet(bitmask, Aperture) && !IsSet(bitmask, Building) &&
            !IsSet(bitmask, AgricultureFarm) && !IsSet(bitmask, Forest)
  {
  }

  /** The flags of `bitmask` and of `bitmask & mask` agree when `mask` covers every flag. */
  lemma {:induction false} NamesOfMasked(bitmask: bv32, mask: bv32, flags: seq<(bv32, string)>)
    requires forall i :: 0 <= i < |flags| ==> Covers(mask, flags[i].0)
    ensures NamesOf(bitmask & mask, flags) == NamesOf(bitmask, flags)
  {
    if |flags| > 0 {
      var n := |flags|;
      var last := flags[n - 1];
      MaskedIsSet(bitmask, mask, last.0);
      NamesOfMasked(bitmask, mask, flags[..n - 1]);
    }
  }

  /** Joining non-empty names gives the empty string only for no names. */
  lemma {:induction false} JoinEmpty(names: seq<string>)
    requires forall i :: 0 <= i < |names| ==> names[i] != ""
    ensures Join(names) == "" <==> names == []
  {
    if |names| >= 2 {
      assert |Join(names)| >= |Separator|;
    }
  }

  /** Joined names start with the first name and end with the last, with
      no separator before or after them. */
  lemma {:induction false} JoinEnds(names: seq<string>)
    requires |names| > 0
    ensures |names[0]| <= |Join(names)| && Join(names)[..|names[0]|] == names[0]
    ensures |names[|names| - 1]| <= |Join(names)| && Join(names)[|Join(names)| - |names[|names| - 1]|..] == names[|names| - 1]
  {
    if |names| >= 2 {
      var init := names[..|names| - 1];
      JoinEnds(init);
      assert init[0] == names[0];
      var j := Join(init);
      assert Join(names) == j + Separator + names[|names| - 1];
      assert (j + Separator + names[|names| - 1])[..|names[0]|] == j[..|names[0]|];
    }
  }

  /** `toString` lists the name of a flag exactly when it is set. */
  lemma ToStringListsSetFlags(bitmask: bv32)
    ensures forall i :: 0 <= i < |RenderedFlags| ==>
              (RenderedFlags[i].1 in NamesOf(bitmask, RenderedFlags) <==> IsSet(bitmask, RenderedFlags[i].0))
  {
    forall i | 0 <= i < |RenderedFlags|
      ensures RenderedFlags[i].1 in NamesOf(bitmask, RenderedFlags) <==> IsSet(bitmask, RenderedFlags[i].0)
    {
      NamesOfMember(bitmask, RenderedFlags, RenderedFlags[i].1);
    }
  }

  /** `toString` renders the empty string exactly when none of the five low
      bits is set. */
  lemma ToStringEmpty(bitmask: bv32)
    ensures Join(NamesOf(bitmask, RenderedFlags)) == "" <==> bitmask & 0x1F == 0
  {
    var names := NamesOf(bitmask, RenderedFlags);
    NamesOfEmpty(bitmask, RenderedFlags);
    forall i | 0 <= i < |names| ensures names[i] != "" {
      NamesOfMember(bitmask, RenderedFlags, names[i]);
    }
    JoinEmpty(names);
    LowFiveBits(bitmask);
    assert RenderedFlags[0].0 == Avenue && RenderedFlags[1].0 == Aperture && RenderedFlags[2].0 == Building;
    assert RenderedFlags[3].0 == AgricultureFarm && RenderedFlags[4].0 == Forest;
  }

  /** The bits above the five that `toString` tests make no difference. */
  lemma ToStringIgnoresHighBits(bitmask: bv32)
    ensures NamesOf(bitmask & 0x1F, RenderedFlags) == NamesOf(bitmask, RenderedFlags)
  {
    assert forall i :: 0 <= i < |RenderedFlags| ==> Covers(0x1F, RenderedFlags[i].0);
    NamesOfMasked(bitmask, 0x1F, RenderedFlags);
  }
}
