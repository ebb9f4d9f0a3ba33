/**
  The variadic size resolver (`get_variadic_sizes` and
  `get_variadic_sizes_from_attr`): how many flat elements of one construct
  kind belong to each variadic slot of a definition.
 */
module Resolver {
  import opened Wrappers
  import opened Schema
  import opened PySeq

  /** What a segment-size entry must satisfy for its slot: at most one for
      an optional slot, exactly one for a non-variadic slot. */
  predicate SegmentFits(card: Card, size: int) {
    && (card.IsOptional() ==> size <= 1)
    && (!card.IsVariadic() ==> size == 1)
  }

  /** The per-slot loop of `get_variadic_sizes_from_attr`: validates each
      entry against its slot, in declaration order, and keeps the entries
      of the variadic slots. */
  function CheckSegments(kind: Construct, slots: seq<Slot>, sizes: seq<int>): (r: Result<seq<int>, VerifyError>)
    requires |sizes| == |slots|
    ensures r.Ok? <==> forall i :: 0 <= i < |slots| ==> SegmentFits(slots[i].card, sizes[i])
    ensures r.Ok? ==> r.value == VariadicEntries(slots, sizes)
    decreases |slots|
  {
    if |slots| == 0 then Ok([])
    else if slots[0].card.IsOptional() && sizes[0] > 1 then
      Err(OptionalSegmentTooLarge(kind, slots[0].name, sizes[0]))
    else if !slots[0].card.IsVariadic() && sizes[0] != 1 then
      Err(FixedSegmentNotOne(kind, slots[0].name, sizes[0]))
    else
      var rest := CheckSegments(kind, slots[1..], sizes[1..]);
      VariadicEntriesFront(slots, sizes);
      assert forall i :: 0 < i < |slots| ==> slots[i] == slots[1..][i - 1] && sizes[i] == sizes[1..][i - 1];
      if rest.Err? then rest
      else Ok((if slots[0].card.IsVariadic() then [sizes[0]] else []) + rest.value)
  }

  /** `get_variadic_sizes_from_attr`: reads the segment sizes from the
      reserved attribute or property `name` of `container`. */
  function FromSideChannel(kind: Construct, slots: seq<Slot>, name: string, container: map<string, Attr>, inProperty: bool)
    : (r: Result<seq<int>, VerifyError>)
    ensures r.Ok? <==>
      && name in container
      && container[name].DenseArray? && container[name].elt == I32
      && |container[name].values| == |slots|
      && forall i :: 0 <= i < |slots| ==> SegmentFits(slots[i].card, container[name].values[i])
    ensures r.Ok? ==> r.value == VariadicEntries(slots, container[name].values)
  {
    if name !in container then Err(MissingSegmentSizes(name, inProperty))
    else
      match container[name]
      case DenseArray(elt, values) =>
        if elt != I32 then Err(SegmentSizesNotI32(name, inProperty))
        else if |values| != |slots| then Err(SegmentCountMismatch(|slots|, |values|))
        else CheckSegments(kind, slots, values)
      case Opaque(_) => Err(SegmentSizesNotI32(name, inProperty))
  }

  /** `get_variadic_sizes`, on the slots of one kind, the options of the
      definition, the number of flat elements of that kind, and the
      operation's property and attribute maps.  A segment-size option
      wins over every arithmetic rule; otherwise the sizes follow from
      the flat length: exactly, by difference for one variadic slot, or
      by an equal split under same-size grouping. */
  function Resolve(kind: Construct, slots: seq<Slot>, options: seq<IrdlOption>, flatLen: nat,
                   props: map<string, Attr>, attrs: map<string, Attr>): (r: Result<seq<int>, VerifyError>)
    ensures r.Ok? ==> |r.value| == VariadicCount(slots)
    // the side channel takes priority
    ensures AttrSizedFor(options, kind).Some? ==>
      var inProp := AttrSizedFor(options, kind).value;
      r == FromSideChannel(kind, slots, SegmentSizesName(kind), if inProp then props else attrs, inProp)
    // no variadic slot: the flat length must be the slot count
    ensures AttrSizedFor(options, kind).None? && VariadicCount(slots) == 0 ==>
      (r.Ok? <==> flatLen == |slots|)
    // one variadic slot: it takes everything the fixed slots leave
    ensures AttrSizedFor(options, kind).None? && VariadicCount(slots) == 1 ==>
      && (r.Ok? <==> flatLen >= |slots| - 1)
      && (r.Ok? ==> r.value == [flatLen - (|slots| - 1)])
    // several variadic slots: equal split under same-size grouping only
    ensures AttrSizedFor(options, kind).None? && VariadicCount(slots) > 1 ==>
      var fixed := |slots| - VariadicCount(slots);
      && (r.Ok? <==> HasSameSize(options, kind) && (flatLen - fixed) % VariadicCount(slots) == 0)
      && (r.Ok? ==> forall i :: 0 <= i < |r.value| ==> r.value[i] * VariadicCount(slots) == flatLen - fixed)
      && (!HasSameSize(options, kind) ==> r == Err(MissingSameSizeOption(kind)))
  {
    match AttrSizedFor(options, kind)
    case Some(inProp) =>
      FromSideChannel(kind, slots, SegmentSizesName(kind), if inProp then props else attrs, inProp)
    case None =>
      var vc := VariadicCount(slots);
      if vc == 0 then
        if flatLen != |slots| then Err(ArityMismatch(kind, |slots|, flatLen)) else Ok([])
      else if vc == 1 then
        if flatLen - |slots| + 1 < 0 then Err(TooFewForVariadic(kind, |slots| - 1))
        else Ok([flatLen - |slots| + 1])
      else if !HasSameSize(options, kind) then Err(MissingSameSizeOption(kind))
      else
        var fixed := |slots| - vc;
        var variadicArgs := flatLen - fixed;
        if variadicArgs % vc != 0 then Err(SameSizeIndivisible(kind, variadicArgs, vc))
        else Ok(Repeat(variadicArgs / vc, vc))
  }

  /** `get_variadic_sizes(op, op_def, kind)` */
  function GetVariadicSizes(def: OpDef, kind: Construct, op: Op): (r: Result<seq<int>, VerifyError>)
    ensures r.Ok? ==> |r.value| == VariadicCount(def.Slots(kind))
    ensures AttrSizedFor(def.options, kind).None? && VariadicCount(def.Slots(kind)) == 0 ==>
      (r.Ok? <==> op.Count(kind) == |def.Slots(kind)|)
    ensures AttrSizedFor(def.options, kind).Some? ==>
      var inProp := AttrSizedFor(def.options, kind).value;
      r == FromSideChannel(kind, def.Slots(kind), SegmentSizesName(kind), if inProp then op.properties else op.attributes, inProp)
  {
    Resolve(kind, def.Slots(kind), def.options, op.Count(kind), op.properties, op.attributes)
  }

  // ---------------------------------------------------------------------
  // Properties

  /** Per-slot sizes add up to the fixed slots plus the variadic sizes. */
  lemma {:induction false} SegmentSizesSum(slots: seq<Slot>, varSizes: seq<int>)
    requires |varSizes| == VariadicCount(slots)
    ensures Sum(SegmentSizes(slots, varSizes)) == |slots| - VariadicCount(slots) + Sum(varSizes)
    decreases |slots|
  {
    if |slots| > 0 {
      var n := |slots| - 1;
      if slots[n].card.IsVariadic() {
        var m := |varSizes| - 1;
        SegmentSizesSum(slots[..n], varSizes[..m]);
        SumAppend(SegmentSizes(slots[..n], varSizes[..m]), [varSizes[m]]);
        assert varSizes == varSizes[..m] + [varSizes[m]];
        SumAppend(varSizes[..m], [varSizes[m]]);
      } else {
        SegmentSizesSum(slots[..n], varSizes);
        SumAppend(SegmentSizes(slots[..n], varSizes), [1]);
      }
    }
  }

  /** Without a side channel, a successful resolution accounts for every
      flat element: the per-slot sizes sum to the flat length, and no
      size is negative once the flat length covers the fixed slots. */
  lemma ArithmeticSizesSumToLength(kind: Construct, slots: seq<Slot>, options: seq<IrdlOption>, flatLen: nat,
                                   props: map<string, Attr>, attrs: map<string, Attr>)
    requires AttrSizedFor(options, kind).None?
    requires Resolve(kind, slots, options, flatLen, props, attrs).Ok?
    ensures var sizes := Resolve(kind, slots, options, flatLen, props, attrs).value;
      Sum(SegmentSizes(slots, sizes)) == flatLen
    ensures var sizes := Resolve(kind, slots, options, flatLen, props, attrs).value;
      flatLen >= |slots| - VariadicCount(slots) ==> forall i :: 0 <= i < |sizes| ==> sizes[i] >= 0
  {
    var sizes := Resolve(kind, slots, options, flatLen, props, attrs).value;
    var vc := VariadicCount(slots);
    SegmentSizesSum(slots, sizes);
    if vc > 1 {
      var fixed := |slots| - vc;
      var q := (flatLen - fixed) / vc;
      ExactQuotient(flatLen - fixed, vc);
      assert sizes == Repeat(q, vc);
      SumRepeat(q, vc);
    }
  }

  /** Same-size grouping leaves no choice: when every variadic slot takes
      `q` elements and together with the fixed slots they account for the
      whole flat list, that equal split is exactly what is resolved. */
  lemma SameSizeSplitIsUnique(kind: Construct, slots: seq<Slot>, options: seq<IrdlOption>, flatLen: nat,
                              props: map<string, Attr>, attrs: map<string, Attr>, q: int)
    requires AttrSizedFor(options, kind).None? && VariadicCount(slots) > 1 && HasSameSize(options, kind)
    requires |slots| - VariadicCount(slots) + q * VariadicCount(slots) == flatLen
    ensures Resolve(kind, slots, options, flatLen, props, attrs) == Ok(Repeat(q, VariadicCount(slots)))
  {
    ExactDivision(q, VariadicCount(slots));
  }

  // ---------------------------------------------------------------------
  // Behaviour of the code as written

  /** The side channel is never compared with the flat length: a size of
      five for the only slot is accepted for an operation with no
      operands, although the documentation of the option says the sum
      must match. */
  lemma SideChannelSkipsSumCheck()
    ensures var slots := [Slot("xs", Variadic, Constr("AnyAttr"), false)];
      var props := map["operandSegmentSizes" := DenseArray(I32, [5])];
      var r := Resolve(OperandKind, slots, [AttrSizedSegments(OperandKind, true)], 0, props, map[]);
      r == Ok([5]) && Sum(SegmentSizes(slots, r.value)) != 0
  {
    var slots := [Slot("xs", Variadic, Constr("AnyAttr"), false)];
    assert SegmentSizes(slots, [5]) == [5] by {
      assert slots[..0] == [];
    }
    assert VariadicEntries(slots, [5]) == [5] by {
      assert slots[..0] == [];
    }
  }

  /** The side channel also accepts a negative size for a variadic slot. */
  lemma SideChannelAcceptsNegative()
    ensures var slots := [Slot("xs", Variadic, Constr("AnyAttr"), false)];
      var attrs := map["operandSegmentSizes" := DenseArray(I32, [-3])];
      Resolve(OperandKind, slots, [AttrSizedSegments(OperandKind, false)], 0, map[], attrs) == Ok([-3])
  {
    var slots := [Slot("xs", Variadic, Constr("AnyAttr"), false)];
    assert VariadicEntries(slots, [-3]) == [-3] by {
      assert slots[..0] == [];
    }
  }

  /** With one optional slot and no side channel, the arithmetic rule
      gives the optional slot every element: three here. */
  lemma OptionalSlotCanExceedOne()
    ensures var slots := [Slot("x", Optional, Constr("AnyAttr"), false)];
      Resolve(OperandKind, slots, [], 3, map[], map[]) == Ok([3])
  {
    var slots := [Slot("x", Optional, Constr("AnyAttr"), false)];
    assert VariadicCount(slots) == 1 by {
      assert slots[..0] == [];
    }
  }

  /** Under same-size grouping the remainder is not checked for being
      negative: five slots, three of them fixed, and one operand split
      into two variadic sizes of minus one (floor division). */
  lemma SameSizeAcceptsNegativeSplit()
    ensures var slots := [
        Slot("a", Single, Constr("AnyAttr"), false),
        Slot("xs", Variadic, Constr("AnyAttr"), false),
        Slot("b", Single, Constr("AnyAttr"), false),
        Slot("ys", Variadic, Constr("AnyAttr"), false),
        Slot("c", Single, Constr("AnyAttr"), false)];
      Resolve(OperandKind, slots, [SameVariadicSize(OperandKind)], 1, map[], map[]) == Ok([-1, -1])
  {
    var slots := [
        Slot("a", Single, Constr("AnyAttr"), false),
        Slot("xs", Variadic, Constr("AnyAttr"), false),
        Slot("b", Single, Constr("AnyAttr"), false),
        Slot("ys", Variadic, Constr("AnyAttr"), false),
        Slot("c", Single, Constr("AnyAttr"), false)];
    assert VariadicCount(slots[..1]) == 0 by { assert slots[..1][..0] == []; }
    assert VariadicCount(slots[..2]) == 1 by { assert slots[..2][..1] == slots[..1]; }
    assert VariadicCount(slots[..3]) == 1 by { assert slots[..3][..2] == slots[..2]; }
    assert VariadicCount(slots[..4]) == 2 by { assert slots[..4][..3] == slots[..3]; }
    assert VariadicCount(slots) == 2 by { assert slots[..4] == slots[..|slots| - 1]; }
    assert Repeat(-1, 2) == [-1, -1];
  }
}
