/**
  Checking an operation against its definition: `OpDef.verify` and its
  helpers `irdl_op_verify_arg_list` and `irdl_op_verify_regions`.  The
  constraint subsystem and traits are opaque here: an `Oracle` says which
  values they accept.
 */
module Verifier {
  import opened Wrappers
  import opened Schema
  import opened PySeq
  import opened Resolver
  import opened Accessor

  /** What the constraint subsystem and the traits accept.  `range` is a
      range constraint applied to a tuple of types (the elements of a
      slot, or the argument types of a region's entry block); `single` is
      an attribute constraint applied to one property or attribute value;
      `accepts` is a trait's own `verify`. */
  datatype Oracle = Oracle(
    range: (Constr, seq<Attr>) -> bool,
    single: (Constr, Attr) -> bool,
    accepts: (Trait, Op) -> bool)

  /** The types of the flat operand or result list. */
  function TypesOf(op: Op, kind: Construct): (r: seq<Attr>)
    requires kind == OperandKind || kind == ResultKind
    ensures |r| == op.Count(kind)
    ensures kind == OperandKind ==> forall i :: 0 <= i < |r| ==> r[i] == op.operands[i].ty
    ensures kind == ResultKind ==> r == op.resultTypes
  {
    if kind == OperandKind then seq(|op.operands|, i requires 0 <= i < |op.operands| => op.operands[i].ty)
    else op.resultTypes
  }

  // ---------------------------------------------------------------------
  // Operands and results

  /** The loop of `irdl_op_verify_arg_list` from slot `defIdx` on, with
      its running flat index `argIdx` and variadic index `varIdx`: a
      variadic slot checks the slice of its size, any other slot the one
      element at the running index (an `IndexError` if there is none); the
      first slot whose constraint fails decides the error. */
  function CheckArgsFrom(kind: Construct, slots: seq<Slot>, sizes: seq<int>, types: seq<Attr>, o: Oracle,
                         defIdx: nat, argIdx: int, varIdx: nat): (r: Result<(), VerifyError>)
    requires defIdx <= |slots| && |sizes| == VariadicCount(slots)
    requires varIdx == PreviousVariadics(slots, defIdx)
    ensures defIdx == |slots| ==> r.Ok?
    ensures r.Err? ==>
      || (r.error.SlotConstraintFailed? && r.error.kind == kind && defIdx <= r.error.position < |slots|)
      || (r.error.IndexOutOfRange? && r.error.kind == kind)
    decreases |slots| - defIdx
  {
    if defIdx == |slots| then Ok(())
    else
      VariadicCountPrefix(slots, defIdx);
      if slots[defIdx].card.IsVariadic() then
        var size := sizes[varIdx];
        if !o.range(slots[defIdx].constr, PySlice(types, argIdx, argIdx + size)) then
          Err(SlotConstraintFailed(kind, defIdx))
        else CheckArgsFrom(kind, slots, sizes, types, o, defIdx + 1, argIdx + size, varIdx + 1)
      else
        match PyIndex(types, argIdx)
        case None => Err(IndexOutOfRange(kind, argIdx))
        case Some(t) =>
          if !o.range(slots[defIdx].constr, [t]) then Err(SlotConstraintFailed(kind, defIdx))
          else CheckArgsFrom(kind, slots, sizes, types, o, defIdx + 1, argIdx + 1, varIdx)
  }

  /** `irdl_op_verify_arg_list`: resolve the sizes, then check every slot. */
  function VerifyArgList(def: OpDef, kind: Construct, op: Op, o: Oracle): (r: Result<(), VerifyError>)
    requires kind == OperandKind || kind == ResultKind
    ensures GetVariadicSizes(def, kind, op).Err? ==> r == Err(GetVariadicSizes(def, kind, op).error)
    ensures GetVariadicSizes(def, kind, op).Ok? && r.Err? ==>
      || (r.error.SlotConstraintFailed? && r.error.kind == kind && r.error.position < |def.Slots(kind)|)
      || (r.error.IndexOutOfRange? && r.error.kind == kind)
  {
    var sizes :- GetVariadicSizes(def, kind, op);
    CheckArgsFrom(kind, def.Slots(kind), sizes, TypesOf(op, kind), o, 0, 0, 0)
  }

  /** Reference definition of what the loop hands to slot `idx`, computed
      from the accessor's closed-form start offset rather than from a
      running index. */
  function SlotTypes(kind: Construct, slots: seq<Slot>, sizes: seq<int>, types: seq<Attr>, idx: nat)
    : Result<seq<Attr>, VerifyError>
    requires idx < |slots| && |sizes| == VariadicCount(slots)
  {
    var prev := PreviousVariadics(slots, idx);
    var begin := StartOffset(idx, prev, sizes);
    if slots[idx].card.IsVariadic() then Ok(PySlice(types, begin, begin + sizes[prev]))
    else
      match PyIndex(types, begin)
      case Some(t) => Ok([t])
      case None => Err(IndexOutOfRange(kind, begin))
  }

  /** Slot `idx` can be read and its constraint accepts what it holds. */
  predicate SlotPasses(kind: Construct, slots: seq<Slot>, sizes: seq<int>, types: seq<Attr>, o: Oracle, idx: nat)
    requires idx < |slots| && |sizes| == VariadicCount(slots)
  {
    var got := SlotTypes(kind, slots, sizes, types, idx);
    got.Ok? && o.range(slots[idx].constr, got.value)
  }

  /** The error a failing slot reports. */
  function SlotFailure(kind: Construct, slots: seq<Slot>, sizes: seq<int>, types: seq<Attr>, idx: nat): VerifyError
    requires idx < |slots| && |sizes| == VariadicCount(slots)
  {
    var got := SlotTypes(kind, slots, sizes, types, idx);
    if got.Err? then got.error else SlotConstraintFailed(kind, idx)
  }

  // ---------------------------------------------------------------------
  // Regions

  /** What the region loop checks of one (region, definition) pair: a
      plain single-block region definition needs exactly one block, and
      the entry block, if any, must satisfy the entry-argument constraint.
      Only a `Single` slot with the single-block flag is a
      `SingleBlockRegionDef`; the variadic and optional single-block
      definitions are not its subclasses and are not checked for it. */
  predicate RegionPasses(o: Oracle, slot: Slot, region: Region) {
    && !(slot.card == Single && slot.singleBlock && |region.blocks| != 1)
    && (|region.blocks| > 0 ==> o.range(slot.constr, region.blocks[0].argTypes))
  }

  /** The loop of `irdl_op_verify_regions` from position `i` on.  It zips
      the flat region list with the region definitions by position, so it
      stops at the shorter of the two and pairs region `i` with
      definition `i` whatever the variadic sizes are. */
  function CheckRegionsFrom(o: Oracle, regions: seq<Region>, slots: seq<Slot>, i: nat): (r: Result<(), VerifyError>)
    ensures r.Ok? <==> forall j :: i <= j < |regions| && j < |slots| ==> RegionPasses(o, slots[j], regions[j])
    ensures r.Err? ==> r.error.RegionNotSingleBlock? || r.error.EntryArgsFailed?
    decreases |regions| - i
  {
    if i >= |regions| || i >= |slots| then Ok(())
    else if slots[i].card == Single && slots[i].singleBlock && |regions[i].blocks| != 1 then
      Err(RegionNotSingleBlock(slots[i].name, i, |regions[i].blocks|))
    else if |regions[i].blocks| > 0 && !o.range(slots[i].constr, regions[i].blocks[0].argTypes) then
      Err(EntryArgsFailed(i))
    else CheckRegionsFrom(o, regions, slots, i + 1)
  }

  /** `irdl_op_verify_regions` */
  function VerifyRegions(def: OpDef, op: Op, o: Oracle): (r: Result<(), VerifyError>)
    ensures GetVariadicSizes(def, RegionKind, op).Err? ==> r == Err(GetVariadicSizes(def, RegionKind, op).error)
    ensures GetVariadicSizes(def, RegionKind, op).Ok? ==>
      (r.Ok? <==> forall j :: 0 <= j < |op.regions| && j < |def.regions| ==> RegionPasses(o, def.regions[j], op.regions[j]))
  {
    var _ :- GetVariadicSizes(def, RegionKind, op);
    CheckRegionsFrom(o, op.regions, def.regions, 0)
  }

  // ---------------------------------------------------------------------
  // Properties, attributes and traits

  /** A declared entry is fine if present and accepted by its constraint,
      or absent and optional. */
  predicate EntryPasses(o: Oracle, name: string, d: AttrDef, present: map<string, Attr>) {
    if name in present then o.single(d.constr, present[name]) else d.optional
  }

  /** The loop over the declared properties (`isProp`) or attributes, in
      declaration order; the first failing entry decides the error. */
  function CheckDeclared(defs: Dict<AttrDef>, present: map<string, Attr>, o: Oracle, isProp: bool)
    : (r: Result<(), VerifyError>)
    ensures r.Ok? <==> forall i :: 0 <= i < |defs| ==> EntryPasses(o, defs[i].0, defs[i].1, present)
    ensures r.Err? ==> exists i :: 0 <= i < |defs| && !EntryPasses(o, defs[i].0, defs[i].1, present)
    ensures r.Err? && isProp ==> r.error.MissingProperty? || r.error.PropertyConstraintFailed?
    ensures r.Err? && !isProp ==> r.error.MissingAttribute? || r.error.AttributeConstraintFailed?
    decreases |defs|
  {
    if |defs| == 0 then Ok(())
    else
      var name := defs[0].0;
      var d := defs[0].1;
      assert forall i :: 0 < i < |defs| ==> defs[i] == defs[1..][i - 1];
      if name !in present then
        if d.optional then CheckDeclared(defs[1..], present, o, isProp)
        else Err(if isProp then MissingProperty(name) else MissingAttribute(name))
      else if !o.single(d.constr, present[name]) then
        Err(if isProp then PropertyConstraintFailed(name) else AttributeConstraintFailed(name))
      else CheckDeclared(defs[1..], present, o, isProp)
  }

  /** The second property loop: every property of the operation must be
      declared.  Only properties get this check, never attributes. */
  function CheckUndeclared(defs: Dict<AttrDef>, present: map<string, Attr>): (r: Result<(), VerifyError>)
    ensures r.Ok? <==> forall name :: name in present ==> Lookup(defs, name).Some?
  {
    if forall name :: name in present ==> name in Keys(defs) then
      assert forall name :: name in present ==> Lookup(defs, name).Some? by {
        forall name | name in present {
          LookupKeys(defs, name);
        }
      }
      Ok(())
    else
      var name :| name in present && name !in Keys(defs);
      LookupKeys(defs, name);
      Err(UndeclaredProperty)
  }

  /** The trait loop: the first trait that rejects the operation decides
      the error. */
  function CheckTraits(traits: seq<Trait>, op: Op, o: Oracle): (r: Result<(), VerifyError>)
    ensures r.Ok? <==> forall i :: 0 <= i < |traits| ==> o.accepts(traits[i], op)
    ensures r.Err? ==> r.error.TraitFailed? && r.error.failing in traits && !o.accepts(r.error.failing, op)
    decreases |traits|
  {
    if |traits| == 0 then Ok(())
    else if !o.accepts(traits[0], op) then Err(TraitFailed(traits[0]))
    else
      assert forall i :: 0 < i < |traits| ==> traits[i] == traits[1..][i - 1];
      CheckTraits(traits[1..], op, o)
  }

  // ---------------------------------------------------------------------
  // The whole check

  /** The construct half of `OpDef.verify`: operands, results, regions,
      and the successor sizes (successors have no per-slot check). */
  function VerifyConstructs(def: OpDef, op: Op, o: Oracle): Result<(), VerifyError> {
    var _ :- VerifyArgList(def, OperandKind, op, o);
    var _ :- VerifyArgList(def, ResultKind, op, o);
    var _ :- VerifyRegions(def, op, o);
    var _ :- GetVariadicSizes(def, SuccessorKind, op);
    Ok(())
  }

  /** The dictionary half of `OpDef.verify`: declared properties, then
      undeclared properties, then declared attributes. */
  function VerifyEntries(def: OpDef, op: Op, o: Oracle): Result<(), VerifyError> {
    var _ :- CheckDeclared(def.properties, op.properties, o, true);
    var _ :- CheckUndeclared(def.properties, op.properties);
    CheckDeclared(def.attributes, op.attributes, o, false)
  }

  /** `OpDef.verify`: constructs, then properties and attributes, then
      traits; the first failing check decides the error. */
  function VerifyOp(def: OpDef, op: Op, o: Oracle): (r: Result<(), VerifyError>)
    ensures r.Ok? <==>
      && VerifyConstructs(def, op, o).Ok?
      && VerifyEntries(def, op, o).Ok?
      && (forall i :: 0 <= i < |def.traits| ==> o.accepts(def.traits[i], op))
    ensures VerifyConstructs(def, op, o).Err? ==> r == VerifyConstructs(def, op, o)
    ensures VerifyConstructs(def, op, o).Ok? && VerifyEntries(def, op, o).Err? ==> r == VerifyEntries(def, op, o)
    ensures r.Err? && VerifyConstructs(def, op, o).Ok? && VerifyEntries(def, op, o).Ok? ==>
      r.error.TraitFailed? && r.error.failing in def.traits
  {
    var _ :- VerifyConstructs(def, op, o);
    var _ :- VerifyEntries(def, op, o);
    CheckTraits(def.traits, op, o)
  }

  /** The `verify_` an operation class gets: the definition's check, then
      the class's own `verify_` hook, if any. */
  function VerifyWithHook(def: OpDef, op: Op, o: Oracle, hook: Option<Op -> Result<(), VerifyError>>)
    : (r: Result<(), VerifyError>)
    ensures VerifyOp(def, op, o).Err? ==> r == VerifyOp(def, op, o)
    ensures VerifyOp(def, op, o).Ok? && hook.Some? ==> r == hook.value(op)
    ensures hook.None? ==> r == VerifyOp(def, op, o)
  {
    var _ :- VerifyOp(def, op, o);
    match hook
    case Some(h) => h(op)
    case None => Ok(())
  }

  // ---------------------------------------------------------------------
  // Reference definition of a valid operation

  /** Every slot of kind `kind` can be read at the accessor's offsets and
      satisfies its constraint. */
  ghost predicate ArgsValid(def: OpDef, kind: Construct, op: Op, o: Oracle)
    requires kind == OperandKind || kind == ResultKind
  {
    var sizes := GetVariadicSizes(def, kind, op);
    && sizes.Ok?
    && forall i :: 0 <= i < |def.Slots(kind)| ==>
      SlotPasses(kind, def.Slots(kind), sizes.value, TypesOf(op, kind), o, i)
  }

  /** What the construct half accepts, slot by slot. */
  ghost predicate ConstructsValid(def: OpDef, op: Op, o: Oracle) {
    && ArgsValid(def, OperandKind, op, o)
    && ArgsValid(def, ResultKind, op, o)
    && GetVariadicSizes(def, RegionKind, op).Ok?
    && (forall j :: 0 <= j < |op.regions| && j < |def.regions| ==> RegionPasses(o, def.regions[j], op.regions[j]))
    && GetVariadicSizes(def, SuccessorKind, op).Ok?
  }

  /** What the dictionary half accepts, entry by entry. */
  ghost predicate EntriesValid(def: OpDef, op: Op, o: Oracle) {
    && (forall i :: 0 <= i < |def.properties| ==>
         EntryPasses(o, def.properties[i].0, def.properties[i].1, op.properties))
    && (forall name :: name in op.properties ==> Lookup(def.properties, name).Some?)
    && (forall i :: 0 <= i < |def.attributes| ==>
         EntryPasses(o, def.attributes[i].0, def.attributes[i].1, op.attributes))
  }

  /** What `OpDef.verify` accepts. */
  ghost predicate Valid(def: OpDef, op: Op, o: Oracle) {
    && ConstructsValid(def, op, o)
    && EntriesValid(def, op, o)
    && (forall i :: 0 <= i < |def.traits| ==> o.accepts(def.traits[i], op))
  }

  // ---------------------------------------------------------------------
  // Properties

  /** One step of the loop moves the running index past the slot: by its
      size for a variadic slot, by one otherwise, which keeps it equal to
      the accessor's closed-form start offset. */
  lemma StartOffsetStep(slots: seq<Slot>, sizes: seq<int>, d: nat)
    requires d < |slots| && |sizes| == VariadicCount(slots)
    ensures var p := PreviousVariadics(slots, d);
      && p + (if slots[d].card.IsVariadic() then 1 else 0) == PreviousVariadics(slots, d + 1)
      && StartOffset(d + 1, PreviousVariadics(slots, d + 1), sizes)
         == StartOffset(d, p, sizes) + (if slots[d].card.IsVariadic() then sizes[p] else 1)
  {
    VariadicCountPrefix(slots, d);
    if slots[d].card.IsVariadic() {
      SumPrefixStep(sizes, PreviousVariadics(slots, d));
    }
  }

  /** One step of the loop at the accessor's offset: a passing slot hands
      over to the next one, a failing slot reports its own error. */
  lemma CheckArgsStep(kind: Construct, slots: seq<Slot>, sizes: seq<int>, types: seq<Attr>,
                      o: Oracle, defIdx: nat, argIdx: int, varIdx: nat)
    requires defIdx < |slots| && |sizes| == VariadicCount(slots)
    requires varIdx == PreviousVariadics(slots, defIdx)
    requires argIdx == StartOffset(defIdx, varIdx, sizes)
    ensures var v := slots[defIdx].card.IsVariadic();
      var nextVar := if v then varIdx + 1 else varIdx;
      && nextVar == PreviousVariadics(slots, defIdx + 1)
      && (SlotPasses(kind, slots, sizes, types, o, defIdx) ==>
           CheckArgsFrom(kind, slots, sizes, types, o, defIdx, argIdx, varIdx)
           == CheckArgsFrom(kind, slots, sizes, types, o, defIdx + 1, StartOffset(defIdx + 1, nextVar, sizes), nextVar))
      && (!SlotPasses(kind, slots, sizes, types, o, defIdx) ==>
           CheckArgsFrom(kind, slots, sizes, types, o, defIdx, argIdx, varIdx)
           == Err(SlotFailure(kind, slots, sizes, types, defIdx)))
  {
    StartOffsetStep(slots, sizes, defIdx);
  }

  /** The loop with running indices accepts exactly when every remaining
      slot passes at its closed-form offset. */
  lemma {:induction false} CheckArgsFromSpec(kind: Construct, slots: seq<Slot>, sizes: seq<int>, types: seq<Attr>,
                                             o: Oracle, defIdx: nat, argIdx: int, varIdx: nat)
    requires defIdx <= |slots| && |sizes| == VariadicCount(slots)
    requires varIdx == PreviousVariadics(slots, defIdx)
    requires argIdx == StartOffset(defIdx, varIdx, sizes)
    ensures CheckArgsFrom(kind, slots, sizes, types, o, defIdx, argIdx, varIdx).Ok?
      <==> forall i :: defIdx <= i < |slots| ==> SlotPasses(kind, slots, sizes, types, o, i)
    decreases |slots| - defIdx
  {
    if defIdx < |slots| {
      CheckArgsStep(kind, slots, sizes, types, o, defIdx, argIdx, varIdx);
      var nextVar := PreviousVariadics(slots, defIdx + 1);
      if SlotPasses(kind, slots, sizes, types, o, defIdx) {
        CheckArgsFromSpec(kind, slots, sizes, types, o, defIdx + 1, StartOffset(defIdx + 1, nextVar, sizes), nextVar);
      }
    }
  }

  /** A failure of the loop is the error of the first slot that does not
      pass. */
  lemma {:induction false} CheckArgsFromFirstFailure(kind: Construct, slots: seq<Slot>, sizes: seq<int>, types: seq<Attr>,
                                                     o: Oracle, defIdx: nat, argIdx: int, varIdx: nat)
    returns (i: nat)
    requires defIdx <= |slots| && |sizes| == VariadicCount(slots)
    requires varIdx == PreviousVariadics(slots, defIdx)
    requires argIdx == StartOffset(defIdx, varIdx, sizes)
    requires CheckArgsFrom(kind, slots, sizes, types, o, defIdx, argIdx, varIdx).Err?
    ensures defIdx <= i < |slots| && !SlotPasses(kind, slots, sizes, types, o, i)
    ensures CheckArgsFrom(kind, slots, sizes, types, o, defIdx, argIdx, varIdx).error == SlotFailure(kind, slots, sizes, types, i)
    ensures forall j :: defIdx <= j < i ==> SlotPasses(kind, slots, sizes, types, o, j)
    decreases |slots| - defIdx
  {
    CheckArgsStep(kind, slots, sizes, types, o, defIdx, argIdx, varIdx);
    var nextVar := if slots[defIdx].card.IsVariadic() then varIdx + 1 else varIdx;
    if SlotPasses(kind, slots, sizes, types, o, defIdx) {
      var nextArg := StartOffset(defIdx + 1, nextVar, sizes);
      i := CheckArgsFromFirstFailure(kind, slots, sizes, types, o, defIdx + 1, nextArg, nextVar);
    } else {
      i := defIdx;
    }
  }

  /** `irdl_op_verify_arg_list` accepts exactly the operations whose
      slots of that kind all pass at the accessor's offsets. */
  lemma VerifyArgListSpec(def: OpDef, kind: Construct, op: Op, o: Oracle)
    requires kind == OperandKind || kind == ResultKind
    ensures VerifyArgList(def, kind, op, o).Ok? <==> ArgsValid(def, kind, op, o)
  {
    var sizes := GetVariadicSizes(def, kind, op);
    if sizes.Ok? {
      assert def.Slots(kind)[..0] == [];
      CheckArgsFromSpec(kind, def.Slots(kind), sizes.value, TypesOf(op, kind), o, 0, 0, 0);
    }
  }

  /** `OpDef.verify` accepts exactly the valid operations. */
  lemma VerifyOpIffValid(def: OpDef, op: Op, o: Oracle)
    ensures VerifyOp(def, op, o).Ok? <==> Valid(def, op, o)
  {
    VerifyConstructsIffValid(def, op, o);
    VerifyEntriesIffValid(def, op, o);
  }

  lemma VerifyConstructsIffValid(def: OpDef, op: Op, o: Oracle)
    ensures VerifyConstructs(def, op, o).Ok? <==> ConstructsValid(def, op, o)
  {
    VerifyArgListSpec(def, OperandKind, op, o);
    VerifyArgListSpec(def, ResultKind, op, o);
  }

  lemma VerifyEntriesIffValid(def: OpDef, op: Op, o: Oracle)
    ensures VerifyEntries(def, op, o).Ok? <==> EntriesValid(def, op, o)
  {
  }

  /** A required property that is absent fails verification. */
  lemma MissingRequiredPropertyFails(def: OpDef, op: Op, o: Oracle, i: nat)
    requires i < |def.properties| && !def.properties[i].1.optional
    requires def.properties[i].0 !in op.properties
    ensures VerifyOp(def, op, o).Err?
  {
    VerifyOpIffValid(def, op, o);
    assert !EntryPasses(o, def.properties[i].0, def.properties[i].1, op.properties);
  }

  /** A required attribute that is absent fails verification. */
  lemma MissingRequiredAttributeFails(def: OpDef, op: Op, o: Oracle, i: nat)
    requires i < |def.attributes| && !def.attributes[i].1.optional
    requires def.attributes[i].0 !in op.attributes
    ensures VerifyOp(def, op, o).Err?
  {
    VerifyOpIffValid(def, op, o);
    assert !EntryPasses(o, def.attributes[i].0, def.attributes[i].1, op.attributes);
  }

  /** A property the definition does not declare fails verification. */
  lemma UndeclaredPropertyFails(def: OpDef, op: Op, o: Oracle, name: string)
    requires name in op.properties && name !in Keys(def.properties)
    ensures VerifyOp(def, op, o).Err?
  {
    LookupKeys(def.properties, name);
    VerifyOpIffValid(def, op, o);
  }

  /** The declared-entry loop only looks at declared names: adding an
      undeclared one changes nothing.  For attributes there is no second
      loop, so an undeclared attribute is accepted. */
  lemma {:induction false} CheckDeclaredIgnoresUndeclared(defs: Dict<AttrDef>, present: map<string, Attr>, o: Oracle,
                                                          isProp: bool, name: string, a: Attr)
    requires name !in Keys(defs)
    ensures CheckDeclared(defs, present[name := a], o, isProp) == CheckDeclared(defs, present, o, isProp)
    decreases |defs|
  {
    if |defs| > 0 {
      CheckDeclaredIgnoresUndeclared(defs[1..], present, o, isProp, name, a);
    }
  }

  /** An optional entry that is absent is skipped: declaring it anywhere
      in the list does not change the outcome of the loop. */
  lemma {:induction false} AbsentOptionalSkipped(pre: Dict<AttrDef>, post: Dict<AttrDef>, present: map<string, Attr>,
                                                 o: Oracle, isProp: bool, name: string, d: AttrDef)
    requires d.optional && name !in present
    ensures CheckDeclared(pre + [(name, d)] + post, present, o, isProp) == CheckDeclared(pre + post, present, o, isProp)
    decreases |pre|
  {
    if |pre| == 0 {
      assert pre + [(name, d)] + post == [(name, d)] + post;
      assert ([(name, d)] + post)[1..] == post;
      assert pre + post == post;
    } else {
      assert (pre + [(name, d)] + post)[1..] == pre[1..] + [(name, d)] + post;
      assert (pre + post)[1..] == pre[1..] + post;
      assert (pre + [(name, d)] + post)[0] == pre[0] == (pre + post)[0];
      AbsentOptionalSkipped(pre[1..], post, present, o, isProp, name, d);
    }
  }

  // ---------------------------------------------------------------------
  // Behaviour of the region check as written

  /** An oracle that accepts everything, to isolate the structural checks. */
  const AcceptAll: Oracle :=
    Oracle((c: Constr, ts: seq<Attr>) => true, (c: Constr, a: Attr) => true, (t: Trait, op: Op) => true)

  /** A definition with region slots only. */
  function RegionsOnly(regions: seq<Slot>): (def: OpDef)
    ensures def.regions == regions && def.options == []
    ensures def.operands == def.results == def.successors == []
  {
    OpDef("example.regions", [], [], regions, [], [], [], [], [], map[], None)
  }

  function WithRegions(regions: seq<Region>): (op: Op)
    ensures op.regions == regions && op.operands == [] && op.resultTypes == [] && op.successors == []
  {
    Op([], [], map[], map[], regions, [])
  }

  /** With a variadic region slot before a single-block one, the region
      check pairs regions and slots by position, not by the slots the
      accessor assigns: a two-block region the accessor reads as part of
      the variadic slot is rejected. */
  lemma RegionZipRejectsVariadicPart()
    ensures var def := RegionsOnly([Slot("body", Variadic, Constr("any"), false), Slot("exit", Single, Constr("any"), true)]);
      var one := Region([Block([])]);
      var two := Region([Block([]), Block([])]);
      && VerifyRegions(def, WithRegions([one, two, one]), AcceptAll) == Err(RegionNotSingleBlock("exit", 1, 2))
      && GetSlot(def, RegionKind, WithRegions([one, two, one]), [one, two, one], 1) == Ok(One(one))
  {
    ZipVerifies();
    ZipReads();
  }

  lemma ZipVerifies()
    ensures var def := RegionsOnly([Slot("body", Variadic, Constr("any"), false), Slot("exit", Single, Constr("any"), true)]);
      var one := Region([Block([])]);
      var two := Region([Block([]), Block([])]);
      VerifyRegions(def, WithRegions([one, two, one]), AcceptAll) == Err(RegionNotSingleBlock("exit", 1, 2))
  {
  }

  lemma ZipReads()
    ensures var def := RegionsOnly([Slot("body", Variadic, Constr("any"), false), Slot("exit", Single, Constr("any"), true)]);
      var one := Region([Block([])]);
      var two := Region([Block([]), Block([])]);
      GetSlot(def, RegionKind, WithRegions([one, two, one]), [one, two, one], 1) == Ok(One(one))
  {
  }

  /** ... and a two-block region the accessor returns for the
      single-block slot is accepted. */
  lemma RegionZipAcceptsSingleBlockSlot()
    ensures var def := RegionsOnly([Slot("body", Variadic, Constr("any"), false), Slot("exit", Single, Constr("any"), true)]);
      var one := Region([Block([])]);
      var two := Region([Block([]), Block([])]);
      && VerifyRegions(def, WithRegions([one, one, two]), AcceptAll) == Ok(())
      && GetSlot(def, RegionKind, WithRegions([one, one, two]), [one, one, two], 1) == Ok(One(two))
  {
    ZipAccepts();
    ZipReadsLast();
  }

  lemma ZipAccepts()
    ensures var def := RegionsOnly([Slot("body", Variadic, Constr("any"), false), Slot("exit", Single, Constr("any"), true)]);
      var one := Region([Block([])]);
      var two := Region([Block([]), Block([])]);
      VerifyRegions(def, WithRegions([one, one, two]), AcceptAll) == Ok(())
  {
  }

  lemma ZipReadsLast()
    ensures var def := RegionsOnly([Slot("body", Variadic, Constr("any"), false), Slot("exit", Single, Constr("any"), true)]);
      var one := Region([Block([])]);
      var two := Region([Block([]), Block([])]);
      GetSlot(def, RegionKind, WithRegions([one, one, two]), [one, one, two], 1) == Ok(One(two))
  {
  }

  /** Only a single region slot gets the single-block check: a variadic
      slot marked single-block accepts a two-block region. */
  lemma VariadicSingleBlockUnchecked()
    ensures var def := RegionsOnly([Slot("body", Variadic, Constr("any"), true)]);
      VerifyRegions(def, WithRegions([Region([Block([]), Block([])])]), AcceptAll) == Ok(())
  {
  }

  /** Against a definition that declares nothing, an extra attribute is
      accepted while an extra property is rejected. */
  lemma UndeclaredAttributeAcceptedPropertyRejected()
    ensures VerifyOp(RegionsOnly([]), Op([], [], map[], map["note" := Opaque("x")], [], []), AcceptAll) == Ok(())
    ensures VerifyOp(RegionsOnly([]), Op([], [], map["note" := Opaque("x")], map[], [], []), AcceptAll) == Err(UndeclaredProperty)
  {
    var op := Op([], [], map["note" := Opaque("x")], map[], [], []);
    assert VerifyConstructs(RegionsOnly([]), op, AcceptAll) == Ok(());
    assert "note" in op.properties && "note" !in Keys(RegionsOnly([]).properties);
    assert CheckUndeclared(RegionsOnly([]).properties, op.properties) == Err(UndeclaredProperty);
  }
}
