/**
  The mesh dialect as a client of the schema framework: the definitions of
  its collective communication operations, of `mesh.mesh` and of
  `mesh.sharding`, and the two operation-specific verifiers.  Constraints
  and traits are known only by name; what a constraint accepts is the
  oracle's business.
 */
module Mesh {
  import opened Wrappers
  import opened Schema
  import opened PySeq
  import opened Definition
  import opened Resolver
  import opened Accessor
  import opened Verifier
  import opened Build
  import opened Unshadowed

  // ---------------------------------------------------------------------
  // Constraints, traits and default values

  const TensorType := Constr("TensorType")
  const IndexType := Constr("IndexType")
  const I64Type := Constr("i64")
  const ShardingType := Constr("ShardingType")
  const FlatSymbolRef := Constr("FlatSymbolRefAttr")
  const MeshAxesArray := Constr("MeshAxesArrayAttr")
  const MeshAxes := Constr("MeshAxesAttr")
  const IndexInteger := Constr("IntegerAttr[index]")
  const DenseI64 := Constr("DenseArrayBase[I64]")
  const ReductionKind := Constr("ReductionKindAttr")
  const SymbolName := Constr("SymbolNameConstraint")

  const Pure := Trait("Pure")
  const SymbolOp := Trait("SymbolOpInterface")

  /** `MeshAxesAttr(i16, BytesAttr(b""))`: an empty axis list. */
  const NoAxes := DenseArray(I16, [])

  /** `DenseArrayBase[I64](i64, BytesAttr(b""))` */
  const NoI64 := DenseArray(I64, [])

  /** `ReductionKindAttr(ReductionKind.SUM)` */
  const SumReduction := Opaque("#mesh.partial<sum>")

  /** Every mesh operation has an assembly format and keeps the default
      `parse` and `print`; only the presence of the format matters here. */
  const Format: Option<string> := Some("assembly_format")

  function Required(constr: Constr, default: Option<Attr>): AttrDef {
    AttrDef(false, constr, default)
  }

  function Optional(constr: Constr): AttrDef {
    AttrDef(true, constr, None)
  }

  function PropAccessor(name: string): (string, Container) {
    (name, PropertyContainer)
  }

  // ---------------------------------------------------------------------
  // The abstract base of the collective operations

  /** The body of `CollectiveCommunicationOp`, in declaration order. */
  const CollectiveBody: seq<Decl> := [
    EntryField("mesh", PropertyContainer, None, AttrDef(false, Constr("FlatSymbolRefAttr"), None)),
    EntryField("mesh_axes", PropertyContainer, None, AttrDef(false, Constr("MeshAxesAttr"), Some(DenseArray(I16, []))))]

  /** The properties every collective operation inherits. */
  const CollectiveProps: Dict<AttrDef> :=
    [("mesh", Required(FlatSymbolRef, None)), ("mesh_axes", Required(MeshAxes, Some(NoAxes)))]

  /** A definition that ends with the inherited properties, declares them
      nowhere else, and reads them through accessors of the same name. */
  predicate InheritsCollective(def: OpDef) {
    var n := |def.properties|;
    && n >= 2
    && def.properties[n - 2..] == CollectiveProps
    && "mesh" !in Keys(def.properties[..n - 2]) && "mesh_axes" !in Keys(def.properties[..n - 2])
    && "mesh" in def.accessorNames && def.accessorNames["mesh"] == PropAccessor("mesh")
    && "mesh_axes" in def.accessorNames && def.accessorNames["mesh_axes"] == PropAccessor("mesh_axes")
  }

  // ---------------------------------------------------------------------
  // The operation tables, as `OpDef.from_pyrdl` derives them: own fields
  // in declaration order, then the inherited ones

  /** A collective operation: the tensor operand `input` and the slots
      `extra`, one tensor result, its own properties `own`, then the
      inherited ones; every property is read through an accessor of its
      own name. */
  function CollectiveOp(name: string, extra: seq<Slot>, own: Dict<AttrDef>): (def: OpDef)
    requires forall i :: 0 <= i < |own| ==> own[i].0 != "mesh" && own[i].0 != "mesh_axes"
    ensures InheritsCollective(def)
    ensures def.options == [] && def.traits == [Pure]
  {
    var props := own + CollectiveProps;
    assert props[|props| - 2..] == CollectiveProps && props[..|props| - 2] == own;
    KeysIndex(own, "mesh");
    KeysIndex(own, "mesh_axes");
    KeysAppend(own, CollectiveProps);
    KeysIndex(CollectiveProps, "mesh");
    KeysIndex(CollectiveProps, "mesh_axes");
    assert CollectiveProps[0].0 == "mesh" && CollectiveProps[1].0 == "mesh_axes";
    OpDef(name,
      [Slot("input", Single, TensorType, false)] + extra,
      [Slot("result", Single, TensorType, false)], [], [],
      props, [], [], [Pure],
      map k | k in Keys(props) :: PropAccessor(k),
      Format)
  }

  const AllGatherDef := CollectiveOp("mesh.all_gather", [], [("gather_axis", Required(IndexInteger, None))])
  const AllReduceDef := CollectiveOp("mesh.all_reduce", [], [("reduction", Required(ReductionKind, Some(SumReduction)))])
  const AllSliceDef := CollectiveOp("mesh.all_slice", [], [("slice_axis", Required(IndexInteger, None))])
  const AllToAllDef := CollectiveOp("mesh.all_to_all", [],
    [("split_axis", Required(IndexInteger, None)), ("concat_axis", Required(IndexInteger, None))])
  const BroadcastDef := CollectiveOp("mesh.broadcast", [Slot("root_dynamic", Variadic, IndexType, false)],
    [("root", Required(DenseI64, None))])
  const GatherDef := CollectiveOp("mesh.gather", [Slot("root_dynamic", Variadic, IndexType, false)],
    [("gather_axis", Required(IndexInteger, None)), ("root", Required(DenseI64, None))])

  const MeshDef := OpDef("mesh.mesh", [], [], [], [],
    [("sym_name", Required(SymbolName, None)), ("shape", Required(DenseI64, None))],
    [], [], [SymbolOp],
    map["sym_name" := PropAccessor("sym_name"), "shape" := PropAccessor("shape")],
    Format)

  /** The properties of `mesh.sharding` in declaration order; the
      segment-size option registers `operandSegmentSizes` where it is
      declared, after the result. */
  const ShardingProps: Dict<AttrDef> := [
    ("mesh", Required(FlatSymbolRef, None)),
    ("split_axes", Required(MeshAxesArray, None)),
    ("partial_axes", Optional(MeshAxes)),
    ("partial_type", Optional(ReductionKind)),
    ("static_sharded_dims_offsets", Required(DenseI64, Some(NoI64))),
    ("static_halo_sizes", Required(DenseI64, Some(NoI64))),
    (SegmentSizesName(OperandKind), SegmentEntry)]

  const ShardingDef := OpDef("mesh.sharding",
    [Slot("dynamic_sharded_dims_offsets", Variadic, I64Type, false), Slot("dynamic_halo_sizes", Variadic, I64Type, false)],
    [Slot("result", Single, ShardingType, false)], [], [],
    ShardingProps, [], [AttrSizedSegments(OperandKind, true)], [Pure],
    map f | f in ["mesh", "split_axes", "partial_axes", "partial_type", "static_sharded_dims_offsets", "static_halo_sizes"]
      :: PropAccessor(f),
    Format)

  // ---------------------------------------------------------------------
  // Inheritance: what `from_pyrdl` makes of a class derived from
  // `CollectiveCommunicationOp`

  /** What the base body contributes to a definition. */
  lemma CollectiveBodyFacts()
    ensures Plain(CollectiveBody)
    ensures NamesOf(CollectiveBody) == {"mesh", "mesh_axes"}
    ensures EntriesOf(CollectiveBody, true) == CollectiveProps && Keys(CollectiveProps) == {"mesh", "mesh_axes"}
    ensures EntriesOf(CollectiveBody, false) == []
    ensures AccessorsOf(CollectiveBody) == map["mesh" := PropAccessor("mesh"), "mesh_axes" := PropAccessor("mesh_axes")]
    ensures forall k :: SlotsOf(CollectiveBody, k) == []
    ensures OptionsIn(CollectiveBody) == [] && TraitsIn(CollectiveBody) == None
  {
  }

  /** A class whose own body declares neither `mesh` nor `mesh_axes`, on
      top of `CollectiveCommunicationOp`: its fields are collected without
      error, its own declarations first and the inherited properties last,
      and the definition it yields inherits the two properties. */
  lemma CollectiveInherits(cls: OpClass)
    requires |cls.bodies| == 2 && cls.bodies[1] == CollectiveBody
    requires Plain(cls.bodies[0])
    requires "mesh" !in NamesOf(cls.bodies[0]) && "mesh_axes" !in NamesOf(cls.bodies[0])
    requires "mesh" !in Keys(EntriesOf(cls.bodies[0], true)) && "mesh_axes" !in Keys(EntriesOf(cls.bodies[0], true))
    ensures var child := cls.bodies[0];
      var r := Collect(cls.name, AllFields(cls.bodies));
      && r.Ok?
      && r.value.def.properties == EntriesOf(child, true) + CollectiveProps
      && r.value.def.attributes == EntriesOf(child, false)
      && (forall k :: r.value.def.Slots(k) == SlotsOf(child, k))
      && r.value.def.options == OptionsIn(child)
      && r.value.def.traits == TraitsIn(child).GetOr([])
    ensures FromPyrdl(cls).Ok? ==> InheritsCollective(FromPyrdl(cls).value)
  {
    var child := cls.bodies[0];
    var c := Closed(Builder(EmptyDef(cls.name), {}), child);
    CollectiveCollect(cls);
    OnBase(c);
    var r := Closed(c, CollectiveBody);
    assert Collect(cls.name, AllFields(cls.bodies)) == Ok(r);
    forall k ensures r.def.Slots(k) == SlotsOf(child, k) {
      assert r.def.Slots(k) == c.def.Slots(k);
    }
    EndsWithBase(EntriesOf(child, true), r.def);
    FormatKeepsInheritance(cls, r.def);
  }

  /** The assembly format that `from_pyrdl` adds after the field loop
      leaves the inherited properties in place. */
  lemma FormatKeepsInheritance(cls: OpClass, d: OpDef)
    requires Collect(cls.name, AllFields(cls.bodies)).Ok? && Collect(cls.name, AllFields(cls.bodies)).value.def == d
    requires InheritsCollective(d)
    ensures FromPyrdl(cls).Ok? ==> InheritsCollective(FromPyrdl(cls).value)
  {
    if FromPyrdl(cls).Ok? {
      var v := FromPyrdl(cls).value;
      assert v.(assemblyFormat := None) == d.(assemblyFormat := None);
      assert v.properties == v.(assemblyFormat := None).properties;
      assert v.accessorNames == v.(assemblyFormat := None).accessorNames;
    }
  }

  /** The two bodies are collected without error, the base on top of what
      the child built. */
  lemma CollectiveCollect(cls: OpClass)
    requires |cls.bodies| == 2 && cls.bodies[1] == CollectiveBody
    requires Plain(cls.bodies[0])
    requires "mesh" !in NamesOf(cls.bodies[0]) && "mesh_axes" !in NamesOf(cls.bodies[0])
    requires "mesh" !in Keys(EntriesOf(cls.bodies[0], true)) && "mesh_axes" !in Keys(EntriesOf(cls.bodies[0], true))
    ensures var c := Closed(Builder(EmptyDef(cls.name), {}), cls.bodies[0]);
      && Collect(cls.name, AllFields(cls.bodies)) == Ok(Closed(c, CollectiveBody))
      && c.def.properties == EntriesOf(cls.bodies[0], true) && c.def.attributes == EntriesOf(cls.bodies[0], false)
      && (forall k :: c.def.Slots(k) == SlotsOf(cls.bodies[0], k))
      && c.def.options == OptionsIn(cls.bodies[0]) && c.def.traits == TraitsIn(cls.bodies[0]).GetOr([])
  {
    var child := cls.bodies[0];
    var b := Builder(EmptyDef(cls.name), {});
    CollectiveBodyFacts();
    PlainReserved(child);
    ChildFirst(cls.name, child);
    BaseFresh(Closed(b, child));
    TwoBodies(cls);
  }

  /** A definition whose properties are `own` followed by the inherited
      pair, with the inherited accessors installed last, inherits them. */
  lemma EndsWithBase(own: Dict<AttrDef>, d: OpDef)
    requires d.properties == own + CollectiveProps
    requires "mesh" !in Keys(own) && "mesh_axes" !in Keys(own)
    requires "mesh" in d.accessorNames && d.accessorNames["mesh"] == PropAccessor("mesh")
    requires "mesh_axes" in d.accessorNames && d.accessorNames["mesh_axes"] == PropAccessor("mesh_axes")
    ensures InheritsCollective(d)
  {
    var props := own + CollectiveProps;
    assert props[|props| - 2..] == CollectiveProps && props[..|props| - 2] == own;
  }

  /** What the most-derived body alone builds. */
  lemma ChildFirst(name: string, child: seq<Decl>)
    ensures var c := Closed(Builder(EmptyDef(name), {}), child);
      && c.def.properties == EntriesOf(child, true) && c.def.attributes == EntriesOf(child, false)
      && (forall k :: c.def.Slots(k) == SlotsOf(child, k))
      && c.def.options == OptionsIn(child) && c.def.traits == TraitsIn(child).GetOr([])
      && c.def.accessorNames == AccessorsOf(child) && c.seen == NamesOf(child)
  {
    var c := Closed(Builder(EmptyDef(name), {}), child);
    forall k ensures c.def.Slots(k) == SlotsOf(child, k) {
      match k
      case OperandKind =>
      case ResultKind =>
      case RegionKind =>
      case SuccessorKind =>
    }
  }

  /** The base body fits on any builder that has not taken its names. */
  lemma BaseFresh(c: Builder)
    requires "mesh" !in c.seen && "mesh_axes" !in c.seen && "irdl_options" !in c.seen
    requires "mesh" !in Keys(c.def.properties) && "mesh_axes" !in Keys(c.def.properties)
    ensures Plain(CollectiveBody) && Fresh(c, CollectiveBody)
  {
    CollectiveBodyFacts();
  }

  /** The base body appends the two inherited properties and their
      accessors, and nothing else. */
  lemma OnBase(c: Builder)
    ensures var d := Closed(c, CollectiveBody).def;
      && d.properties == c.def.properties + CollectiveProps && d.attributes == c.def.attributes
      && (forall k :: d.Slots(k) == c.def.Slots(k))
      && d.options == c.def.options && d.traits == c.def.traits
      && d.accessorNames == c.def.accessorNames["mesh" := PropAccessor("mesh")]["mesh_axes" := PropAccessor("mesh_axes")]
  {
    CollectiveBodyFacts();
    var d := Closed(c, CollectiveBody).def;
    assert c.def.attributes + [] == c.def.attributes && c.def.options + [] == c.def.options;
    forall k ensures d.Slots(k) == c.def.Slots(k) {
      match k
      case OperandKind => assert c.def.operands + [] == c.def.operands;
      case ResultKind => assert c.def.results + [] == c.def.results;
      case RegionKind => assert c.def.regions + [] == c.def.regions;
      case SuccessorKind => assert c.def.successors + [] == c.def.successors;
    }
  }

  /** Splits a collective table into its own part and the inherited one. */
  lemma CollectiveSplit(def: OpDef) returns (own: Dict<AttrDef>)
    requires InheritsCollective(def)
    ensures def.properties == own + CollectiveProps
    ensures "mesh" !in Keys(own) && "mesh_axes" !in Keys(own)
  {
    var n := |def.properties|;
    own := def.properties[..n - 2];
    assert def.properties == own + def.properties[n - 2..];
  }

  /** Constructing a collective operation stores `mesh_axes` as supplied,
      and the empty axis list when it is not supplied or supplied as
      `None`; `mesh` is stored exactly when it is supplied. */
  lemma CollectiveInitDefaults(def: OpDef, a: BuildArgs)
    requires InheritsCollective(def) && OpInit(def, a).Ok?
    ensures var p := OpInit(def, a).value.properties;
      && "mesh_axes" in p
      && p["mesh_axes"] == (if "mesh_axes" in a.properties && a.properties["mesh_axes"].Some?
                            then a.properties["mesh_axes"].value else NoAxes)
      && ("mesh" in p <==> "mesh" in a.properties && a.properties["mesh"].Some?)
  {
    var own := CollectiveSplit(def);
    LookupAppend(own, CollectiveProps, "mesh");
    LookupAppend(own, CollectiveProps, "mesh_axes");
    OpInitEntries(def, a, "mesh");
    OpInitEntries(def, a, "mesh_axes");
  }

  /** A collective operation without `mesh` fails verification. */
  lemma CollectiveNeedsMesh(def: OpDef, op: Op, o: Oracle)
    requires InheritsCollective(def) && "mesh" !in op.properties
    ensures VerifyOp(def, op, o).Err?
  {
    var own := CollectiveSplit(def);
    assert def.properties[|own|] == CollectiveProps[0];
    MissingRequiredPropertyFails(def, op, o, |own|);
  }

  // ---------------------------------------------------------------------
  // `mesh.broadcast` and `mesh.gather`: a single `input` before the
  // variadic `root_dynamic`

  /** With no segment-size option, `root_dynamic` takes every operand
      after `input`, and at least `input` must be there. */
  lemma RootDynamicSizes(def: OpDef, op: Op)
    requires def == BroadcastDef || def == GatherDef
    ensures GetVariadicSizes(def, OperandKind, op) ==
      if |op.operands| >= 1 then Ok([|op.operands| - 1]) else Err(TooFewForVariadic(OperandKind, 1))
  {
    var slots := [Slot("input", Single, TensorType, false), Slot("root_dynamic", Variadic, IndexType, false)];
    assert def.operands == slots && def.options == [];
    assert VariadicCount(slots) == 1;
    assert AttrSizedFor(def.options, OperandKind) == None;
    assert op.Count(OperandKind) == |op.operands|;
  }

  /** The accessors read `input` as the first operand and `root_dynamic`
      as all the others. */
  lemma RootDynamicAccessors(def: OpDef, op: Op)
    requires def == BroadcastDef || def == GatherDef
    requires |op.operands| >= 1
    ensures GetSlot(def, OperandKind, op, op.operands, 0) == Ok(One(op.operands[0]))
    ensures GetSlot(def, OperandKind, op, op.operands, 1) == Ok(Many(op.operands[1..]))
  {
    var slots := [Slot("input", Single, TensorType, false), Slot("root_dynamic", Variadic, IndexType, false)];
    assert def.operands == slots;
    RootDynamicSizes(def, op);
    var sizes := [|op.operands| - 1];
    assert slots[..0] == [] && slots[..1] == [slots[0]];
    assert PreviousVariadics(slots, 0) == 0 && PreviousVariadics(slots, 1) == 0;
    assert StartOffset(1, 0, sizes) == 1;
    assert def.Slots(OperandKind) == slots;
    ReadVariadic(OperandKind, slots, sizes, op.operands, 1, 1, |op.operands| - 1);
    assert op.operands[1..1 + (|op.operands| - 1)] == op.operands[1..];
    assert PyIndex(op.operands, 0) == Some(op.operands[0]);
  }

  // ---------------------------------------------------------------------
  // `mesh.sharding`: two variadic operand groups sized by a property

  /** Two variadic operand groups are legal only through the segment-size
      option: without it, the definition is rejected. */
  lemma ShardingNeedsSegments()
    ensures VariadicsDeclared(ShardingDef)
    ensures VariadicCount(ShardingDef.operands) == 2
    ensures CheckVariadics(ShardingDef.(options := []), OperandKind) == Err(TooManyVariadics(OperandKind))
  {
    var slots := ShardingDef.operands;
    assert slots[..1][..0] == [] && slots[..|slots| - 1] == slots[..1];
    assert VariadicCount(slots) == 2;
    forall k ensures VariadicCount(ShardingDef.Slots(k)) <= 1 || AllowsMultipleVariadics(ShardingDef.options, k) {
      assert AttrSizedFor(ShardingDef.options, OperandKind) == Some(true);
    }
  }

  /** The operand groups of `mesh.sharding` are sized by the property
      `operandSegmentSizes` alone, whatever the number of operands: two
      `i32` entries, each the length of its group, which the accessors
      slice out of the operand list one after the other. */
  lemma ShardingSegments(op: Op)
    ensures GetVariadicSizes(ShardingDef, OperandKind, op) ==
      FromSideChannel(OperandKind, ShardingDef.operands, SegmentSizesName(OperandKind), op.properties, true)
    ensures var name := SegmentSizesName(OperandKind);
      GetVariadicSizes(ShardingDef, OperandKind, op).Ok? <==>
        name in op.properties && op.properties[name].DenseArray? && op.properties[name].elt == I32
        && |op.properties[name].values| == 2
    ensures GetVariadicSizes(ShardingDef, OperandKind, op).Ok? ==>
      var sizes := op.properties[SegmentSizesName(OperandKind)].values;
      && GetVariadicSizes(ShardingDef, OperandKind, op).value == sizes
      && GetSlot(ShardingDef, OperandKind, op, op.operands, 0) == Ok(Many(PySlice(op.operands, 0, sizes[0])))
      && GetSlot(ShardingDef, OperandKind, op, op.operands, 1) == Ok(Many(PySlice(op.operands, sizes[0], sizes[0] + sizes[1])))
  {
    ShardingStatics();
    SegmentedPair(ShardingDef, op);
  }

  /** Two variadic operand groups sized by a property. */
  lemma SegmentedPair(def: OpDef, op: Op)
    requires |def.operands| == 2 && def.operands[0].card == Variadic && def.operands[1].card == Variadic
    requires AttrSizedFor(def.options, OperandKind) == Some(true)
    ensures GetVariadicSizes(def, OperandKind, op) ==
      FromSideChannel(OperandKind, def.operands, SegmentSizesName(OperandKind), op.properties, true)
    ensures var name := SegmentSizesName(OperandKind);
      GetVariadicSizes(def, OperandKind, op).Ok? <==>
        name in op.properties && op.properties[name].DenseArray? && op.properties[name].elt == I32
        && |op.properties[name].values| == 2
    ensures GetVariadicSizes(def, OperandKind, op).Ok? ==>
      var sizes := op.properties[SegmentSizesName(OperandKind)].values;
      && GetVariadicSizes(def, OperandKind, op).value == sizes
      && GetSlot(def, OperandKind, op, op.operands, 0) == Ok(Many(PySlice(op.operands, 0, sizes[0])))
      && GetSlot(def, OperandKind, op, op.operands, 1) == Ok(Many(PySlice(op.operands, sizes[0], sizes[0] + sizes[1])))
  {
    var slots := def.operands;
    assert slots[..1][..0] == [] && slots[..|slots| - 1] == slots[..1];
    assert VariadicCount(slots) == 2;
    if GetVariadicSizes(def, OperandKind, op).Ok? {
      var sizes := op.properties[SegmentSizesName(OperandKind)].values;
      assert sizes[..1][..0] == [] && sizes[..|sizes| - 1] == sizes[..1];
      assert VariadicEntries(slots, sizes) == sizes;
      PairReads(slots, sizes, op.operands);
    }
  }

  /** The slices two variadic slots read. */
  lemma PairReads<T>(slots: seq<Slot>, sizes: seq<int>, args: seq<T>)
    requires |slots| == 2 && slots[0].card == Variadic && slots[1].card == Variadic
    requires |sizes| == VariadicCount(slots) == 2
    ensures SlotAt(OperandKind, slots, sizes, args, 0) == Ok(Many(PySlice(args, 0, sizes[0])))
    ensures SlotAt(OperandKind, slots, sizes, args, 1) == Ok(Many(PySlice(args, sizes[0], sizes[0] + sizes[1])))
  {
    assert slots[..1][..0] == [] && slots[..0] == [];
    assert PreviousVariadics(slots, 0) == 0 && PreviousVariadics(slots, 1) == 1;
    assert sizes[..1][..0] == [];
    assert Sum(sizes[..1]) == sizes[0];
    assert StartOffset(1, 1, sizes) == sizes[0];
  }

  // ---------------------------------------------------------------------
  // The operation-specific verifiers

  const MeshRankMessage := "'mesh.mesh' op rank of mesh is expected to be a positive integer"
  const ShardingExclusiveMessage := "'mesh.sharding' cannot use both `halo_sizes` and `sharded_dims_offsets`"

  /** Python truthiness of a property value: a dense array is false when
      it has no elements; any other attribute is true. */
  predicate Truthy(a: Attr) {
    match a
    case DenseArray(_, values) => |values| > 0
    case Opaque(_) => true
  }

  /** The number of elements an accessor returned. */
  function Size<T>(g: Got<T>): nat {
    match g
    case Nothing => 0
    case One(_) => 1
    case Many(vs) => |vs|
  }

  /** An oracle under which a value satisfying `DenseArrayBase[I64]` is a
      dense array. */
  ghost predicate Faithful(o: Oracle) {
    forall a :: o.single(DenseI64, a) ==> a.DenseArray?
  }

  /** `MeshOp.verify_`: the mesh needs at least one dimension.  Reading
      `shape` raises when it is absent (`KeyError`) or not a dense array;
      both stand here as the property's own errors. */
  function MeshVerify(op: Op): (r: Result<(), VerifyError>)
    ensures r.Ok? <==> "shape" in op.properties && op.properties["shape"].DenseArray? && |op.properties["shape"].values| > 0
    ensures r == Err(CustomCheckFailed(MeshRankMessage)) <==>
      "shape" in op.properties && op.properties["shape"].DenseArray? && op.properties["shape"].values == []
  {
    if "shape" !in op.properties then Err(MissingProperty("shape"))
    else
      match op.properties["shape"]
      case DenseArray(_, values) => if |values| == 0 then Err(CustomCheckFailed(MeshRankMessage)) else Ok(())
      case Opaque(_) => Err(PropertyConstraintFailed("shape"))
  }

  /** One side of `ShardingOp.verify_`: `static or dynamic`, as a truth
      value.  The static list is read first (a required getter, so
      `KeyError` when absent); the dynamic group is read only when the
      static list is empty, through its accessor, which may fail.  The
      definition is a parameter so that the facts below hold of any
      definition with that operand group. */
  function InUse(def: OpDef, op: Op, staticList: string, group: nat): (r: Result<bool, VerifyError>)
    requires group < |def.operands|
    ensures staticList in op.properties && Truthy(op.properties[staticList]) ==> r == Ok(true)
    ensures staticList !in op.properties ==> r == Err(MissingProperty(staticList))
  {
    if staticList !in op.properties then Err(MissingProperty(staticList))
    else if Truthy(op.properties[staticList]) then Ok(true)
    else
      var g :- GetSlot(def, OperandKind, op, op.operands, group);
      Ok(Size(g) > 0)
  }

  /** `ShardingOp.verify_`: sharded dimension offsets and halo sizes
      exclude each other, whether given statically or as operands. */
  function ShardingVerify(op: Op): (r: Result<(), VerifyError>)
    ensures r.Ok? <==>
      && InUse(ShardingDef, op, "static_sharded_dims_offsets", 0).Ok? && InUse(ShardingDef, op, "static_halo_sizes", 1).Ok?
      && !(InUse(ShardingDef, op, "static_sharded_dims_offsets", 0).value && InUse(ShardingDef, op, "static_halo_sizes", 1).value)
  {
    var offsets :- InUse(ShardingDef, op, "static_sharded_dims_offsets", 0);
    var halo :- InUse(ShardingDef, op, "static_halo_sizes", 1);
    if offsets && halo then Err(CustomCheckFailed(ShardingExclusiveMessage)) else Ok(())
  }

  /** A mesh verifies exactly when the definition accepts it and its shape
      is not empty. */
  lemma MeshVerifyIff(op: Op, o: Oracle)
    requires Faithful(o)
    ensures VerifyWithHook(MeshDef, op, o, Some(MeshVerify)).Ok? <==>
      VerifyOp(MeshDef, op, o).Ok? && "shape" in op.properties && Truthy(op.properties["shape"])
    ensures VerifyOp(MeshDef, op, o).Ok? ==>
      "shape" in op.properties && op.properties["shape"].DenseArray?
      && (op.properties["shape"].values == [] <==>
          VerifyWithHook(MeshDef, op, o, Some(MeshVerify)) == Err(CustomCheckFailed(MeshRankMessage)))
  {
    if VerifyOp(MeshDef, op, o).Ok? {
      VerifyOpIffValid(MeshDef, op, o);
      assert MeshDef.properties[1] == ("shape", Required(DenseI64, None));
      assert EntryPasses(o, MeshDef.properties[1].0, MeshDef.properties[1].1, op.properties);
    }
  }

  /** Whether a sharding uses dimension offsets and halo sizes together:
      on each side a nonempty static list or a nonempty operand group,
      the groups cut from the operand list as `operandSegmentSizes`
      says. */
  predicate BothInUse(op: Op) {
    var props := op.properties;
    var name := SegmentSizesName(OperandKind);
    && "static_sharded_dims_offsets" in props && "static_halo_sizes" in props
    && name in props && props[name].DenseArray? && |props[name].values| == 2
    && var p, q := props[name].values[0], props[name].values[1];
    && (Truthy(props["static_sharded_dims_offsets"]) || PySlice(op.operands, 0, p) != [])
    && (Truthy(props["static_halo_sizes"]) || PySlice(op.operands, p, p + q) != [])
  }

  /** What the definition's check guarantees the sharding verifier: both
      static lists are present and the operand groups can be sized. */
  lemma ShardingChecked(op: Op, o: Oracle)
    requires VerifyOp(ShardingDef, op, o).Ok?
    ensures "static_sharded_dims_offsets" in op.properties && "static_halo_sizes" in op.properties
    ensures GetVariadicSizes(ShardingDef, OperandKind, op).Ok?
  {
    ShardingStatics();
    RequiredPresent(ShardingDef, op, o, 4);
    RequiredPresent(ShardingDef, op, o, 5);
    OperandsSized(ShardingDef, op, o);
  }

  /** A definition's check passes only when the operand groups can be
      sized. */
  lemma OperandsSized(def: OpDef, op: Op, o: Oracle)
    requires VerifyOp(def, op, o).Ok?
    ensures GetVariadicSizes(def, OperandKind, op).Ok?
  {
    assert VerifyArgList(def, OperandKind, op, o).Ok?;
  }

  lemma ShardingStatics()
    ensures |ShardingDef.properties| == 7
    ensures ShardingDef.properties[4] == ("static_sharded_dims_offsets", Required(DenseI64, Some(NoI64)))
    ensures ShardingDef.properties[5] == ("static_halo_sizes", Required(DenseI64, Some(NoI64)))
    ensures |ShardingDef.operands| == 2 && ShardingDef.operands[0].card == Variadic && ShardingDef.operands[1].card == Variadic
    ensures AttrSizedFor(ShardingDef.options, OperandKind) == Some(true)
  {
  }

  /** A definition's check passes only with every required property
      present. */
  lemma RequiredPresent(def: OpDef, op: Op, o: Oracle, i: nat)
    requires VerifyOp(def, op, o).Ok? && i < |def.properties| && !def.properties[i].1.optional
    ensures def.properties[i].0 in op.properties
  {
    VerifyOpIffValid(def, op, o);
    assert EntryPasses(o, def.properties[i].0, def.properties[i].1, op.properties);
  }

  /** Once both static lists are present and the groups can be sized,
      each side is in use when its static list is nonempty or its group
      is. */
  lemma ShardingSides(op: Op)
    requires "static_sharded_dims_offsets" in op.properties && "static_halo_sizes" in op.properties
    requires GetVariadicSizes(ShardingDef, OperandKind, op).Ok?
    ensures var props := op.properties;
      var sizes := props[SegmentSizesName(OperandKind)].values;
      && |sizes| == 2
      && InUse(ShardingDef, op, "static_sharded_dims_offsets", 0) ==
           Ok(Truthy(props["static_sharded_dims_offsets"]) || PySlice(op.operands, 0, sizes[0]) != [])
      && InUse(ShardingDef, op, "static_halo_sizes", 1) ==
           Ok(Truthy(props["static_halo_sizes"]) || PySlice(op.operands, sizes[0], sizes[0] + sizes[1]) != [])
  {
    ShardingSegments(op);
    var sizes := op.properties[SegmentSizesName(OperandKind)].values;
    InUseReads(ShardingDef, op, "static_sharded_dims_offsets", 0, PySlice(op.operands, 0, sizes[0]));
    InUseReads(ShardingDef, op, "static_halo_sizes", 1, PySlice(op.operands, sizes[0], sizes[0] + sizes[1]));
  }

  lemma InUseReads(def: OpDef, op: Op, staticList: string, group: nat, g: seq<Value>)
    requires group < |def.operands| && staticList in op.properties
    requires GetSlot(def, OperandKind, op, op.operands, group) == Ok(Many(g))
    ensures InUse(def, op, staticList, group) == Ok(Truthy(op.properties[staticList]) || g != [])
  {
  }

  /** A sharding verifies exactly when the definition accepts it and it
      does not use dimension offsets and halo sizes together; when it
      does, the error is the exclusion message. */
  lemma ShardingVerifyIff(op: Op, o: Oracle)
    ensures VerifyWithHook(ShardingDef, op, o, Some(ShardingVerify)).Ok? <==>
      VerifyOp(ShardingDef, op, o).Ok? && !BothInUse(op)
    ensures VerifyOp(ShardingDef, op, o).Ok? && BothInUse(op) ==>
      VerifyWithHook(ShardingDef, op, o, Some(ShardingVerify)) == Err(CustomCheckFailed(ShardingExclusiveMessage))
  {
    if VerifyOp(ShardingDef, op, o).Ok? {
      ShardingChecked(op, o);
      ShardingHookDecides(op);
    }
  }

  /** Once both static lists are present and the operand groups can be
      sized, the hook rejects exactly the instances using both sides. */
  lemma ShardingHookDecides(op: Op)
    requires "static_sharded_dims_offsets" in op.properties && "static_halo_sizes" in op.properties
    requires GetVariadicSizes(ShardingDef, OperandKind, op).Ok?
    ensures ShardingVerify(op).Ok? <==> !BothInUse(op)
    ensures BothInUse(op) ==> ShardingVerify(op) == Err(CustomCheckFailed(ShardingExclusiveMessage))
  {
    ShardingSegments(op);
    ShardingSides(op);
  }

  /** The sharding table without its two optional entries. */
  const ShardingRequired: Dict<AttrDef> := ShardingProps[..2] + ShardingProps[4..]

  /** Two absent optional entries in a row can be left out of a table
      without changing the dictionary checks. */
  lemma DropAbsentPair(pre: Dict<AttrDef>, x: (string, AttrDef), y: (string, AttrDef), post: Dict<AttrDef>,
                       present: map<string, Attr>, o: Oracle)
    requires x.1.optional && y.1.optional && x.0 !in present && y.0 !in present
    ensures CheckDeclared(pre + [x, y] + post, present, o, true) == CheckDeclared(pre + post, present, o, true)
    ensures CheckUndeclared(pre + [x, y] + post, present) == CheckUndeclared(pre + post, present)
  {
    assert pre + [x, y] + post == pre + [x] + ([y] + post);
    AbsentOptionalSkipped(pre, [y] + post, present, o, true, x.0, x.1);
    assert pre + ([y] + post) == pre + [y] + post;
    AbsentOptionalSkipped(pre, post, present, o, true, y.0, y.1);
    forall name | name in present
      ensures Lookup(pre + [x, y] + post, name).Some? <==> Lookup(pre + post, name).Some?
    {
      LookupKeys(pre + [x, y] + post, name);
      LookupKeys(pre + post, name);
      KeysAppend(pre + [x, y], post);
      KeysAppend(pre, [x, y]);
      KeysAppend(pre, post);
      KeysIndex([x, y], name);
    }
  }

  /** A sharding without `partial_axes` and `partial_type` is checked as
      if the two optional entries were not declared at all. */
  lemma ShardingPartialsOptional(op: Op, o: Oracle)
    requires "partial_axes" !in op.properties && "partial_type" !in op.properties
    ensures VerifyEntries(ShardingDef, op, o) == VerifyEntries(ShardingDef.(properties := ShardingRequired), op, o)
  {
    var pre, post := ShardingProps[..2], ShardingProps[4..];
    assert ShardingProps == pre + [ShardingProps[2], ShardingProps[3]] + post;
    DropAbsentPair(pre, ShardingProps[2], ShardingProps[3], post, op.properties, o);
  }

  /** The value a caller supplied for entry `n`, if any. */
  function Supplied(m: map<string, Option<Attr>>, n: string): Option<Attr> {
    if n in m then m[n] else None
  }

  lemma ShardingDefaults()
    ensures DefaultFor(ShardingProps, "static_sharded_dims_offsets") == Some(NoI64)
    ensures DefaultFor(ShardingProps, "static_halo_sizes") == Some(NoI64)
    ensures DefaultFor(ShardingProps, "partial_axes") == None
    ensures DefaultFor(ShardingProps, "partial_type") == None
  {
    LookupFirst(ShardingProps, "partial_axes", 2);
    LookupFirst(ShardingProps, "partial_type", 3);
    LookupFirst(ShardingProps, "static_sharded_dims_offsets", 4);
    LookupFirst(ShardingProps, "static_halo_sizes", 5);
  }

  /** Stored as supplied, else as the empty `i64` list. */
  predicate Defaulted(p: map<string, Attr>, supplied: Option<Attr>, n: string) {
    n in p && p[n] == supplied.GetOr(NoI64)
  }

  /** Stored exactly when supplied. */
  predicate AsSupplied(p: map<string, Attr>, supplied: Option<Attr>, n: string) {
    match supplied
    case Some(v) => n in p && p[n] == v
    case None => n !in p
  }

  /** Constructing a sharding stores each static list as supplied and the
      empty list otherwise; the optional `partial_axes` and
      `partial_type` are stored only when supplied. */
  lemma ShardingInitDefaults(a: BuildArgs)
    requires OpInit(ShardingDef, a).Ok?
    ensures var p := OpInit(ShardingDef, a).value.properties;
      && Defaulted(p, Supplied(a.properties, "static_sharded_dims_offsets"), "static_sharded_dims_offsets")
      && Defaulted(p, Supplied(a.properties, "static_halo_sizes"), "static_halo_sizes")
      && AsSupplied(p, Supplied(a.properties, "partial_axes"), "partial_axes")
      && AsSupplied(p, Supplied(a.properties, "partial_type"), "partial_type")
  {
    var p := StoredProps(ShardingDef, a);
    ShardingDefaults();
    ShardingStored(a.properties, ShardingDef.properties, p);
  }

  /** The stored properties after construction, entry by entry. */
  lemma StoredProps(def: OpDef, a: BuildArgs) returns (p: map<string, Attr>)
    requires OpInit(def, a).Ok?
    ensures p == OpInit(def, a).value.properties
    ensures forall n :: n !in SegmentNames ==> Stored(a.properties, def.properties, p, n)
  {
    p := OpInit(def, a).value.properties;
    forall n | n !in SegmentNames ensures Stored(a.properties, def.properties, p, n) {
      OpInitEntries(def, a, n);
    }
  }

  lemma ShardingStored(supplied: map<string, Option<Attr>>, defs: Dict<AttrDef>, p: map<string, Attr>)
    requires forall n :: n !in SegmentNames ==> Stored(supplied, defs, p, n)
    requires DefaultFor(defs, "static_sharded_dims_offsets") == Some(NoI64)
    requires DefaultFor(defs, "static_halo_sizes") == Some(NoI64)
    requires DefaultFor(defs, "partial_axes") == None
    requires DefaultFor(defs, "partial_type") == None
    ensures Defaulted(p, Supplied(supplied, "static_sharded_dims_offsets"), "static_sharded_dims_offsets")
    ensures Defaulted(p, Supplied(supplied, "static_halo_sizes"), "static_halo_sizes")
    ensures AsSupplied(p, Supplied(supplied, "partial_axes"), "partial_axes")
    ensures AsSupplied(p, Supplied(supplied, "partial_type"), "partial_type")
  {
    assert Stored(supplied, defs, p, "static_sharded_dims_offsets");
    assert Stored(supplied, defs, p, "static_halo_sizes");
    assert Stored(supplied, defs, p, "partial_axes");
    assert Stored(supplied, defs, p, "partial_type");
  }
}
