/**
  The construction path (`irdl_build_arg_list`, `irdl_op_init` and the
  default filling of `IRDLOperation.__post_init__`): per-slot caller
  arguments are checked against the slot cardinalities, flattened, their
  sizes recorded and, where an option asks for it, encoded into the
  reserved segment-size attribute or property.
 */
module Build {
  import opened Wrappers
  import opened Schema
  import opened PySeq
  import opened Resolver
  import opened Accessor

  /** A caller-supplied slot argument: `None`, a single value, or a
      sequence of values. */
  datatype Arg<T> = NoArg | Scalar(value: T) | List(values: seq<T>)

  /** The `ValueError`s the construction path raises. */
  datatype BuildError =
    | ArgCountMismatch(kind: Construct, expected: nat, got: nat)
    | NoneForNonOptional(kind: Construct, index: nat, slot: string)
    | SequenceForNonVariadic(kind: Construct, index: nat, slot: string)
    | OptionalListTooLong(kind: Construct, index: nat, slot: string, got: nat)
    | UnequalVariadicSizes(kind: Construct, sizes: seq<int>)

  /** The flat elements an argument contributes. */
  function Piece<T>(a: Arg<T>): seq<T> {
    match a
    case NoArg => []
    case Scalar(v) => [v]
    case List(vs) => vs
  }

  /** All arguments' elements, in order. */
  function Flatten<T>(args: seq<Arg<T>>): seq<T> {
    if |args| == 0 then [] else Flatten(args[..|args| - 1]) + Piece(args[|args| - 1])
  }

  /** The number of elements each argument contributes. */
  function Lengths<T>(args: seq<Arg<T>>): (r: seq<nat>)
    ensures |r| == |args|
    ensures forall i :: 0 <= i < |args| ==> r[i] == |Piece(args[i])|
  {
    if |args| == 0 then []
    else
      var n := |args| - 1;
      assert forall i :: 0 <= i < n ==> args[..n][i] == args[i];
      Lengths(args[..n]) + [|Piece(args[n])|]
  }

  /** Whether an argument is legal for a slot: `None` only for an optional
      slot, a sequence only for a variadic slot and of length at most one
      for an optional slot, a single value for any slot. */
  predicate Fits<T>(card: Card, a: Arg<T>) {
    match a
    case NoArg => card.IsOptional()
    case List(vs) => card.IsVariadic() && (card.IsOptional() ==> |vs| <= 1)
    case Scalar(_) => true
  }

  /** One iteration of the loop of `irdl_build_arg_list`. */
  function CheckArg<T>(kind: Construct, index: nat, slot: Slot, a: Arg<T>): (r: Result<seq<T>, BuildError>)
    ensures r.Ok? <==> Fits(slot.card, a)
    ensures r.Ok? ==> r.value == Piece(a)
  {
    match a
    case NoArg =>
      if !slot.card.IsOptional() then Err(NoneForNonOptional(kind, index, slot.name)) else Ok([])
    case List(vs) =>
      if !slot.card.IsVariadic() then Err(SequenceForNonVariadic(kind, index, slot.name))
      else if slot.card.IsOptional() && |vs| > 1 then Err(OptionalListTooLong(kind, index, slot.name, |vs|))
      else Ok(vs)
    case Scalar(v) => Ok([v])
  }

  /** The loop of `irdl_build_arg_list` over the first `|args|` slots; the
      first failing argument, in order, decides the error. */
  function BuildItems<T>(kind: Construct, args: seq<Arg<T>>, slots: seq<Slot>): (r: Result<(seq<T>, seq<nat>), BuildError>)
    requires |args| == |slots|
    ensures r.Ok? <==> forall i :: 0 <= i < |args| ==> Fits(slots[i].card, args[i])
    ensures r.Ok? ==> |r.value.1| == |args|
  {
    if |args| == 0 then Ok(([], []))
    else
      var n := |args| - 1;
      var prefix := BuildItems(kind, args[..n], slots[..n]);
      assert forall i :: 0 <= i < n ==> args[..n][i] == args[i] && slots[..n][i] == slots[i];
      if prefix.Err? then Err(prefix.error)
      else
        var piece := CheckArg(kind, n, slots[n], args[n]);
        if piece.Err? then Err(piece.error)
        else Ok((prefix.value.0 + piece.value, prefix.value.1 + [|piece.value|]))
  }

  /** `irdl_build_arg_list`: the flattened arguments and one size per slot. */
  function BuildArgList<T>(kind: Construct, args: seq<Arg<T>>, slots: seq<Slot>): (r: Result<(seq<T>, seq<nat>), BuildError>)
    ensures r.Ok? <==> |args| == |slots| && forall i :: 0 <= i < |args| ==> Fits(slots[i].card, args[i])
    ensures r.Ok? ==> |r.value.1| == |slots|
  {
    if |args| != |slots| then Err(ArgCountMismatch(kind, |slots|, |args|))
    else BuildItems(kind, args, slots)
  }

  /** The loop builds exactly the flattened arguments and their sizes. */
  lemma {:induction false} BuildItemsValue<T>(kind: Construct, args: seq<Arg<T>>, slots: seq<Slot>)
    requires |args| == |slots|
    requires BuildItems(kind, args, slots).Ok?
    ensures BuildItems(kind, args, slots).value == (Flatten(args), Lengths(args))
    decreases |args|
  {
    if |args| > 0 {
      var n := |args| - 1;
      BuildItemsValue(kind, args[..n], slots[..n]);
    }
  }

  /** A successful `irdl_build_arg_list` returns the flattened arguments
      and, per slot, how many elements its argument contributed; those
      sizes fit the slots and add up to the flat length. */
  lemma BuildArgListValue<T>(kind: Construct, args: seq<Arg<T>>, slots: seq<Slot>)
    requires BuildArgList(kind, args, slots).Ok?
    ensures var r := BuildArgList(kind, args, slots).value;
      && r == (Flatten(args), Lengths(args))
      && SizesFit(slots, r.1)
      && Sum(r.1) == |r.0|
  {
    BuildItemsValue(kind, args, slots);
    FlattenLength(args);
    forall i | 0 <= i < |slots|
      ensures slots[i].card == Single ==> Lengths(args)[i] == 1
      ensures slots[i].card == Optional ==> Lengths(args)[i] <= 1
    {
      FitsBoundsPiece(slots[i].card, args[i]);
    }
  }

  /** An argument that fits its slot contributes exactly one element to a
      single slot and at most one to an optional slot. */
  lemma FitsBoundsPiece<T>(card: Card, a: Arg<T>)
    requires Fits(card, a)
    ensures card == Single ==> |Piece(a)| == 1
    ensures card == Optional ==> |Piece(a)| <= 1
  {
  }

  /** What the recorded sizes satisfy: one per slot, exactly one for a
      single slot, at most one for an optional slot. */
  predicate SizesFit(slots: seq<Slot>, sizes: seq<nat>) {
    && |sizes| == |slots|
    && forall i :: 0 <= i < |slots| ==>
      && (slots[i].card == Single ==> sizes[i] == 1)
      && (slots[i].card == Optional ==> sizes[i] <= 1)
  }

  /** For operands and regions the source first turns `None` into an empty
      list (`irdl_build_operations_arg`, `irdl_build_regions_arg`). */
  function NoneToEmpty<T>(args: seq<Arg<T>>): (r: seq<Arg<T>>)
    ensures |r| == |args|
    ensures forall i :: 0 <= i < |args| ==> r[i] == (if args[i].NoArg? then List([]) else args[i])
  {
    seq(|args|, i requires 0 <= i < |args| => if args[i].NoArg? then List([]) else args[i])
  }

  // ---------------------------------------------------------------------
  // irdl_op_init

  /** Everything a caller passes to the builder. */
  datatype BuildArgs = BuildArgs(
    operands: seq<Arg<Value>>,
    resultTypes: seq<Arg<Attr>>,
    properties: map<string, Option<Attr>>,
    attributes: map<string, Option<Attr>>,
    successors: seq<Arg<nat>>,
    regions: seq<Arg<Region>>)

  /** The per-slot sizes recorded for each construct kind. */
  datatype KindSizes = KindSizes(operands: seq<nat>, results: seq<nat>, regions: seq<nat>, successors: seq<nat>) {
    function Of(k: Construct): seq<nat> {
      match k
      case OperandKind => operands
      case ResultKind => results
      case RegionKind => regions
      case SuccessorKind => successors
    }
  }

  /** The four flattened lists and their per-slot sizes. */
  datatype Lists = Lists(operands: seq<Value>, resultTypes: seq<Attr>, regions: seq<Region>, successors: seq<nat>, sizes: KindSizes) {
    function Count(k: Construct): nat {
      match k
      case OperandKind => |operands|
      case ResultKind => |resultTypes|
      case RegionKind => |regions|
      case SuccessorKind => |successors|
    }
  }

  /** The four `irdl_build_arg_list` calls of `irdl_op_init`, in order. */
  function BuildLists(def: OpDef, a: BuildArgs): (r: Result<Lists, BuildError>)
    ensures r.Ok? ==> forall k :: |r.value.sizes.Of(k)| == |def.Slots(k)|
    ensures r.Ok? ==>
      && BuildArgList(OperandKind, NoneToEmpty(a.operands), def.operands) == Ok((r.value.operands, r.value.sizes.operands))
      && BuildArgList(ResultKind, a.resultTypes, def.results) == Ok((r.value.resultTypes, r.value.sizes.results))
      && BuildArgList(RegionKind, NoneToEmpty(a.regions), def.regions) == Ok((r.value.regions, r.value.sizes.regions))
      && BuildArgList(SuccessorKind, a.successors, def.successors) == Ok((r.value.successors, r.value.sizes.successors))
  {
    var operands :- BuildArgList(OperandKind, NoneToEmpty(a.operands), def.operands);
    var results :- BuildArgList(ResultKind, a.resultTypes, def.results);
    var regions :- BuildArgList(RegionKind, NoneToEmpty(a.regions), def.regions);
    var successors :- BuildArgList(SuccessorKind, a.successors, def.successors);
    Ok(Lists(operands.0, results.0, regions.0, successors.0,
             KindSizes(operands.1, results.1, regions.1, successors.1)))
  }

  /** Drops the entries the caller set to `None`. */
  function DropNone(m: map<string, Option<Attr>>): (r: map<string, Attr>)
    ensures forall k :: k in r <==> k in m && m[k].Some?
    ensures forall k :: k in r ==> r[k] == m[k].value
  {
    map k | k in m && m[k].Some? :: m[k].value
  }

  /** The segment-size array construction writes for kind `k`. */
  function Encode(sizes: seq<nat>): Attr {
    DenseArray(I32, sizes)
  }

  const SegmentNames: set<string> :=
    {"operandSegmentSizes", "resultSegmentSizes", "regionSegmentSizes", "successorSegmentSizes"}

  predicate AllEqual(xs: seq<int>) {
    forall i :: 0 <= i < |xs| ==> xs[i] == xs[0]
  }

  /** The writes of the option loop of `irdl_op_init` into one container:
      every segment-size option whose `as_property` flag is `inProp` stores
      the encoded sizes of its kind under the reserved name. */
  function WriteSegments(opts: seq<IrdlOption>, sizes: KindSizes, inProp: bool, m: map<string, Attr>)
    : (r: map<string, Attr>)
    ensures forall k :: AttrSizedSegments(k, inProp) in opts ==>
      SegmentSizesName(k) in r && r[SegmentSizesName(k)] == Encode(sizes.Of(k))
    // an already encoded entry stays
    ensures forall k :: SegmentSizesName(k) in m && m[SegmentSizesName(k)] == Encode(sizes.Of(k)) ==>
      SegmentSizesName(k) in r && r[SegmentSizesName(k)] == Encode(sizes.Of(k))
    // nothing but the reserved names changes
    ensures forall n :: n !in SegmentNames ==> (n in r <==> n in m) && (n in m ==> r[n] == m[n])
    decreases |opts|
  {
    if |opts| == 0 then m
    else
      assert forall o :: o in opts <==> o == opts[0] || o in opts[1..];
      if opts[0].AttrSizedSegments? && opts[0].asProperty == inProp then
        var k := opts[0].kind;
        WriteSegments(opts[1..], sizes, inProp, m[SegmentSizesName(k) := Encode(sizes.Of(k))])
      else WriteSegments(opts[1..], sizes, inProp, m)
  }

  /** The checks of the option loop of `irdl_op_init`: the first
      same-size option whose kind has variadic slots of unequal size. */
  function SameSizeViolation(def: OpDef, opts: seq<IrdlOption>, sizes: KindSizes): (r: Option<BuildError>)
    requires forall k :: |sizes.Of(k)| == |def.Slots(k)|
    ensures r.None? <==> forall k :: SameVariadicSize(k) in opts ==> AllEqual(VariadicEntries(def.Slots(k), sizes.Of(k)))
    ensures r.Some? ==> r.value.UnequalVariadicSizes?
    decreases |opts|
  {
    if |opts| == 0 then None
    else
      assert forall o :: o in opts <==> o == opts[0] || o in opts[1..];
      if opts[0].SameVariadicSize? && !AllEqual(VariadicEntries(def.Slots(opts[0].kind), sizes.Of(opts[0].kind))) then
        var k := opts[0].kind;
        Some(UnequalVariadicSizes(k, VariadicEntries(def.Slots(k), sizes.Of(k))))
      else SameSizeViolation(def, opts[1..], sizes)
  }

  /** The option loop of `irdl_op_init`.  The source interleaves writes and
      checks in one loop; since a write never changes what a check reads,
      and an error discards the written maps, checking first and writing
      after gives the same outcome. */
  function ApplyOptions(def: OpDef, sizes: KindSizes, props: map<string, Attr>, attrs: map<string, Attr>)
    : (r: Result<(map<string, Attr>, map<string, Attr>), BuildError>)
    requires forall k :: |sizes.Of(k)| == |def.Slots(k)|
    ensures r.Ok? <==> forall k :: SameVariadicSize(k) in def.options ==> AllEqual(VariadicEntries(def.Slots(k), sizes.Of(k)))
    ensures r.Err? ==> r.error.UnequalVariadicSizes?
    ensures r.Ok? ==> forall k :: AttrSizedSegments(k, true) in def.options ==>
      SegmentSizesName(k) in r.value.0 && r.value.0[SegmentSizesName(k)] == Encode(sizes.Of(k))
    ensures r.Ok? ==> forall k :: AttrSizedSegments(k, false) in def.options ==>
      SegmentSizesName(k) in r.value.1 && r.value.1[SegmentSizesName(k)] == Encode(sizes.Of(k))
    ensures r.Ok? ==> forall n :: n !in SegmentNames ==>
      && (n in r.value.0 <==> n in props) && (n in props ==> r.value.0[n] == props[n])
      && (n in r.value.1 <==> n in attrs) && (n in attrs ==> r.value.1[n] == attrs[n])
  {
    match SameSizeViolation(def, def.options, sizes)
    case Some(e) => Err(e)
    case None => Ok((WriteSegments(def.options, sizes, true, props), WriteSegments(def.options, sizes, false, attrs)))
  }

  /** The default a declared entry fills in when absent: only a
      non-optional definition with a default gets one. */
  function DefaultFor(defs: Dict<AttrDef>, name: string): Option<Attr> {
    match Lookup(defs, name)
    case Some(d) => if !d.optional then d.default else None
    case None => None
  }

  /** The default-filling loops of `__post_init__`. */
  function FillDefaults(defs: Dict<AttrDef>, m: map<string, Attr>): (r: map<string, Attr>)
    ensures forall n :: n in r <==> n in m || DefaultFor(defs, n).Some?
    ensures forall n :: n in m ==> r[n] == m[n]
    ensures forall n :: n !in m && DefaultFor(defs, n).Some? ==> r[n] == DefaultFor(defs, n).value
  {
    forall n | DefaultFor(defs, n).Some? ensures n in Keys(defs) {
      LookupKeys(defs, n);
    }
    map n | n in m.Keys + Keys(defs) && (n in m || DefaultFor(defs, n).Some?) ::
      if n in m then m[n] else DefaultFor(defs, n).value
  }

  /** `irdl_op_init` followed by `__post_init__`. */
  function OpInit(def: OpDef, a: BuildArgs): (r: Result<Op, BuildError>)
    ensures r.Ok? <==>
      && BuildLists(def, a).Ok?
      && forall k :: SameVariadicSize(k) in def.options ==>
           AllEqual(VariadicEntries(def.Slots(k), BuildLists(def, a).value.sizes.Of(k)))
    ensures r.Ok? ==> forall k :: r.value.Count(k) == BuildLists(def, a).value.Count(k)
    // the built operation holds the built flat lists themselves
    ensures r.Ok? ==>
      && r.value.operands == BuildLists(def, a).value.operands
      && r.value.resultTypes == BuildLists(def, a).value.resultTypes
      && r.value.regions == BuildLists(def, a).value.regions
      && r.value.successors == BuildLists(def, a).value.successors
  {
    var lists :- BuildLists(def, a);
    var containers :- ApplyOptions(def, lists.sizes, DropNone(a.properties), DropNone(a.attributes));
    Ok(Op(lists.operands, lists.resultTypes,
          FillDefaults(def.properties, containers.0),
          FillDefaults(def.attributes, containers.1),
          lists.regions, lists.successors))
  }

  // ---------------------------------------------------------------------
  // Properties

  /** Each kind's recorded sizes fit its slots and add up to its flat
      length. */
  lemma BuildListsFit(def: OpDef, a: BuildArgs, k: Construct)
    requires BuildLists(def, a).Ok?
    ensures var l := BuildLists(def, a).value;
      SizesFit(def.Slots(k), l.sizes.Of(k)) && Sum(l.sizes.Of(k)) == l.Count(k)
  {
    match k
    case OperandKind => BuildArgListValue(k, NoneToEmpty(a.operands), def.operands);
    case ResultKind => BuildArgListValue(k, a.resultTypes, def.results);
    case RegionKind => BuildArgListValue(k, NoneToEmpty(a.regions), def.regions);
    case SuccessorKind => BuildArgListValue(k, a.successors, def.successors);
  }

  lemma {:induction false} FlattenLength<T>(args: seq<Arg<T>>)
    ensures |Flatten(args)| == Sum(Lengths(args))
    decreases |args|
  {
    if |args| > 0 {
      var n := |args| - 1;
      FlattenLength(args[..n]);
      assert Lengths(args)[..n] == Lengths(args[..n]);
    }
  }

  lemma AllEqualIsRepeat(xs: seq<int>)
    requires AllEqual(xs) && |xs| > 0
    ensures xs == Repeat(xs[0], |xs|)
  {
  }

  /** What construction leaves under a non-reserved name `n`: the value the
      caller supplied, else the default of a required entry, else nothing. */
  predicate Stored(supplied: map<string, Option<Attr>>, defs: Dict<AttrDef>, stored: map<string, Attr>, n: string) {
    if n in supplied && supplied[n].Some? then n in stored && stored[n] == supplied[n].value
    else if DefaultFor(defs, n).Some? then n in stored && stored[n] == DefaultFor(defs, n).value
    else n !in stored
  }

  /** Construction keeps every supplied entry, drops those supplied as
      `None`, and fills the defaults of absent required entries, in both
      containers; only the reserved segment-size names get anything else. */
  lemma OpInitEntries(def: OpDef, a: BuildArgs, n: string)
    requires OpInit(def, a).Ok? && n !in SegmentNames
    ensures Stored(a.properties, def.properties, OpInit(def, a).value.properties, n)
    ensures Stored(a.attributes, def.attributes, OpInit(def, a).value.attributes, n)
  {
    var lists := BuildLists(def, a).value;
    var c := ApplyOptions(def, lists.sizes, DropNone(a.properties), DropNone(a.attributes)).value;
    assert OpInit(def, a).value.properties == FillDefaults(def.properties, c.0);
    assert OpInit(def, a).value.attributes == FillDefaults(def.attributes, c.1);
  }

  /** Construction stores the recorded sizes of every kind that has a
      segment-size option, in the container the option names. */
  lemma OpInitWritesSegments(def: OpDef, a: BuildArgs, k: Construct, inProp: bool)
    requires OpInit(def, a).Ok?
    requires AttrSizedSegments(k, inProp) in def.options
    ensures var op := OpInit(def, a).value;
      var container := if inProp then op.properties else op.attributes;
      SegmentSizesName(k) in container && container[SegmentSizesName(k)] == Encode(BuildLists(def, a).value.sizes.Of(k))
  {
  }

  /** Sizes recorded for a kind with no side channel add up, with one per
      fixed slot, to the flat length. */
  lemma RecordedSizesSum(slots: seq<Slot>, sizes: seq<nat>, flatLen: nat)
    requires SizesFit(slots, sizes) && Sum(sizes) == flatLen
    ensures flatLen == |slots| - VariadicCount(slots) + Sum(VariadicEntries(slots, sizes))
  {
    SegmentSizesOfEntries(slots, sizes);
    SegmentSizesSum(slots, VariadicEntries(slots, sizes));
  }

  /** The arithmetic rules of the resolver recover recorded sizes. */
  lemma ResolveRecordedSizes(kind: Construct, slots: seq<Slot>, options: seq<IrdlOption>, sizes: seq<nat>, flatLen: nat,
                             props: map<string, Attr>, attrs: map<string, Attr>)
    requires SizesFit(slots, sizes) && Sum(sizes) == flatLen
    requires AttrSizedFor(options, kind).None?
    requires VariadicCount(slots) <= 1 || HasSameSize(options, kind)
    requires HasSameSize(options, kind) ==> AllEqual(VariadicEntries(slots, sizes))
    ensures Resolve(kind, slots, options, flatLen, props, attrs) == Ok(VariadicEntries(slots, sizes))
  {
    var ve := VariadicEntries(slots, sizes);
    var vc := VariadicCount(slots);
    RecordedSizesSum(slots, sizes, flatLen);
    if vc == 0 {
      assert ve == [];
      assert Resolve(kind, slots, options, flatLen, props, attrs) == Ok([]);
    } else if vc == 1 {
      assert ve == [ve[0]];
      assert Sum(ve) == ve[0] by {
        assert ve[..0] == [];
      }
      VariadicEntriesNonNegative(slots, sizes);
      assert ve[0] >= 0;
      assert Resolve(kind, slots, options, flatLen, props, attrs) == Ok([ve[0]]);
    } else {
      var q := ve[0];
      AllEqualIsRepeat(ve);
      SumRepeat(q, vc);
      ExactDivision(q, vc);
      assert Resolve(kind, slots, options, flatLen, props, attrs) == Ok(Repeat(q, vc));
    }
  }

  lemma {:induction false} VariadicEntriesNonNegative(slots: seq<Slot>, xs: seq<int>)
    requires |xs| == |slots|
    requires forall i :: 0 <= i < |xs| ==> xs[i] >= 0
    ensures forall i :: 0 <= i < VariadicCount(slots) ==> VariadicEntries(slots, xs)[i] >= 0
    decreases |slots|
  {
    if |slots| > 0 {
      var n := |slots| - 1;
      VariadicEntriesNonNegative(slots[..n], xs[..n]);
    }
  }

  /** The round trip of the construction path: for a kind whose
      definition passes the variadic-slot check, the sizes the resolver
      reads back from a freshly built operation are the sizes the builder
      recorded for its variadic slots. */
  lemma BuildResolveRoundTrip(def: OpDef, a: BuildArgs, k: Construct)
    requires OpInit(def, a).Ok?
    requires VariadicCount(def.Slots(k)) <= 1 || AllowsMultipleVariadics(def.options, k)
    ensures GetVariadicSizes(def, k, OpInit(def, a).value)
         == Ok(VariadicEntries(def.Slots(k), BuildLists(def, a).value.sizes.Of(k)))
  {
    var op := OpInit(def, a).value;
    var sizes := BuildLists(def, a).value.sizes.Of(k);
    BuildListsFit(def, a, k);
    match AttrSizedFor(def.options, k)
    case Some(inProp) =>
      OpInitWritesSegments(def, a, k, inProp);
      SideChannelReadsEncoded(k, def.Slots(k), def.options, sizes, op.Count(k), op.properties, op.attributes);
    case None =>
      ResolveRecordedSizes(k, def.Slots(k), def.options, sizes, op.Count(k), op.properties, op.attributes);
  }

  /** The side channel gives back the sizes that construction encoded. */
  lemma SideChannelReadsEncoded(kind: Construct, slots: seq<Slot>, options: seq<IrdlOption>, sizes: seq<nat>, flatLen: nat,
                                props: map<string, Attr>, attrs: map<string, Attr>)
    requires SizesFit(slots, sizes)
    requires AttrSizedFor(options, kind).Some?
    requires var c := if AttrSizedFor(options, kind).value then props else attrs;
      SegmentSizesName(kind) in c && c[SegmentSizesName(kind)] == Encode(sizes)
    ensures Resolve(kind, slots, options, flatLen, props, attrs) == Ok(VariadicEntries(slots, sizes))
  {
  }

  // ---------------------------------------------------------------------
  // Build, then read back

  /** Argument `i` occupies the stretch of the flat list that starts
      where the elements of the arguments before it end. */
  lemma {:induction false} FlattenPiece<T>(args: seq<Arg<T>>, i: nat) returns (start: nat)
    requires i < |args|
    ensures start == |Flatten(args[..i])|
    ensures start + |Piece(args[i])| <= |Flatten(args)|
    ensures forall j :: 0 <= j < |Piece(args[i])| ==> Flatten(args)[start + j] == Piece(args[i])[j]
    decreases |args|
  {
    var n := |args| - 1;
    var front := Flatten(args[..n]);
    assert Flatten(args) == front + Piece(args[n]);
    if i == n {
      start := |front|;
    } else {
      start := FlattenPiece(args[..n], i);
      assert args[..n][..i] == args[..i] && args[..n][i] == args[i];
      forall j | 0 <= j < |Piece(args[i])| ensures Flatten(args)[start + j] == Piece(args[i])[j] {
        assert Flatten(args)[start + j] == front[start + j];
      }
    }
  }

  /** The sizes before argument `i` add up to where its elements start. */
  lemma PrefixLengths<T>(args: seq<Arg<T>>, i: nat)
    requires i <= |args|
    ensures Sum(Lengths(args)[..i]) == |Flatten(args[..i])|
  {
    FlattenLength(args[..i]);
    assert Lengths(args)[..i] == Lengths(args[..i]);
  }

  /** What the accessor of a slot returns for the argument it was built
      from: the single value, the possibly absent value of an optional
      slot, or the whole sequence of a variadic slot. */
  function Expected<T>(card: Card, a: Arg<T>): Got<T> {
    match card
    case Single => if a.Scalar? then One(a.value) else Nothing
    case Optional => if |Piece(a)| == 0 then Nothing else One(Piece(a)[0])
    case Variadic => Many(Piece(a))
  }

  /** Reading slot `idx` of a freshly built flat list with the recorded
      sizes gives back exactly the argument of that slot. */
  lemma BuildThenAccess<T>(kind: Construct, args: seq<Arg<T>>, slots: seq<Slot>, idx: nat,
                           flat: seq<T>, lens: seq<nat>)
    requires BuildArgList(kind, args, slots) == Ok((flat, lens))
    requires idx < |slots|
    ensures SlotAt(kind, slots, VariadicEntries(slots, lens), flat, idx) == Ok(Expected(slots[idx].card, args[idx]))
  {
    var start, ve := BuiltLayout(kind, args, slots, idx, flat, lens);
    ReadBuiltSegment(kind, slots, ve, lens, flat, idx, start, Piece(args[idx]));
    ExpectedOfPiece(slots[idx].card, args[idx]);
  }

  /** `Expected` in terms of the elements an admissible argument adds. */
  lemma ExpectedOfPiece<T>(card: Card, a: Arg<T>)
    requires Fits(card, a)
    ensures card == Single ==> |Piece(a)| == 1 && Expected(card, a) == One(Piece(a)[0])
    ensures card == Optional ==> Expected(card, a) == (if |Piece(a)| == 0 then Nothing else One(Piece(a)[0]))
    ensures card == Variadic ==> Expected(card, a) == Many(Piece(a))
  {
  }

  /** The facts `BuildThenAccess` needs about a built list, gathered. */
  lemma BuiltLayout<T>(kind: Construct, args: seq<Arg<T>>, slots: seq<Slot>, idx: nat,
                       flat: seq<T>, lens: seq<nat>) returns (start: nat, ve: seq<int>)
    requires BuildArgList(kind, args, slots) == Ok((flat, lens))
    requires idx < |slots|
    ensures ve == VariadicEntries(slots, lens)
    ensures |ve| == VariadicCount(slots)
    ensures forall i :: 0 <= i < |ve| ==> ve[i] >= 0
    ensures SegmentSizes(slots, ve) == lens
    ensures Sum(lens) == |flat| && Sum(lens[..idx]) == start && lens[idx] == |Piece(args[idx])|
    ensures start + |Piece(args[idx])| <= |flat|
    ensures forall j :: 0 <= j < |Piece(args[idx])| ==> flat[start + j] == Piece(args[idx])[j]
    ensures Fits(slots[idx].card, args[idx])
  {
    BuildArgListValue(kind, args, slots);
    start := FlattenPiece(args, idx);
    PrefixLengths(args, idx);
    ve := RecordedEntries(slots, lens);
  }

  /** The variadic entries of recorded sizes expand back to them. */
  lemma RecordedEntries(slots: seq<Slot>, lens: seq<nat>) returns (ve: seq<int>)
    requires SizesFit(slots, lens)
    ensures ve == VariadicEntries(slots, lens)
    ensures |ve| == VariadicCount(slots)
    ensures forall i :: 0 <= i < |ve| ==> ve[i] >= 0
    ensures SegmentSizes(slots, ve) == lens
  {
    ve := VariadicEntries(slots, lens);
    SegmentSizesOfEntries(slots, lens);
    VariadicEntriesNonNegative(slots, lens);
  }

  /** Slot `idx` of the layout described by `sizes` covers the elements of
      `flat` from `start`, and those elements are `piece`. */
  ghost predicate HoldsPiece<T>(slots: seq<Slot>, sizes: seq<int>, lens: seq<nat>, flat: seq<T>,
                          idx: nat, start: nat, piece: seq<T>)
  {
    && idx < |slots|
    && |sizes| == VariadicCount(slots)
    && (forall i :: 0 <= i < |sizes| ==> sizes[i] >= 0)
    && SegmentSizes(slots, sizes) == lens
    && idx <= |lens| && Sum(lens[..idx]) == start && idx < |lens| && lens[idx] == |piece|
    && start + |piece| <= |flat|
    && (forall j :: 0 <= j < |piece| ==> flat[start + j] == piece[j])
  }

  /** The reading half of `BuildThenAccess`: once the segment of slot
      `idx` is known to hold `piece`, the accessor returns it. */
  lemma ReadBuiltSegment<T>(kind: Construct, slots: seq<Slot>, sizes: seq<int>, lens: seq<nat>, flat: seq<T>,
                             idx: nat, start: nat, piece: seq<T>)
    requires HoldsPiece(slots, sizes, lens, flat, idx, start, piece)
    ensures slots[idx].card == Single ==> |piece| == 1 && SlotAt(kind, slots, sizes, flat, idx) == Ok(One(piece[0]))
    ensures slots[idx].card == Optional ==>
      SlotAt(kind, slots, sizes, flat, idx) == Ok(if |piece| == 0 then Nothing else One(piece[0]))
    ensures slots[idx].card == Variadic ==> SlotAt(kind, slots, sizes, flat, idx) == Ok(Many(piece))
  {
    StartOffsetIsPrefixSum(slots, sizes, idx);
    match slots[idx].card
    case Single => ReadBuiltSingle(kind, slots, sizes, lens, flat, idx, start, piece);
    case Optional => ReadBuiltOptional(kind, slots, sizes, lens, flat, idx, start, piece);
    case Variadic => ReadBuiltVariadic(kind, slots, sizes, lens, flat, idx, start, piece);
  }

  lemma ReadBuiltSingle<T>(kind: Construct, slots: seq<Slot>, sizes: seq<int>, lens: seq<nat>, flat: seq<T>,
                           idx: nat, start: nat, piece: seq<T>)
    requires HoldsPiece(slots, sizes, lens, flat, idx, start, piece)
    requires slots[idx].card == Single
    requires StartOffset(idx, PreviousVariadics(slots, idx), sizes) == start
    ensures |piece| == 1 && SlotAt(kind, slots, sizes, flat, idx) == Ok(One(piece[0]))
  {
    SegmentSizeOfFixed(slots, sizes, idx);
    ReadSingle(kind, slots, sizes, flat, idx, start);
    assert flat[start + 0] == piece[0];
  }

  lemma ReadBuiltOptional<T>(kind: Construct, slots: seq<Slot>, sizes: seq<int>, lens: seq<nat>, flat: seq<T>,
                             idx: nat, start: nat, piece: seq<T>)
    requires HoldsPiece(slots, sizes, lens, flat, idx, start, piece)
    requires slots[idx].card == Optional
    requires StartOffset(idx, PreviousVariadics(slots, idx), sizes) == start
    ensures SlotAt(kind, slots, sizes, flat, idx) == Ok(if |piece| == 0 then Nothing else One(piece[0]))
  {
    SegmentSizeOfVariadic(slots, sizes, idx);
    ReadOptional(kind, slots, sizes, flat, idx, start, |piece|);
    if |piece| != 0 {
      assert flat[start + 0] == piece[0];
    }
  }

  lemma ReadBuiltVariadic<T>(kind: Construct, slots: seq<Slot>, sizes: seq<int>, lens: seq<nat>, flat: seq<T>,
                             idx: nat, start: nat, piece: seq<T>)
    requires HoldsPiece(slots, sizes, lens, flat, idx, start, piece)
    requires slots[idx].card == Variadic
    requires StartOffset(idx, PreviousVariadics(slots, idx), sizes) == start
    ensures SlotAt(kind, slots, sizes, flat, idx) == Ok(Many(piece))
  {
    SegmentSizeOfVariadic(slots, sizes, idx);
    ReadVariadic(kind, slots, sizes, flat, idx, start, |piece|);
    assert flat[start..start + |piece|] == piece;
  }

  /** On a built operation, the operand accessor of every slot returns
      the operands that were passed for it (with `None` read as an empty
      sequence), provided the definition passes the variadic-slot check. */
  lemma OpInitThenGetOperand(def: OpDef, a: BuildArgs, idx: nat)
    requires OpInit(def, a).Ok?
    requires VariadicCount(def.operands) <= 1 || AllowsMultipleVariadics(def.options, OperandKind)
    requires idx < |def.operands|
    ensures var op := OpInit(def, a).value;
      GetSlot(def, OperandKind, op, op.operands, idx) == Ok(Expected(def.operands[idx].card, NoneToEmpty(a.operands)[idx]))
  {
    BuildResolveRoundTrip(def, a, OperandKind);
    var built := BuildArgList(OperandKind, NoneToEmpty(a.operands), def.operands).value;
    BuildThenAccess(OperandKind, NoneToEmpty(a.operands), def.operands, idx, built.0, built.1);
  }
}
