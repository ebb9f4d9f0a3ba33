/**
  The data model of the operation-schema framework: slot definitions,
  attribute/property definitions, options, the per-kind operation
  definition (`OpDef`), and the flat concrete operation it describes.
 */
module Schema {
  import opened Wrappers

  /** Cardinality of a slot.  In the source an optional definition is a
      subclass of the variadic one, so `IsVariadic` holds for both. */
  datatype Card = Single | Optional | Variadic {
    /** `isinstance(def, VariadicDef)` */
    predicate IsVariadic() {
      this != Single
    }

    /** `isinstance(def, OptionalDef)` */
    predicate IsOptional() {
      this == Optional
    }
  }

  /** The four kinds of IR construct that have slots (`VarIRConstruct`). */
  datatype Construct = OperandKind | ResultKind | RegionKind | SuccessorKind

  /** A constraint from the constraint subsystem, known only by name. */
  datatype Constr = Constr(name: string)

  datatype IntType = I16 | I32 | I64

  /** An attribute value: a dense integer array (the only kind the core
      inspects) or any other attribute, known only by name. */
  datatype Attr = DenseArray(elt: IntType, values: seq<int>) | Opaque(name: string)

  datatype Trait = Trait(name: string)

  /** An operand, result, region or successor definition.  `constr` is the
      element constraint (for a region: the entry-block argument
      constraint); `singleBlock` is only meaningful for regions. */
  datatype Slot = Slot(name: string, card: Card, constr: Constr, singleBlock: bool)

  /** An attribute or property definition (`AttrOrPropDef` and its
      `Opt...` subclasses). */
  datatype AttrDef = AttrDef(optional: bool, constr: Constr, default: Option<Attr>)

  /** The options an operation definition may carry (`IRDLOption`). */
  datatype IrdlOption =
    | AttrSizedSegments(kind: Construct, asProperty: bool)
    | SameVariadicSize(kind: Construct)
    | ParsePropInAttrDict

  datatype Container = AttributeContainer | PropertyContainer

  /** An insertion-ordered dictionary, as Python's `dict`. */
  type Dict<V> = seq<(string, V)>

  /** The immutable per-kind definition (`OpDef`). */
  datatype OpDef = OpDef(
    name: string,
    operands: seq<Slot>,
    results: seq<Slot>,
    regions: seq<Slot>,
    successors: seq<Slot>,
    properties: Dict<AttrDef>,
    attributes: Dict<AttrDef>,
    options: seq<IrdlOption>,
    traits: seq<Trait>,
    accessorNames: map<string, (string, Container)>,
    assemblyFormat: Option<string>)
  {
    /** `get_construct_defs` */
    function Slots(k: Construct): seq<Slot> {
      match k
      case OperandKind => operands
      case ResultKind => results
      case RegionKind => regions
      case SuccessorKind => successors
    }
  }

  /** An SSA value: its identity and its type. */
  datatype Value = Value(id: nat, ty: Attr)

  datatype Block = Block(argTypes: seq<Attr>)

  datatype Region = Region(blocks: seq<Block>)

  /** A concrete operation: flat construct lists plus attribute and
      property maps.  It carries no slot metadata of its own. */
  datatype Op = Op(
    operands: seq<Value>,
    resultTypes: seq<Attr>,
    properties: map<string, Attr>,
    attributes: map<string, Attr>,
    regions: seq<Region>,
    successors: seq<nat>)
  {
    /** `len(get_op_constructs(op, k))` */
    function Count(k: Construct): nat {
      match k
      case OperandKind => |operands|
      case ResultKind => |resultTypes|
      case RegionKind => |regions|
      case SuccessorKind => |successors|
    }
  }

  /** Why checking or reading an operation against its definition fails.
      Most are the source's `VerifyException`s; `IndexOutOfRange` is the
      `IndexError` and `MissingSameSizeOption` the internal `assert` that
      the source raises instead. */
  datatype VerifyError =
    // variadic size resolution
    | MissingSegmentSizes(name: string, inProperty: bool)
    | SegmentSizesNotI32(name: string, inProperty: bool)
    | SegmentCountMismatch(expected: nat, got: nat)
    | OptionalSegmentTooLarge(kind: Construct, slot: string, size: int)
    | FixedSegmentNotOne(kind: Construct, slot: string, size: int)
    | ArityMismatch(kind: Construct, expected: nat, got: nat)
    | TooFewForVariadic(kind: Construct, atLeast: int)
    | SameSizeIndivisible(kind: Construct, variadicArgs: int, variadicSlots: nat)
    | MissingSameSizeOption(kind: Construct)
    // reading a slot
    | IndexOutOfRange(kind: Construct, index: int)
    // per-slot checks
    | SlotConstraintFailed(kind: Construct, position: nat)
    | RegionNotSingleBlock(slot: string, position: nat, blocks: nat)
    | EntryArgsFailed(position: nat)
    // attributes, properties, traits
    | MissingProperty(name: string)
    | PropertyConstraintFailed(name: string)
    | UndeclaredProperty
    | MissingAttribute(name: string)
    | AttributeConstraintFailed(name: string)
    | TraitFailed(failing: Trait)
    // operation-specific verifiers
    | CustomCheckFailed(message: string)

  /** The reserved attribute/property name of the segment-size option. */
  function SegmentSizesName(k: Construct): string {
    match k
    case OperandKind => "operandSegmentSizes"
    case ResultKind => "resultSegmentSizes"
    case RegionKind => "regionSegmentSizes"
    case SuccessorKind => "successorSegmentSizes"
  }

  // ---------------------------------------------------------------------
  // Ordered dictionaries

  function Lookup<V>(d: Dict<V>, k: string): Option<V> {
    if |d| == 0 then None
    else if d[0].0 == k then Some(d[0].1)
    else Lookup(d[1..], k)
  }

  function Keys<V>(d: Dict<V>): set<string> {
    if |d| == 0 then {} else {d[0].0} + Keys(d[1..])
  }

  /** `d[k] = v`: replaces the value of an existing key in place, or
      appends a new key at the end. */
  function Put<V>(d: Dict<V>, k: string, v: V): (r: Dict<V>)
    ensures Lookup(r, k) == Some(v)
    ensures forall j :: j != k ==> Lookup(r, j) == Lookup(d, j)
    ensures Keys(r) == Keys(d) + {k}
  {
    if |d| == 0 then [(k, v)]
    else if d[0].0 == k then
      assert ([(k, v)] + d[1..])[1..] == d[1..];
      [(k, v)] + d[1..]
    else
      var rest := Put(d[1..], k, v);
      assert ([d[0]] + rest)[1..] == rest;
      [d[0]] + rest
  }

  /** `d[k] = v` for a new key appends it. */
  lemma {:induction false} PutFresh<V>(d: Dict<V>, k: string, v: V)
    requires k !in Keys(d)
    ensures Put(d, k, v) == d + [(k, v)]
    decreases |d|
  {
    if |d| > 0 {
      PutFresh(d[1..], k, v);
      assert [d[0]] + (d[1..] + [(k, v)]) == d + [(k, v)];
    }
  }

  lemma {:induction false} LookupKeys<V>(d: Dict<V>, k: string)
    ensures Lookup(d, k).Some? <==> k in Keys(d)
    decreases |d|
  {
    if |d| > 0 {
      LookupKeys(d[1..], k);
    }
  }

  /** The keys are exactly the first components of the pairs. */
  lemma {:induction false} KeysIndex<V>(d: Dict<V>, k: string)
    ensures k in Keys(d) <==> exists i :: 0 <= i < |d| && d[i].0 == k
    decreases |d|
  {
    if |d| > 0 {
      KeysIndex(d[1..], k);
      if k in Keys(d[1..]) {
        var i :| 0 <= i < |d[1..]| && d[1..][i].0 == k;
        assert d[i + 1].0 == k;
      }
      if exists i :: 0 <= i < |d| && d[i].0 == k {
        var i :| 0 <= i < |d| && d[i].0 == k;
        if i > 0 {
          assert d[1..][i - 1].0 == k;
        }
      }
    }
  }

  /** Lookup finds the first pair with the key. */
  lemma {:induction false} LookupFirst<V>(d: Dict<V>, k: string, i: nat)
    requires i <= |d| && forall j :: 0 <= j < i ==> d[j].0 != k
    ensures Lookup(d, k) == if i == |d| then None else if d[i].0 == k then Some(d[i].1) else Lookup(d[i + 1..], k)
    decreases i
  {
    if i > 0 {
      LookupFirst(d[1..], k, i - 1);
      if i < |d| {
        assert d[1..][i..] == d[i + 1..];
      }
    } else if i < |d| {
      assert d[1..] == d[i + 1..];
    }
  }

  /** A key the front of a dictionary lacks is looked up in its back. */
  lemma {:induction false} LookupAppend<V>(a: Dict<V>, b: Dict<V>, k: string)
    requires k !in Keys(a)
    ensures Lookup(a + b, k) == Lookup(b, k)
    decreases |a|
  {
    if |a| == 0 {
      assert a + b == b;
    } else {
      assert (a + b)[1..] == a[1..] + b;
      LookupAppend(a[1..], b, k);
    }
  }

  /** A key found in the dictionary sits at an index holding the value found. */
  lemma {:induction false} LookupIndex<V>(d: Dict<V>, k: string) returns (i: nat)
    requires Lookup(d, k).Some?
    ensures i < |d| && d[i] == (k, Lookup(d, k).value)
    decreases |d|
  {
    if d[0].0 == k {
      i := 0;
    } else {
      var j := LookupIndex(d[1..], k);
      i := j + 1;
    }
  }

  // ---------------------------------------------------------------------
  // Options

  /** The first `AttrSizedSegments` option for kind `k`, as its
      `as_property` flag (`next(o for o in options if isinstance(...))`). */
  function AttrSizedFor(options: seq<IrdlOption>, k: Construct): (r: Option<bool>)
    ensures r.Some? <==> exists i :: 0 <= i < |options| && options[i].AttrSizedSegments? && options[i].kind == k
    ensures r.Some? ==> AttrSizedSegments(k, r.value) in options
  {
    if |options| == 0 then None
    else if options[0].AttrSizedSegments? && options[0].kind == k then Some(options[0].asProperty)
    else
      var r := AttrSizedFor(options[1..], k);
      assert forall i :: 0 < i < |options| ==> options[i] == options[1..][i - 1];
      r
  }

  predicate HasSameSize(options: seq<IrdlOption>, k: Construct) {
    SameVariadicSize(k) in options
  }

  /** Whether the options allow more than one variadic slot of kind `k`
      (`get_multiple_variadic_options`). */
  predicate AllowsMultipleVariadics(options: seq<IrdlOption>, k: Construct) {
    HasSameSize(options, k) || AttrSizedFor(options, k).Some?
  }

  // ---------------------------------------------------------------------
  // Slot bookkeeping

  /** Number of variadic (including optional) slots. */
  function VariadicCount(slots: seq<Slot>): (r: nat)
    ensures r <= |slots|
  {
    if |slots| == 0 then 0
    else VariadicCount(slots[..|slots| - 1]) + (if slots[|slots| - 1].card.IsVariadic() then 1 else 0)
  }

  /** The entries of a per-slot list that belong to variadic slots, in
      declaration order. */
  function VariadicEntries(slots: seq<Slot>, xs: seq<int>): (r: seq<int>)
    requires |xs| == |slots|
    ensures |r| == VariadicCount(slots)
  {
    if |slots| == 0 then []
    else
      var n := |slots| - 1;
      VariadicEntries(slots[..n], xs[..n]) + (if slots[n].card.IsVariadic() then [xs[n]] else [])
  }

  /** Per-slot element counts, given the sizes of the variadic slots:
      one for a non-variadic slot, the next variadic size otherwise. */
  function SegmentSizes(slots: seq<Slot>, varSizes: seq<int>): (r: seq<int>)
    requires |varSizes| == VariadicCount(slots)
    ensures |r| == |slots|
  {
    if |slots| == 0 then []
    else
      var n := |slots| - 1;
      if slots[n].card.IsVariadic() then
        SegmentSizes(slots[..n], varSizes[..|varSizes| - 1]) + [varSizes[|varSizes| - 1]]
      else
        SegmentSizes(slots[..n], varSizes) + [1]
  }

  lemma {:induction false} VariadicCountFront(slots: seq<Slot>)
    requires |slots| > 0
    ensures VariadicCount(slots) == (if slots[0].card.IsVariadic() then 1 else 0) + VariadicCount(slots[1..])
    decreases |slots|
  {
    var n := |slots| - 1;
    if n > 0 {
      VariadicCountFront(slots[..n]);
      assert slots[..n][1..] == slots[1..][..n - 1];
    }
  }

  lemma {:induction false} VariadicEntriesFront(slots: seq<Slot>, xs: seq<int>)
    requires |xs| == |slots| > 0
    ensures VariadicEntries(slots, xs)
         == (if slots[0].card.IsVariadic() then [xs[0]] else []) + VariadicEntries(slots[1..], xs[1..])
    decreases |slots|
  {
    var n := |slots| - 1;
    if n > 0 {
      VariadicEntriesFront(slots[..n], xs[..n]);
      assert slots[..n][1..] == slots[1..][..n - 1];
      assert xs[..n][1..] == xs[1..][..n - 1];
    }
  }

  /** Re-expanding the variadic entries of a per-slot list whose fixed
      entries are one gives back the list. */
  lemma {:induction false} SegmentSizesOfEntries(slots: seq<Slot>, xs: seq<int>)
    requires |xs| == |slots|
    requires forall i :: 0 <= i < |slots| && !slots[i].card.IsVariadic() ==> xs[i] == 1
    ensures SegmentSizes(slots, VariadicEntries(slots, xs)) == xs
    decreases |slots|
  {
    if |slots| > 0 {
      var n := |slots| - 1;
      assert forall i :: 0 <= i < n ==> slots[..n][i] == slots[i] && xs[..n][i] == xs[i];
      SegmentSizesOfEntries(slots[..n], xs[..n]);
      SegmentSizesOfEntriesStep(slots, xs);
    }
  }

  /** The inductive step of `SegmentSizesOfEntries`, on the last slot. */
  lemma SegmentSizesOfEntriesStep(slots: seq<Slot>, xs: seq<int>)
    requires |xs| == |slots| > 0
    requires !slots[|slots| - 1].card.IsVariadic() ==> xs[|slots| - 1] == 1
    requires SegmentSizes(slots[..|slots| - 1], VariadicEntries(slots[..|slots| - 1], xs[..|slots| - 1])) == xs[..|slots| - 1]
    ensures SegmentSizes(slots, VariadicEntries(slots, xs)) == xs
  {
    if slots[|slots| - 1].card.IsVariadic() {
      StepVariadic(slots, xs);
    } else {
      StepFixed(slots, xs);
    }
  }

  lemma StepVariadic(slots: seq<Slot>, xs: seq<int>)
    requires |xs| == |slots| > 0
    requires slots[|slots| - 1].card.IsVariadic()
    requires SegmentSizes(slots[..|slots| - 1], VariadicEntries(slots[..|slots| - 1], xs[..|slots| - 1])) == xs[..|slots| - 1]
    ensures SegmentSizes(slots, VariadicEntries(slots, xs)) == xs
  {
    var n := |slots| - 1;
    var pre := VariadicEntries(slots[..n], xs[..n]);
    var ve := pre + [xs[n]];
    assert VariadicEntries(slots, xs) == ve;
    SegmentSizesLast(slots, ve);
    assert ve[..|ve| - 1] == pre;
    Snoc(xs);
  }

  lemma StepFixed(slots: seq<Slot>, xs: seq<int>)
    requires |xs| == |slots| > 0
    requires !slots[|slots| - 1].card.IsVariadic() && xs[|slots| - 1] == 1
    requires SegmentSizes(slots[..|slots| - 1], VariadicEntries(slots[..|slots| - 1], xs[..|slots| - 1])) == xs[..|slots| - 1]
    ensures SegmentSizes(slots, VariadicEntries(slots, xs)) == xs
  {
    var n := |slots| - 1;
    var pre := VariadicEntries(slots[..n], xs[..n]);
    assert VariadicEntries(slots, xs) == pre;
    SegmentSizesLast(slots, pre);
    Snoc(xs);
  }

  lemma SegmentSizesLast(slots: seq<Slot>, vs: seq<int>)
    requires |slots| > 0 && |vs| == VariadicCount(slots)
    ensures var n := |slots| - 1;
      slots[n].card.IsVariadic() ==> |vs| > 0 && SegmentSizes(slots, vs) == SegmentSizes(slots[..n], vs[..|vs| - 1]) + [vs[|vs| - 1]]
    ensures var n := |slots| - 1;
      !slots[n].card.IsVariadic() ==> SegmentSizes(slots, vs) == SegmentSizes(slots[..n], vs) + [1]
  {
  }

  lemma Snoc<T>(xs: seq<T>)
    requires |xs| > 0
    ensures xs == xs[..|xs| - 1] + [xs[|xs| - 1]]
  {
  }
}
