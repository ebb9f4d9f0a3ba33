/**
  A reference definition of the field loop of `OpDef.from_pyrdl` for class
  hierarchies in which no field shadows another: the definition then
  lists every declaration in visiting order (most-derived class first),
  each property or attribute under its IR name, and every segment-size
  option's reserved entry where the option appears.  The loop is stated
  front to back here, so that it can be read off a concrete class body.
 */
module Unshadowed {
  import opened Wrappers
  import opened Schema
  import opened Definition

  /** The field loop from builder `b`, visiting `fields` front to back. */
  function Run(b: Builder, fields: seq<Decl>): Result<Builder, DefineError>
    decreases |fields|
  {
    if |fields| == 0 then Ok(b)
    else
      match AddField(b, fields[0])
      case Err(e) => Err(e)
      case Ok(b') => Run(b', fields[1..])
  }

  // ---------------------------------------------------------------------
  // What each field contributes

  /** Whether a field takes its name in `field_names`. */
  predicate Declares(d: Decl) {
    d.SlotField? || d.EntryField? || d.TraitsField?
  }

  /** The IR name an entry field is stored under. */
  function Key(d: Decl): string
    requires d.EntryField?
  {
    d.irName.GetOr(d.name)
  }

  /** The names the fields take. */
  function NamesOf(fields: seq<Decl>): set<string>
    decreases |fields|
  {
    if |fields| == 0 then {}
    else (if Declares(fields[0]) then {fields[0].FieldName()} else {}) + NamesOf(fields[1..])
  }

  /** The slots of kind `k` the fields declare, in order. */
  function SlotsOf(fields: seq<Decl>, k: Construct): seq<Slot>
    decreases |fields|
  {
    if |fields| == 0 then []
    else
      var x := fields[0];
      (if x.SlotField? && x.kind == k then [Slot(x.name, x.card, x.constr, x.singleBlock)] else [])
      + SlotsOf(fields[1..], k)
  }

  /** The reserved entries the segment-size options of `opts` register in
      the property (`asProperty`) or attribute table. */
  function SegmentEntries(opts: seq<IrdlOption>, asProperty: bool): Dict<AttrDef>
    decreases |opts|
  {
    if |opts| == 0 then []
    else
      SegmentEntries(opts[..|opts| - 1], asProperty) + OwnEntry(opts[|opts| - 1], asProperty)
  }

  /** The property (`asProperty`) or attribute entries the fields
      register, in order. */
  function EntriesOf(fields: seq<Decl>, asProperty: bool): Dict<AttrDef>
    decreases |fields|
  {
    if |fields| == 0 then []
    else
      var x := fields[0];
      (if x.EntryField? && (x.container == PropertyContainer) == asProperty then [(Key(x), x.entry)]
       else if x.OptionsField? then SegmentEntries(x.options, asProperty)
       else [])
      + EntriesOf(fields[1..], asProperty)
  }

  function OptionsIn(fields: seq<Decl>): seq<IrdlOption>
    decreases |fields|
  {
    if |fields| == 0 then []
    else (if fields[0].OptionsField? then fields[0].options else []) + OptionsIn(fields[1..])
  }

  function AccessorsOf(fields: seq<Decl>): map<string, (string, Container)>
    decreases |fields|
  {
    if |fields| == 0 then map[]
    else
      var x := fields[0];
      (if x.EntryField? then map[x.name := (Key(x), x.container)] else map[]) + AccessorsOf(fields[1..])
  }

  /** The traits of the first traits field, if any. */
  function TraitsIn(fields: seq<Decl>): Option<seq<Trait>>
    decreases |fields|
  {
    if |fields| == 0 then None
    else if fields[0].TraitsField? then Some(fields[0].traits)
    else TraitsIn(fields[1..])
  }

  /** No two segment-size options of the list register the same entry. */
  predicate NoClash(opts: seq<IrdlOption>)
    decreases |opts|
  {
    |opts| == 0 ||
    var o := opts[|opts| - 1];
    && NoClash(opts[..|opts| - 1])
    && (o.AttrSizedSegments? ==> SegmentSizesName(o.kind) !in Keys(SegmentEntries(opts[..|opts| - 1], o.asProperty)))
  }

  /** No field shadows a later one: names, and the keys of each table,
      are taken at most once. */
  predicate Plain(fields: seq<Decl>)
    decreases |fields|
  {
    |fields| == 0 ||
    var x, rest := fields[0], fields[1..];
    && Plain(rest)
    && (Declares(x) ==> x.FieldName() !in NamesOf(rest) && x.FieldName() != "irdl_options")
    && (x.EntryField? ==> Key(x) !in Keys(EntriesOf(rest, x.container == PropertyContainer)))
    && (x.OptionsField? ==>
         && NoClash(x.options)
         && Keys(SegmentEntries(x.options, true)) !! Keys(EntriesOf(rest, true))
         && Keys(SegmentEntries(x.options, false)) !! Keys(EntriesOf(rest, false)))
  }

  /** Nothing the fields take is taken in `b` already. */
  predicate Fresh(b: Builder, fields: seq<Decl>) {
    && "irdl_options" !in b.seen
    && NamesOf(fields) !! b.seen
    && Keys(EntriesOf(fields, true)) !! Keys(b.def.properties)
    && Keys(EntriesOf(fields, false)) !! Keys(b.def.attributes)
  }

  /** The builder after an unshadowed field list: every contribution
      appended in order. */
  function Closed(b: Builder, fields: seq<Decl>): Builder {
    var d := b.def;
    Builder(
      d.(operands := d.operands + SlotsOf(fields, OperandKind),
         results := d.results + SlotsOf(fields, ResultKind),
         regions := d.regions + SlotsOf(fields, RegionKind),
         successors := d.successors + SlotsOf(fields, SuccessorKind),
         properties := d.properties + EntriesOf(fields, true),
         attributes := d.attributes + EntriesOf(fields, false),
         options := d.options + OptionsIn(fields),
         traits := TraitsIn(fields).GetOr(d.traits),
         accessorNames := d.accessorNames + AccessorsOf(fields)),
      b.seen + NamesOf(fields))
  }

  // ---------------------------------------------------------------------
  // Properties

  lemma {:induction false} KeysAppend<V>(a: Dict<V>, c: Dict<V>)
    ensures Keys(a + c) == Keys(a) + Keys(c)
    decreases |a|
  {
    if |a| == 0 {
      assert a + c == c;
    } else {
      assert (a + c)[1..] == a[1..] + c;
      KeysAppend(a[1..], c);
    }
  }

  /** Fresh segment-size options register their entries at the end of
      their tables. */
  lemma {:induction false} AddOptionsFresh(def: OpDef, opts: seq<IrdlOption>)
    requires NoClash(opts)
    requires Keys(SegmentEntries(opts, true)) !! Keys(def.properties)
    requires Keys(SegmentEntries(opts, false)) !! Keys(def.attributes)
    ensures AddOptions(def, opts) == Ok(def.(options := def.options + opts,
      properties := def.properties + SegmentEntries(opts, true),
      attributes := def.attributes + SegmentEntries(opts, false)))
    decreases |opts|
  {
    if |opts| == 0 {
      assert def.options + opts == def.options;
      assert def.properties + SegmentEntries(opts, true) == def.properties;
      assert def.attributes + SegmentEntries(opts, false) == def.attributes;
    } else {
      var front, o := opts[..|opts| - 1], opts[|opts| - 1];
      KeysAppend(SegmentEntries(front, true), OwnEntry(o, true));
      KeysAppend(SegmentEntries(front, false), OwnEntry(o, false));
      AddOptionsFresh(def, front);
      var d := def.(options := def.options + front,
        properties := def.properties + SegmentEntries(front, true),
        attributes := def.attributes + SegmentEntries(front, false));
      LastOptionFresh(def, front, o);
      AddOneFresh(d, o);
      SnocOption(def, opts);
    }
  }

  /** The last option's reserved entry is not yet taken when it is
      added. */
  lemma LastOptionFresh(def: OpDef, front: seq<IrdlOption>, o: IrdlOption)
    requires o.AttrSizedSegments? ==> SegmentSizesName(o.kind) !in Keys(SegmentEntries(front, o.asProperty))
    requires Keys(OwnEntry(o, true)) !! Keys(def.properties)
    requires Keys(OwnEntry(o, false)) !! Keys(def.attributes)
    ensures var d := def.(properties := def.properties + SegmentEntries(front, true),
        attributes := def.attributes + SegmentEntries(front, false));
      o.AttrSizedSegments? ==> SegmentSizesName(o.kind) !in Keys(EntriesIn(d, o.asProperty))
  {
    if o.AttrSizedSegments? {
      var name := SegmentSizesName(o.kind);
      assert name in Keys(OwnEntry(o, o.asProperty));
      KeysAppend(def.properties, SegmentEntries(front, true));
      KeysAppend(def.attributes, SegmentEntries(front, false));
    }
  }

  /** The loop over a non-empty options list ends with its last option. */
  lemma SnocOption(def: OpDef, opts: seq<IrdlOption>)
    requires |opts| > 0
    ensures var front, o := opts[..|opts| - 1], opts[|opts| - 1];
      && AddOptions(def, opts) == (match AddOptions(def, front) case Ok(d) => AddOption(d, o) case Err(e) => Err(e))
      && def.options + front + [o] == def.options + opts
      && def.properties + SegmentEntries(front, true) + OwnEntry(o, true) == def.properties + SegmentEntries(opts, true)
      && def.attributes + SegmentEntries(front, false) + OwnEntry(o, false) == def.attributes + SegmentEntries(opts, false)
  {
    assert opts[..|opts| - 1] + [opts[|opts| - 1]] == opts;
  }

  /** The reserved entry option `o` registers in one table, if any. */
  function OwnEntry(o: IrdlOption, asProperty: bool): Dict<AttrDef> {
    if o.AttrSizedSegments? && o.asProperty == asProperty then [(SegmentSizesName(o.kind), SegmentEntry)] else []
  }

  /** One fresh option appends itself and its reserved entry. */
  lemma AddOneFresh(d: OpDef, o: IrdlOption)
    requires o.AttrSizedSegments? ==> SegmentSizesName(o.kind) !in Keys(EntriesIn(d, o.asProperty))
    ensures AddOption(d, o) == Ok(d.(options := d.options + [o],
      properties := d.properties + OwnEntry(o, true), attributes := d.attributes + OwnEntry(o, false)))
  {
    assert d.properties + [] == d.properties && d.attributes + [] == d.attributes;
    if o.AttrSizedSegments? {
      var name := SegmentSizesName(o.kind);
      LookupKeys(EntriesIn(d, o.asProperty), name);
      if o.asProperty {
        PutFresh(d.properties, name, SegmentEntry);
      } else {
        PutFresh(d.attributes, name, SegmentEntry);
      }
    }
  }

  /** The contributions of a one-field list. */
  lemma OneField(x: Decl, asProperty: bool, k: Construct)
    ensures NamesOf([x]) == (if Declares(x) then {x.FieldName()} else {})
    ensures SlotsOf([x], k) == (if x.SlotField? && x.kind == k then [Slot(x.name, x.card, x.constr, x.singleBlock)] else [])
    ensures EntriesOf([x], asProperty) ==
      (if x.EntryField? && (x.container == PropertyContainer) == asProperty then [(Key(x), x.entry)]
       else if x.OptionsField? then SegmentEntries(x.options, asProperty)
       else [])
    ensures OptionsIn([x]) == (if x.OptionsField? then x.options else [])
    ensures AccessorsOf([x]) == (if x.EntryField? then map[x.name := (Key(x), x.container)] else map[])
    ensures TraitsIn([x]) == (if x.TraitsField? then Some(x.traits) else None)
  {
    assert [x][1..] == [];
  }

  /** A field that contributes nothing leaves the builder as it is. */
  lemma ClosedNothing(b: Builder, x: Decl)
    requires x.Ignored?
    ensures Closed(b, [x]) == b
  {
    var d := b.def;
    forall k ensures SlotsOf([x], k) == [] {
      OneField(x, true, k);
    }
    OneField(x, true, OperandKind);
    OneField(x, false, OperandKind);
    assert d.operands + [] == d.operands && d.results + [] == d.results;
    assert d.regions + [] == d.regions && d.successors + [] == d.successors;
    assert d.properties + [] == d.properties && d.attributes + [] == d.attributes;
    assert d.options + [] == d.options && d.accessorNames + map[] == d.accessorNames;
    assert b.seen + {} == b.seen;
  }

  lemma StepSlot(b: Builder, x: Decl)
    requires x.SlotField? && Fresh(b, [x])
    ensures AddField(b, x) == Ok(Closed(b, [x]))
  {
    var d := b.def;
    OneField(x, true, OperandKind);
    OneField(x, false, OperandKind);
    assert d.properties + [] == d.properties && d.attributes + [] == d.attributes;
    assert d.options + [] == d.options && d.accessorNames + map[] == d.accessorNames;
    match x.kind
    case OperandKind =>
      NoSlots(d, x, ResultKind, RegionKind, SuccessorKind);
    case ResultKind =>
      NoSlots(d, x, OperandKind, RegionKind, SuccessorKind);
    case RegionKind =>
      NoSlots(d, x, OperandKind, ResultKind, SuccessorKind);
    case SuccessorKind =>
      NoSlots(d, x, OperandKind, ResultKind, RegionKind);
  }

  /** A slot field adds nothing to the three kinds it is not of. */
  lemma NoSlots(d: OpDef, x: Decl, k1: Construct, k2: Construct, k3: Construct)
    requires x.SlotField? && x.kind != k1 && x.kind != k2 && x.kind != k3
    ensures d.Slots(k1) + SlotsOf([x], k1) == d.Slots(k1)
    ensures d.Slots(k2) + SlotsOf([x], k2) == d.Slots(k2)
    ensures d.Slots(k3) + SlotsOf([x], k3) == d.Slots(k3)
    ensures SlotsOf([x], x.kind) == [Slot(x.name, x.card, x.constr, x.singleBlock)]
  {
    OneField(x, true, k1);
    OneField(x, true, k2);
    OneField(x, true, k3);
    OneField(x, true, x.kind);
    assert d.Slots(k1) + [] == d.Slots(k1) && d.Slots(k2) + [] == d.Slots(k2) && d.Slots(k3) + [] == d.Slots(k3);
  }

  lemma StepEntry(b: Builder, x: Decl)
    requires x.EntryField? && Fresh(b, [x])
    ensures AddField(b, x) == Ok(Closed(b, [x]))
  {
    var d := b.def;
    var asProp := x.container == PropertyContainer;
    forall k ensures SlotsOf([x], k) == [] {
      OneField(x, true, k);
    }
    OneField(x, true, OperandKind);
    OneField(x, false, OperandKind);
    assert d.options + [] == d.options;
    assert d.operands + [] == d.operands && d.results + [] == d.results;
    assert d.regions + [] == d.regions && d.successors + [] == d.successors;
    if asProp {
      PutFresh(d.properties, Key(x), x.entry);
      assert d.attributes + [] == d.attributes;
    } else {
      PutFresh(d.attributes, Key(x), x.entry);
      assert d.properties + [] == d.properties;
    }
    assert d.accessorNames[x.name := (Key(x), x.container)] == d.accessorNames + map[x.name := (Key(x), x.container)];
  }

  lemma StepTraits(b: Builder, x: Decl)
    requires x.TraitsField? && Fresh(b, [x])
    ensures AddField(b, x) == Ok(Closed(b, [x]))
  {
    var d := b.def;
    TraitsOnly(d, x);
    OneField(x, true, OperandKind);
    OneField(x, false, OperandKind);
  }

  /** A traits field adds no slots, entries, options or accessors. */
  lemma TraitsOnly(d: OpDef, x: Decl)
    requires x.TraitsField?
    ensures forall k :: d.Slots(k) + SlotsOf([x], k) == d.Slots(k)
    ensures d.properties + EntriesOf([x], true) == d.properties
    ensures d.attributes + EntriesOf([x], false) == d.attributes
    ensures d.options + OptionsIn([x]) == d.options
    ensures d.accessorNames + AccessorsOf([x]) == d.accessorNames
  {
    forall k ensures d.Slots(k) + SlotsOf([x], k) == d.Slots(k) {
      OneField(x, true, k);
      assert d.Slots(k) + [] == d.Slots(k);
    }
    OneField(x, true, OperandKind);
    OneField(x, false, OperandKind);
    assert d.properties + [] == d.properties && d.attributes + [] == d.attributes;
    assert d.options + [] == d.options && d.accessorNames + map[] == d.accessorNames;
  }

  lemma StepOptions(b: Builder, x: Decl)
    requires x.OptionsField? && NoClash(x.options) && Fresh(b, [x])
    ensures AddField(b, x) == Ok(Closed(b, [x]))
  {
    var d := b.def;
    OneField(x, true, OperandKind);
    OneField(x, false, OperandKind);
    AddOptionsFresh(d, x.options);
    ClosedOptions(b, x);
  }

  /** What an options field contributes: its options, and their reserved
      entries. */
  lemma ClosedOptions(b: Builder, x: Decl)
    requires x.OptionsField?
    ensures var d := b.def;
      Closed(b, [x]) == Builder(d.(options := d.options + x.options,
        properties := d.properties + SegmentEntries(x.options, true),
        attributes := d.attributes + SegmentEntries(x.options, false)), b.seen)
  {
    OptionsKeep(b, x);
    OneField(x, true, OperandKind);
    OneField(x, false, OperandKind);
  }

  /** An options field leaves the slots, traits, accessors and names as
      they were. */
  lemma OptionsKeep(b: Builder, x: Decl)
    requires x.OptionsField?
    ensures var c := Closed(b, [x]);
      && c.def.operands == b.def.operands && c.def.results == b.def.results
      && c.def.regions == b.def.regions && c.def.successors == b.def.successors
      && c.def.traits == b.def.traits && c.def.accessorNames == b.def.accessorNames && c.seen == b.seen
  {
    var d := b.def;
    OptionsOnly(x);
    var c := Closed(b, [x]);
    assert c.def.operands == d.operands by { assert d.operands + [] == d.operands; }
    assert c.def.results == d.results by { assert d.results + [] == d.results; }
    assert c.def.regions == d.regions by { assert d.regions + [] == d.regions; }
    assert c.def.successors == d.successors by { assert d.successors + [] == d.successors; }
    assert c.def.accessorNames == d.accessorNames by { assert d.accessorNames + map[] == d.accessorNames; }
    assert c.seen == b.seen by { assert b.seen + {} == b.seen; }
  }

  /** An options field declares no slot, accessor, name or traits. */
  lemma OptionsOnly(x: Decl)
    requires x.OptionsField?
    ensures forall k :: SlotsOf([x], k) == []
    ensures AccessorsOf([x]) == map[] && NamesOf([x]) == {} && TraitsIn([x]) == None
  {
    assert [x][1..] == [];
  }

  /** One step of the loop on a fresh field appends its contribution. */
  lemma Step(b: Builder, x: Decl)
    requires Plain([x]) && Fresh(b, [x])
    ensures AddField(b, x) == Ok(Closed(b, [x]))
  {
    match x
    case SlotField(_, _, _, _, _) => StepSlot(b, x);
    case EntryField(_, _, _, _) => StepEntry(b, x);
    case TraitsField(_) => StepTraits(b, x);
    case OptionsField(_) => StepOptions(b, x);
    case Ignored(_) => ClosedNothing(b, x);
  }

  lemma {:induction false} TraitsDeclared(fields: seq<Decl>)
    requires TraitsIn(fields).Some?
    ensures "traits" in NamesOf(fields)
    decreases |fields|
  {
    if !fields[0].TraitsField? {
      TraitsDeclared(fields[1..]);
    }
  }

  lemma ClosedEmpty(b: Builder)
    ensures Closed(b, []) == b
  {
    var d := b.def;
    assert d.operands + [] == d.operands && d.results + [] == d.results;
    assert d.regions + [] == d.regions && d.successors + [] == d.successors;
    assert d.properties + [] == d.properties && d.attributes + [] == d.attributes;
    assert d.options + [] == d.options && d.accessorNames + map[] == d.accessorNames;
    assert b.seen + {} == b.seen;
  }

  // Each contribution of a list is that of its first field followed by
  // that of the rest, and so closing over the two in turn agrees with
  // closing over the list, one component at a time.

  lemma SlotsCons(fields: seq<Decl>, k: Construct)
    requires |fields| > 0
    ensures SlotsOf(fields, k) == SlotsOf([fields[0]], k) + SlotsOf(fields[1..], k)
  {
    assert [fields[0]][1..] == [];
  }

  lemma ConsSlots(b: Builder, fields: seq<Decl>, k: Construct)
    requires |fields| > 0
    ensures Closed(Closed(b, [fields[0]]), fields[1..]).def.Slots(k) == Closed(b, fields).def.Slots(k)
  {
    SlotsCons(fields, k);
  }

  lemma ConsEntries(b: Builder, fields: seq<Decl>, asProperty: bool)
    requires |fields| > 0
    ensures EntriesIn(Closed(Closed(b, [fields[0]]), fields[1..]).def, asProperty) == EntriesIn(Closed(b, fields).def, asProperty)
  {
    assert [fields[0]][1..] == [];
    assert EntriesOf(fields, asProperty) == EntriesOf([fields[0]], asProperty) + EntriesOf(fields[1..], asProperty);
  }

  lemma ConsOptions(b: Builder, fields: seq<Decl>)
    requires |fields| > 0
    ensures Closed(Closed(b, [fields[0]]), fields[1..]).def.options == Closed(b, fields).def.options
  {
    assert [fields[0]][1..] == [];
    assert OptionsIn(fields) == OptionsIn([fields[0]]) + OptionsIn(fields[1..]);
  }

  lemma ConsAccessors(b: Builder, fields: seq<Decl>)
    requires |fields| > 0
    ensures Closed(Closed(b, [fields[0]]), fields[1..]).def.accessorNames == Closed(b, fields).def.accessorNames
  {
    assert [fields[0]][1..] == [];
    var x := fields[0];
    var m, first, rest := b.def.accessorNames, AccessorsOf([x]), AccessorsOf(fields[1..]);
    var own: map<string, (string, Container)> := if x.EntryField? then map[x.name := (Key(x), x.container)] else map[];
    assert AccessorsOf([x][1..]) == map[];
    assert first == own + AccessorsOf([x][1..]);
    assert own + map[] == own;
    assert AccessorsOf(fields) == first + rest;
    assert Closed(b, [fields[0]]).def.accessorNames == m + first;
    MapUnionAssoc(m, first, rest);
  }

  lemma MapUnionAssoc<K, V>(a: map<K, V>, b: map<K, V>, c: map<K, V>)
    ensures (a + b) + c == a + (b + c)
  {
    assert forall k :: k in (a + b) + c <==> k in a + (b + c);
  }

  lemma ConsSeen(b: Builder, fields: seq<Decl>)
    requires |fields| > 0
    ensures Closed(Closed(b, [fields[0]]), fields[1..]).seen == Closed(b, fields).seen
  {
    assert [fields[0]][1..] == [];
    assert NamesOf(fields) == NamesOf([fields[0]]) + NamesOf(fields[1..]);
  }

  lemma ConsTraits(b: Builder, fields: seq<Decl>)
    requires |fields| > 0
    requires fields[0].TraitsField? ==> TraitsIn(fields[1..]).None?
    ensures Closed(Closed(b, [fields[0]]), fields[1..]).def.traits == Closed(b, fields).def.traits
  {
    OneField(fields[0], true, OperandKind);
  }

  /** Closing over a first field and then the rest is closing over the
      whole list, when the rest declares no traits of its own. */
  lemma ClosedCons(b: Builder, fields: seq<Decl>)
    requires |fields| > 0
    requires fields[0].TraitsField? ==> TraitsIn(fields[1..]).None?
    ensures Closed(Closed(b, [fields[0]]), fields[1..]) == Closed(b, fields)
  {
    ConsSlots(b, fields, OperandKind);
    ConsSlots(b, fields, ResultKind);
    ConsSlots(b, fields, RegionKind);
    ConsSlots(b, fields, SuccessorKind);
    ConsEntries(b, fields, true);
    ConsEntries(b, fields, false);
    ConsOptions(b, fields);
    ConsAccessors(b, fields);
    ConsSeen(b, fields);
    ConsTraits(b, fields);
  }

  lemma {:induction false} FreshSplit(b: Builder, fields: seq<Decl>)
    requires |fields| > 0 && Plain(fields) && Fresh(b, fields)
    ensures Plain([fields[0]]) && Fresh(b, [fields[0]])
    ensures Plain(fields[1..]) && Fresh(Closed(b, [fields[0]]), fields[1..])
    ensures fields[0].TraitsField? ==> TraitsIn(fields[1..]).None?
  {
    var x, rest := fields[0], fields[1..];
    assert [x][1..] == [];
    OneField(x, true, OperandKind);
    OneField(x, false, OperandKind);
    assert NamesOf(fields) == NamesOf([x]) + NamesOf(rest);
    assert EntriesOf(fields, true) == EntriesOf([x], true) + EntriesOf(rest, true);
    assert EntriesOf(fields, false) == EntriesOf([x], false) + EntriesOf(rest, false);
    KeysAppend(EntriesOf([x], true), EntriesOf(rest, true));
    KeysAppend(EntriesOf([x], false), EntriesOf(rest, false));
    KeysAppend(b.def.properties, EntriesOf([x], true));
    KeysAppend(b.def.attributes, EntriesOf([x], false));
    assert Plain([x]) by {
      var e: seq<Decl> := [];
      assert [x][1..] == e && Plain(e) && NamesOf(e) == {};
      assert Keys(EntriesOf(e, true)) == {} && Keys(EntriesOf(e, false)) == {};
    }
    if x.TraitsField? && TraitsIn(rest).Some? {
      TraitsDeclared(rest);
    }
  }

  /** The field loop over an unshadowed list from a fresh builder gives
      the closed form. */
  lemma {:induction false} RunClosed(b: Builder, fields: seq<Decl>)
    requires Plain(fields) && Fresh(b, fields)
    ensures Run(b, fields) == Ok(Closed(b, fields))
    decreases |fields|
  {
    if |fields| == 0 {
      ClosedEmpty(b);
    } else {
      FreshSplit(b, fields);
      Step(b, fields[0]);
      RunClosed(Closed(b, [fields[0]]), fields[1..]);
      ClosedCons(b, fields);
    }
  }

  /** The loop over two lists in turn. */
  lemma {:induction false} RunAppend(b: Builder, xs: seq<Decl>, ys: seq<Decl>)
    ensures Run(b, xs + ys) == match Run(b, xs) case Ok(b') => Run(b', ys) case Err(e) => Err(e)
    decreases |xs|
  {
    if |xs| == 0 {
      assert xs + ys == ys;
    } else {
      assert (xs + ys)[0] == xs[0] && (xs + ys)[1..] == xs[1..] + ys;
      match AddField(b, xs[0])
      case Err(_) =>
      case Ok(b') => RunAppend(b', xs[1..], ys);
    }
  }

  /** `Collect`, which recurses on the prefix and so adds the last field
      last, equals the front-to-back `Run`: both are the source's loop over
      the class bodies and their fields in declaration order. */
  lemma {:induction false} CollectIsRun(name: string, fields: seq<Decl>)
    ensures Collect(name, fields) == Run(Builder(EmptyDef(name), {}), fields)
    decreases |fields|
  {
    if |fields| > 0 {
      var front, last := fields[..|fields| - 1], fields[|fields| - 1];
      CollectIsRun(name, front);
      RunAppend(Builder(EmptyDef(name), {}), front, [last]);
      assert front + [last] == fields;
      match Run(Builder(EmptyDef(name), {}), front)
      case Err(_) =>
      case Ok(b) => assert [last][1..] == [];
    }
  }

  /** An unshadowed field list never takes the options field's name. */
  lemma {:induction false} PlainReserved(fields: seq<Decl>)
    requires Plain(fields)
    ensures "irdl_options" !in NamesOf(fields)
    decreases |fields|
  {
    if |fields| > 0 {
      PlainReserved(fields[1..]);
    }
  }

  /** The fields of a class with one contributing body. */
  lemma OneBody(cls: OpClass)
    requires |cls.bodies| == 1
    requires Plain(cls.bodies[0]) && Fresh(Builder(EmptyDef(cls.name), {}), cls.bodies[0])
    ensures Collect(cls.name, AllFields(cls.bodies)) == Ok(Closed(Builder(EmptyDef(cls.name), {}), cls.bodies[0]))
  {
    assert cls.bodies[..0] == [];
    assert AllFields(cls.bodies) == [] + cls.bodies[0];
    assert [] + cls.bodies[0] == cls.bodies[0];
    CollectIsRun(cls.name, cls.bodies[0]);
    RunClosed(Builder(EmptyDef(cls.name), {}), cls.bodies[0]);
  }

  /** The fields of a class with two contributing bodies, the class's own
      and its base's. */
  lemma TwoBodies(cls: OpClass)
    requires |cls.bodies| == 2
    requires var b := Builder(EmptyDef(cls.name), {});
      && Plain(cls.bodies[0]) && Fresh(b, cls.bodies[0])
      && Plain(cls.bodies[1]) && Fresh(Closed(b, cls.bodies[0]), cls.bodies[1])
    ensures var b := Builder(EmptyDef(cls.name), {});
      Collect(cls.name, AllFields(cls.bodies)) == Ok(Closed(Closed(b, cls.bodies[0]), cls.bodies[1]))
  {
    var b := Builder(EmptyDef(cls.name), {});
    var child, base := cls.bodies[0], cls.bodies[1];
    assert cls.bodies[..1][..0] == [] && cls.bodies[..1][0] == child;
    assert AllFields(cls.bodies[..1]) == [] + child;
    assert AllFields(cls.bodies) == child + base;
    CollectIsRun(cls.name, child + base);
    RunAppend(b, child, base);
    RunClosed(b, child);
    RunClosed(Closed(b, child), base);
  }
}
