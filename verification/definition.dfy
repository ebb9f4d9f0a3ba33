/**
  Building an operation definition from a class hierarchy
  (`OpDef.from_pyrdl`) and the checks `irdl_op_definition` adds when it
  installs the slot accessors (`irdl_op_arg_definition`).  Python
  reflection is replaced by an explicit list of class bodies, most-derived
  first, each an ordered list of classified fields.
 */
module Definition {
  import opened Wrappers
  import opened Schema

  /** One field of a class body, as the builder classifies it.  Options
      live in the field `irdl_options` and traits in the field `traits`;
      `Ignored` stands for everything the builder skips (the op name, the
      assembly format, methods, dunders, class-level constants). */
  datatype Decl =
    | SlotField(name: string, kind: Construct, card: Card, constr: Constr, singleBlock: bool)
    | EntryField(name: string, container: Container, irName: Option<string>, entry: AttrDef)
    | OptionsField(options: seq<IrdlOption>)
    | TraitsField(traits: seq<Trait>)
    | Ignored(name: string)
  {
    function FieldName(): string {
      match this
      case SlotField(n, _, _, _, _) => n
      case EntryField(n, _, _, _) => n
      case OptionsField(_) => "irdl_options"
      case TraitsField(_) => "traits"
      case Ignored(n) => n
    }
  }

  /** An operation class: its op name, the bodies of the classes of its
      method resolution order that contribute fields (most-derived
      first; `Operation`'s own classes, `IRDLOperation` and `Generic`
      contribute none), its assembly format as Python resolves the class
      attribute, and whether it overrides `parse` or `print`. */
  datatype OpClass = OpClass(
    name: string,
    bodies: seq<seq<Decl>>,
    assemblyFormat: Option<string>,
    customParse: bool,
    customPrint: bool)

  datatype DefineError =
    | SegmentNameClash(option: IrdlOption, name: string)
    | FormatWithCustomSyntax
    | TooManyVariadics(kind: Construct)

  /** The definition built so far and the field names already taken
      (`field_names`). */
  datatype Builder = Builder(def: OpDef, seen: set<string>)

  /** `OpDef(name)` */
  function EmptyDef(name: string): (def: OpDef)
    ensures def.name == name
    ensures forall k :: def.Slots(k) == []
    ensures def.properties == def.attributes == [] && def.options == [] && def.traits == []
    ensures def.accessorNames == map[] && def.assemblyFormat == None
  {
    OpDef(name, [], [], [], [], [], [], [], [], map[], None)
  }

  /** Every field of every class, in the order the builder visits them. */
  function AllFields(bodies: seq<seq<Decl>>): seq<Decl> {
    if |bodies| == 0 then [] else AllFields(bodies[..|bodies| - 1]) + bodies[|bodies| - 1]
  }

  /** The property or attribute table of a definition. */
  function EntriesIn(def: OpDef, asProperty: bool): Dict<AttrDef> {
    if asProperty then def.properties else def.attributes
  }

  /** The definition the segment-size option registers for its reserved
      name: a required dense-array entry. */
  const SegmentEntry: AttrDef := AttrDef(false, Constr("DenseArrayBase"), None)

  /** `op_def.<kind>.append((name, slot))` */
  function AppendSlot(def: OpDef, k: Construct, slot: Slot): (r: OpDef)
    ensures r.Slots(k) == def.Slots(k) + [slot]
    ensures forall k' :: k' != k ==> r.Slots(k') == def.Slots(k')
    ensures r.properties == def.properties && r.attributes == def.attributes
    ensures r.options == def.options && r.traits == def.traits && r.accessorNames == def.accessorNames
  {
    match k
    case OperandKind => def.(operands := def.operands + [slot])
    case ResultKind => def.(results := def.results + [slot])
    case RegionKind => def.(regions := def.regions + [slot])
    case SuccessorKind => def.(successors := def.successors + [slot])
  }

  /** One option of an `irdl_options` list: recorded, and for a
      segment-size option its reserved name registered as a required
      dense-array property or attribute, unless that name is already
      declared there. */
  function AddOption(def: OpDef, o: IrdlOption): (r: Result<OpDef, DefineError>)
    ensures r.Ok? ==> r.value.options == def.options + [o]
    ensures r.Ok? ==> r.value.traits == def.traits && r.value.accessorNames == def.accessorNames
    ensures r.Ok? ==> forall k :: r.value.Slots(k) == def.Slots(k)
    ensures r.Ok? ==> Keys(r.value.properties) >= Keys(def.properties) && Keys(r.value.attributes) >= Keys(def.attributes)
    ensures r.Ok? && o.AttrSizedSegments? ==> SegmentSizesName(o.kind) in Keys(EntriesIn(r.value, o.asProperty))
    ensures o.AttrSizedSegments? ==>
      (r.Err? <==> SegmentSizesName(o.kind) in Keys(EntriesIn(def, o.asProperty)))
    ensures !o.AttrSizedSegments? ==> r.Ok?
    ensures r.Err? ==> r.error.SegmentNameClash?
  {
    var def := def.(options := def.options + [o]);
    if !o.AttrSizedSegments? then Ok(def)
    else
      var name := SegmentSizesName(o.kind);
      LookupKeys(EntriesIn(def, o.asProperty), name);
      if Lookup(EntriesIn(def, o.asProperty), name).Some? then Err(SegmentNameClash(o, name))
      else if o.asProperty then Ok(def.(properties := Put(def.properties, name, SegmentEntry)))
      else Ok(def.(attributes := Put(def.attributes, name, SegmentEntry)))
  }

  /** The loop over an `irdl_options` list, in order. */
  function AddOptions(def: OpDef, opts: seq<IrdlOption>): (r: Result<OpDef, DefineError>)
    ensures r.Ok? ==> r.value.options == def.options + opts
    ensures r.Ok? ==> r.value.traits == def.traits && r.value.accessorNames == def.accessorNames
    ensures r.Ok? ==> forall k :: r.value.Slots(k) == def.Slots(k)
    ensures r.Err? ==> r.error.SegmentNameClash?
    decreases |opts|
  {
    if |opts| == 0 then Ok(def)
    else
      var d :- AddOptions(def, opts[..|opts| - 1]);
      assert opts == opts[..|opts| - 1] + [opts[|opts| - 1]];
      AddOption(d, opts[|opts| - 1])
  }

  /** `op_def.properties[ir_name] = entry` or the attribute equivalent. */
  function PutEntry(def: OpDef, c: Container, name: string, e: AttrDef): (r: OpDef)
    ensures Lookup(EntriesIn(r, c == PropertyContainer), name) == Some(e)
    ensures Keys(r.properties) >= Keys(def.properties) && Keys(r.attributes) >= Keys(def.attributes)
    ensures r.options == def.options && r.traits == def.traits && r.accessorNames == def.accessorNames
    ensures forall k :: r.Slots(k) == def.Slots(k)
  {
    if c == PropertyContainer then def.(properties := Put(def.properties, name, e))
    else def.(attributes := Put(def.attributes, name, e))
  }

  /** One field of the class loop.  A field name already taken by a
      more-derived class (or earlier in the same body) is skipped; the
      options field never takes its name, so every class's options are
      collected; traits and declarations take theirs, so the
      most-derived one wins. */
  function AddField(b: Builder, d: Decl): (r: Result<Builder, DefineError>)
    ensures d.FieldName() in b.seen ==> r == Ok(b)
    ensures r.Err? ==> r.error.SegmentNameClash?
  {
    if d.FieldName() in b.seen then Ok(b)
    else
      match d
      case OptionsField(opts) =>
        var def :- AddOptions(b.def, opts);
        Ok(Builder(def, b.seen))
      case TraitsField(ts) => Ok(Builder(b.def.(traits := ts), b.seen + {"traits"}))
      case SlotField(n, k, card, constr, sb) =>
        Ok(Builder(AppendSlot(b.def, k, Slot(n, card, constr, sb)), b.seen + {n}))
      case EntryField(n, c, ir, e) =>
        var irName := ir.GetOr(n);
        var def := PutEntry(b.def, c, irName, e);
        Ok(Builder(def.(accessorNames := def.accessorNames[n := (irName, c)]), b.seen + {n}))
      case Ignored(_) => Ok(b)
  }

  /** The field loop of `from_pyrdl` over `fields`, in order. */
  function Collect(name: string, fields: seq<Decl>): (r: Result<Builder, DefineError>)
    ensures r.Err? ==> r.error.SegmentNameClash?
    decreases |fields|
  {
    if |fields| == 0 then Ok(Builder(EmptyDef(name), {}))
    else
      var b :- Collect(name, fields[..|fields| - 1]);
      AddField(b, fields[|fields| - 1])
  }

  /** `OpDef.from_pyrdl`: the field loop, then the assembly format, which
      cannot be combined with a custom `parse` or `print`. */
  function FromPyrdl(cls: OpClass): (r: Result<OpDef, DefineError>)
    ensures Collect(cls.name, AllFields(cls.bodies)).Err? ==> r.Err? && !r.error.FormatWithCustomSyntax?
    ensures Collect(cls.name, AllFields(cls.bodies)).Ok? ==>
      (r.Ok? <==> cls.assemblyFormat.None? || (!cls.customParse && !cls.customPrint))
    ensures r.Ok? ==> r.value.assemblyFormat == cls.assemblyFormat
    // apart from the format, the definition is the one the field loop built
    ensures r.Ok? ==>
      && Collect(cls.name, AllFields(cls.bodies)).Ok?
      && r.value.(assemblyFormat := None) == Collect(cls.name, AllFields(cls.bodies)).value.def.(assemblyFormat := None)
  {
    var b :- Collect(cls.name, AllFields(cls.bodies));
    if cls.assemblyFormat.Some? && (cls.customParse || cls.customPrint) then Err(FormatWithCustomSyntax)
    else Ok(b.def.(assemblyFormat := cls.assemblyFormat))
  }

  /** The check at the end of `irdl_op_arg_definition`: more than one
      variadic slot of a kind needs a same-size or segment-size option
      for that kind. */
  function CheckVariadics(def: OpDef, k: Construct): (r: Result<(), DefineError>)
    ensures r.Ok? <==> VariadicCount(def.Slots(k)) <= 1 || AllowsMultipleVariadics(def.options, k)
  {
    if VariadicCount(def.Slots(k)) > 1 && !AllowsMultipleVariadics(def.options, k) then Err(TooManyVariadics(k))
    else Ok(())
  }

  /** Whether a definition may have its slot accessors installed. */
  predicate VariadicsDeclared(def: OpDef) {
    forall k :: VariadicCount(def.Slots(k)) <= 1 || AllowsMultipleVariadics(def.options, k)
  }

  /** `irdl_op_definition` without the reflection: build the definition,
      then install accessors kind by kind (operands, results, regions,
      successors), each of which may reject it. */
  function Define(cls: OpClass): (r: Result<OpDef, DefineError>)
    ensures r.Ok? <==> FromPyrdl(cls).Ok? && VariadicsDeclared(FromPyrdl(cls).value)
    ensures r.Ok? ==> r.value == FromPyrdl(cls).value
  {
    var def :- FromPyrdl(cls);
    var _ :- CheckVariadics(def, OperandKind);
    var _ :- CheckVariadics(def, ResultKind);
    var _ :- CheckVariadics(def, RegionKind);
    var _ :- CheckVariadics(def, SuccessorKind);
    KindByKind(def);
    Ok(def)
  }

  /** The four per-kind checks together cover every kind. */
  lemma KindByKind(def: OpDef)
    requires CheckVariadics(def, OperandKind).Ok? && CheckVariadics(def, ResultKind).Ok?
    requires CheckVariadics(def, RegionKind).Ok? && CheckVariadics(def, SuccessorKind).Ok?
    ensures VariadicsDeclared(def)
  {
    forall k ensures VariadicCount(def.Slots(k)) <= 1 || AllowsMultipleVariadics(def.options, k) {
      match k
      case OperandKind =>
      case ResultKind =>
      case RegionKind =>
      case SuccessorKind =>
    }
  }

  // ---------------------------------------------------------------------
  // Reference definitions

  /** Every option of every `irdl_options` field, in visiting order. */
  function OptionsOf(fields: seq<Decl>): seq<IrdlOption> {
    if |fields| == 0 then []
    else
      var last := fields[|fields| - 1];
      OptionsOf(fields[..|fields| - 1]) + (if last.OptionsField? then last.options else [])
  }

  /** The traits of the first `traits` field visited, if any. */
  function FirstTraits(fields: seq<Decl>): Option<seq<Trait>> {
    if |fields| == 0 then None
    else
      var p := FirstTraits(fields[..|fields| - 1]);
      var last := fields[|fields| - 1];
      if p.Some? then p else if last.TraitsField? then Some(last.traits) else None
  }

  /** No slot, entry or ignored field uses the names Python reserves for
      options and traits (a field of that name is always read as one). */
  predicate WellNamed(fields: seq<Decl>) {
    forall i :: 0 <= i < |fields| && !fields[i].OptionsField? && !fields[i].TraitsField? ==>
      fields[i].FieldName() != "irdl_options" && fields[i].FieldName() != "traits"
  }

  /** Each segment-size option has its reserved name declared in its
      container. */
  ghost predicate SegmentsRegistered(def: OpDef) {
    forall i :: 0 <= i < |def.options| && def.options[i].AttrSizedSegments? ==>
      SegmentSizesName(def.options[i].kind) in Keys(EntriesIn(def, def.options[i].asProperty))
  }

  /** No two segment-size options name the same kind and container. */
  predicate SegmentOptionsDistinct(opts: seq<IrdlOption>) {
    forall i, j ::
      (0 <= i < j < |opts| && opts[i].AttrSizedSegments? && opts[j].AttrSizedSegments? && opts[i].kind == opts[j].kind)
      ==> opts[i].asProperty != opts[j].asProperty
  }

  /** Every attribute/property accessor refers to a declared entry, so
      installing it never fails to find its definition. */
  ghost predicate AccessorsResolve(def: OpDef) {
    forall f :: f in def.accessorNames ==>
      def.accessorNames[f].0 in Keys(EntriesIn(def, def.accessorNames[f].1 == PropertyContainer))
  }

  /** No two slots of a kind share a name, and every slot name is taken. */
  ghost predicate SlotsNamedOnce(b: Builder) {
    forall k, i :: 0 <= i < |b.def.Slots(k)| ==>
      && b.def.Slots(k)[i].name in b.seen
      && forall j :: i < j < |b.def.Slots(k)| ==> b.def.Slots(k)[i].name != b.def.Slots(k)[j].name
  }

  ghost predicate Consistent(b: Builder) {
    && SegmentsRegistered(b.def)
    && SegmentOptionsDistinct(b.def.options)
    && AccessorsResolve(b.def)
    && SlotsNamedOnce(b)
  }

  // ---------------------------------------------------------------------
  // Properties

  /** The options field never takes its name and the traits field takes
      `traits`: so every class's options are collected, in visiting order,
      and the traits of the most-derived class that declares any win. */
  lemma {:induction false} CollectOptionsAndTraits(name: string, fields: seq<Decl>)
    requires WellNamed(fields)
    requires Collect(name, fields).Ok?
    ensures var b := Collect(name, fields).value;
      && "irdl_options" !in b.seen
      && ("traits" in b.seen <==> FirstTraits(fields).Some?)
      && b.def.options == OptionsOf(fields)
      && b.def.traits == FirstTraits(fields).GetOr([])
    decreases |fields|
  {
    if |fields| > 0 {
      var n := |fields| - 1;
      assert WellNamed(fields[..n]) by {
        forall i | 0 <= i < n ensures fields[..n][i] == fields[i] { }
      }
      CollectOptionsAndTraits(name, fields[..n]);
      var b := Collect(name, fields[..n]).value;
      var d := fields[n];
      assert !d.OptionsField? && !d.TraitsField? ==> d.FieldName() != "irdl_options" && d.FieldName() != "traits";
      if d.OptionsField? {
        assert AddField(b, d).value.def.options == b.def.options + d.options;
      }
    }
  }

  lemma AddOptionConsistent(b: Builder, o: IrdlOption)
    requires Consistent(b)
    requires AddOption(b.def, o).Ok?
    ensures Consistent(Builder(AddOption(b.def, o).value, b.seen))
  {
    var r := AddOption(b.def, o).value;
    var n := |b.def.options|;
    forall i | 0 <= i < |r.options| && r.options[i].AttrSizedSegments?
      ensures SegmentSizesName(r.options[i].kind) in Keys(EntriesIn(r, r.options[i].asProperty))
    {
      if i < n {
        assert r.options[i] == b.def.options[i];
      }
    }
    forall i, j | 0 <= i < j < |r.options| && r.options[i].AttrSizedSegments? && r.options[j].AttrSizedSegments?
      && r.options[i].kind == r.options[j].kind
      ensures r.options[i].asProperty != r.options[j].asProperty
    {
      assert r.options[i] == b.def.options[i];
      if j == n {
        assert SegmentSizesName(b.def.options[i].kind) in Keys(EntriesIn(b.def, b.def.options[i].asProperty));
      } else {
        assert r.options[j] == b.def.options[j];
      }
    }
  }

  lemma {:induction false} AddOptionsConsistent(b: Builder, opts: seq<IrdlOption>)
    requires Consistent(b)
    requires AddOptions(b.def, opts).Ok?
    ensures Consistent(Builder(AddOptions(b.def, opts).value, b.seen))
    decreases |opts|
  {
    if |opts| > 0 {
      var n := |opts| - 1;
      AddOptionsConsistent(b, opts[..n]);
      AddOptionConsistent(Builder(AddOptions(b.def, opts[..n]).value, b.seen), opts[n]);
    }
  }

  lemma AddFieldConsistent(b: Builder, d: Decl)
    requires Consistent(b)
    requires AddField(b, d).Ok?
    ensures Consistent(AddField(b, d).value)
  {
    if d.FieldName() !in b.seen {
      match d
      case OptionsField(opts) => AddOptionsConsistent(b, opts);
      case TraitsField(ts) =>
        assert forall k :: b.def.(traits := ts).Slots(k) == b.def.Slots(k);
      case SlotField(n, k, card, constr, sb) => AddSlotConsistent(b, n, k, Slot(n, card, constr, sb));
      case EntryField(n, c, ir, e) => AddEntryConsistent(b, n, c, ir.GetOr(n), e);
      case Ignored(_) =>
    }
  }

  lemma AddSlotConsistent(b: Builder, n: string, k: Construct, slot: Slot)
    requires Consistent(b) && n !in b.seen && slot.name == n
    ensures Consistent(Builder(AppendSlot(b.def, k, slot), b.seen + {n}))
  {
    var r := Builder(AppendSlot(b.def, k, slot), b.seen + {n});
    forall k', i | 0 <= i < |r.def.Slots(k')|
      ensures r.def.Slots(k')[i].name in r.seen
      ensures forall j :: i < j < |r.def.Slots(k')| ==> r.def.Slots(k')[i].name != r.def.Slots(k')[j].name
    {
      if k' == k && i < |b.def.Slots(k)| {
        assert r.def.Slots(k)[i] == b.def.Slots(k)[i];
        forall j | i < j < |r.def.Slots(k)| ensures r.def.Slots(k)[i].name != r.def.Slots(k)[j].name {
          if j < |b.def.Slots(k)| {
            assert r.def.Slots(k)[j] == b.def.Slots(k)[j];
          }
        }
      }
    }
  }

  lemma AddEntryConsistent(b: Builder, n: string, c: Container, irName: string, e: AttrDef)
    requires Consistent(b)
    ensures var def := PutEntry(b.def, c, irName, e);
      Consistent(Builder(def.(accessorNames := def.accessorNames[n := (irName, c)]), b.seen + {n}))
  {
    var def := PutEntry(b.def, c, irName, e);
    LookupKeys(EntriesIn(def, c == PropertyContainer), irName);
    var r := Builder(def.(accessorNames := def.accessorNames[n := (irName, c)]), b.seen + {n});
    forall k ensures r.def.Slots(k) == b.def.Slots(k) {
    }
    assert SlotsNamedOnce(r) by {
      forall k, i | 0 <= i < |r.def.Slots(k)|
        ensures r.def.Slots(k)[i].name in r.seen
        ensures forall j :: i < j < |r.def.Slots(k)| ==> r.def.Slots(k)[i].name != r.def.Slots(k)[j].name
      {
        assert r.def.Slots(k) == b.def.Slots(k);
      }
    }
  }

  /** Whatever the classes declare, a successfully built definition has
      each segment-size option's reserved name declared, at most one
      segment-size option per kind and container, every accessor name
      pointing at a declared entry, and no slot name used twice. */
  lemma {:induction false} CollectConsistent(name: string, fields: seq<Decl>)
    requires Collect(name, fields).Ok?
    ensures Consistent(Collect(name, fields).value)
    decreases |fields|
  {
    if |fields| > 0 {
      var n := |fields| - 1;
      CollectConsistent(name, fields[..n]);
      AddFieldConsistent(Collect(name, fields[..n]).value, fields[n]);
    }
  }

  /** A segment-size option whose reserved name a more-derived class (or
      an earlier field) already declared in its container is rejected. */
  lemma SegmentOptionClashes(name: string, fields: seq<Decl>, k: Construct, asProperty: bool)
    requires WellNamed(fields)
    requires Collect(name, fields).Ok?
    requires SegmentSizesName(k) in Keys(EntriesIn(Collect(name, fields).value.def, asProperty))
    ensures Collect(name, fields + [OptionsField([AttrSizedSegments(k, asProperty)])])
         == Err(SegmentNameClash(AttrSizedSegments(k, asProperty), SegmentSizesName(k)))
  {
    var fs := fields + [OptionsField([AttrSizedSegments(k, asProperty)])];
    assert fs[..|fs| - 1] == fields;
    var b := Collect(name, fields).value;
    LookupKeys(EntriesIn(b.def, asProperty), SegmentSizesName(k));
    CollectOptionsAndTraits(name, fields);
    var o := AttrSizedSegments(k, asProperty);
    assert [o][..0] == [];
    assert AddOptions(b.def, [o]) == AddOption(b.def, o);
  }

  /** Declaring the same segment-size option twice anywhere in the
      hierarchy is rejected: options accumulate over all classes, and
      the second one finds the reserved name the first registered. */
  lemma DuplicateSegmentOptionRejected(name: string, fields: seq<Decl>)
    requires WellNamed(fields)
    requires !SegmentOptionsDistinct(OptionsOf(fields))
    ensures Collect(name, fields).Err?
  {
    if Collect(name, fields).Ok? {
      CollectOptionsAndTraits(name, fields);
      CollectConsistent(name, fields);
    }
  }
}
