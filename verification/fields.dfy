/**
  The accessors the framework installs for properties and attributes.
  Every entry field of a definition gets a getter and a setter under its
  Python field name, which the definition maps to the entry's IR name and
  container.  A required entry reads with `[name]` and so raises
  `KeyError` when absent; an optional one reads with `get(name, default)`
  and is removed by assigning `None`.
 */
module Fields {
  import opened Wrappers
  import opened Schema
  import opened Definition
  import opened Build
  import opened Verifier

  /** Python's `KeyError`, raised by a required getter on an absent entry. */
  datatype FieldError = KeyError(name: string)

  /** The getter of one entry.  A required getter's value is always `Some`;
      an optional getter falls back to the entry's default, which may be
      `None`. */
  function ReadEntry(present: map<string, Attr>, name: string, d: AttrDef): (r: Result<Option<Attr>, FieldError>)
    ensures d.optional ==> r.Ok?
    ensures !d.optional ==> (r.Ok? <==> name in present) && (r.Ok? ==> r.value.Some?)
    ensures r.Err? ==> r.error == KeyError(name)
    ensures name in present ==> r == Ok(Some(present[name]))
  {
    if name in present then Ok(Some(present[name]))
    else if d.optional then Ok(d.default)
    else Err(KeyError(name))
  }

  /** The setter of an optional entry: `None` removes the entry. */
  function WriteOptional(present: map<string, Attr>, name: string, value: Option<Attr>): (r: map<string, Attr>)
    ensures name in r <==> value.Some?
    ensures value.Some? ==> r[name] == value.value
    ensures forall n :: n != name ==> (n in r <==> n in present) && (n in r ==> r[n] == present[n])
  {
    match value
    case None => present - {name}
    case Some(v) => present[name := v]
  }

  /** The setter of a required entry. */
  function WriteRequired(present: map<string, Attr>, name: string, value: Attr): (r: map<string, Attr>)
    ensures name in r && r[name] == value
    ensures forall n :: n != name ==> (n in r <==> n in present) && (n in r ==> r[n] == present[n])
  {
    present[name := value]
  }

  function ContainerOf(op: Op, c: Container): map<string, Attr> {
    if c == PropertyContainer then op.properties else op.attributes
  }

  function WithContainer(op: Op, c: Container, m: map<string, Attr>): Op {
    if c == PropertyContainer then op.(properties := m) else op.(attributes := m)
  }

  /** The definition of the entry that accessor `f` names. */
  function AccessorEntry(def: OpDef, f: string): AttrDef
    requires f in def.accessorNames && AccessorsResolve(def)
  {
    var (name, c) := def.accessorNames[f];
    LookupKeys(EntriesIn(def, c == PropertyContainer), name);
    Lookup(EntriesIn(def, c == PropertyContainer), name).value
  }

  /** Reading the Python attribute `f` of an operation. */
  function Get(def: OpDef, op: Op, f: string): (r: Result<Option<Attr>, FieldError>)
    requires f in def.accessorNames && AccessorsResolve(def)
    ensures AccessorEntry(def, f).optional ==> r.Ok?
    ensures !AccessorEntry(def, f).optional ==>
      (r.Ok? <==> def.accessorNames[f].0 in ContainerOf(op, def.accessorNames[f].1)) && (r.Ok? ==> r.value.Some?)
    ensures r.Err? ==> r.error == KeyError(def.accessorNames[f].0)
  {
    var (name, c) := def.accessorNames[f];
    ReadEntry(ContainerOf(op, c), name, AccessorEntry(def, f))
  }

  /** Assigning the Python attribute `f` of an operation; only an optional
      entry accepts `None`. */
  function Set(def: OpDef, op: Op, f: string, value: Option<Attr>): (r: Op)
    requires f in def.accessorNames && AccessorsResolve(def)
    requires AccessorEntry(def, f).optional || value.Some?
    ensures r.operands == op.operands && r.resultTypes == op.resultTypes
    ensures r.regions == op.regions && r.successors == op.successors
  {
    var (name, c) := def.accessorNames[f];
    var m := ContainerOf(op, c);
    WithContainer(op, c,
      if AccessorEntry(def, f).optional then WriteOptional(m, name, value)
      else WriteRequired(m, name, value.value))
  }

  // ---------------------------------------------------------------------
  // Properties

  /** Reading back an assigned value gives it; reading back a cleared
      optional entry gives its default, not `None`. */
  lemma GetAfterSet(def: OpDef, op: Op, f: string, value: Option<Attr>)
    requires f in def.accessorNames && AccessorsResolve(def)
    requires AccessorEntry(def, f).optional || value.Some?
    ensures Get(def, Set(def, op, f, value), f) ==
      Ok(if value.Some? then value else AccessorEntry(def, f).default)
  {
  }

  /** Assigning one accessor leaves every accessor of another entry as it
      was. */
  lemma SetLeavesOthers(def: OpDef, op: Op, f: string, value: Option<Attr>, g: string)
    requires f in def.accessorNames && g in def.accessorNames && AccessorsResolve(def)
    requires AccessorEntry(def, f).optional || value.Some?
    requires def.accessorNames[g] != def.accessorNames[f]
    ensures Get(def, Set(def, op, f, value), g) == Get(def, op, g)
  {
  }

  /** On an operation that verifies, every getter succeeds, a required one
      with a value, and a present value satisfies the entry's constraint. */
  lemma ValidGettersSucceed(def: OpDef, op: Op, o: Oracle, f: string)
    requires f in def.accessorNames && AccessorsResolve(def)
    requires EntriesValid(def, op, o)
    ensures Get(def, op, f).Ok?
    ensures !AccessorEntry(def, f).optional ==> Get(def, op, f).value.Some?
    ensures var (name, c) := def.accessorNames[f];
      name in ContainerOf(op, c) ==> o.single(AccessorEntry(def, f).constr, ContainerOf(op, c)[name])
  {
    var (name, c) := def.accessorNames[f];
    var defs := EntriesIn(def, c == PropertyContainer);
    LookupKeys(defs, name);
    var i := LookupIndex(defs, name);
    assert EntryPasses(o, defs[i].0, defs[i].1, ContainerOf(op, c));
  }

  /** Right after construction a getter reads what the caller supplied,
      otherwise the entry's default, and raises `KeyError` only for a
      required entry with neither. */
  lemma GetAfterInit(def: OpDef, a: BuildArgs, f: string)
    requires f in def.accessorNames && AccessorsResolve(def)
    requires OpInit(def, a).Ok? && def.accessorNames[f].0 !in SegmentNames
    ensures var (name, c) := def.accessorNames[f];
      var supplied := if c == PropertyContainer then a.properties else a.attributes;
      var d := AccessorEntry(def, f);
      Get(def, OpInit(def, a).value, f) ==
        if name in supplied && supplied[name].Some? then Ok(supplied[name])
        else if d.optional || d.default.Some? then Ok(d.default)
        else Err(KeyError(name))
  {
    var (name, c) := def.accessorNames[f];
    var op := OpInit(def, a).value;
    OpInitEntries(def, a, name);
    var defs := EntriesIn(def, c == PropertyContainer);
    LookupKeys(defs, name);
    assert DefaultFor(defs, name) == if AccessorEntry(def, f).optional then None else AccessorEntry(def, f).default;
    if c == PropertyContainer {
      assert Stored(a.properties, defs, ContainerOf(op, c), name);
    } else {
      assert Stored(a.attributes, defs, ContainerOf(op, c), name);
    }
  }
}
