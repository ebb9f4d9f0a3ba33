# Operation schemas of xDSL's IRDL, and the mesh dialect

This project models the operation-definition machinery of xDSL's IRDL
layer (`xdsl/irdl/operations.py`) in Dafny, and proves properties of the
model. Every operation kind has a definition (`OpDef`). The definition holds:

- ordered slot tables for operands, results, regions and successors, each
  slot `Single`, `Optional` or `Variadic`;
- property and attribute tables, with optional entries and defaults;
- a list of options, such as segment sizes stored in a reserved
  attribute or property, or same-size grouping of variadic slots.

A concrete operation is flat: one list per construct kind, plus two
dictionaries. The framework maps between the two views. The model covers
each piece of that mapping.

- `Schema` is the data model: cardinalities, slots, entries, options,
  `OpDef`, concrete operations, and the error kinds.
- `PySeq` gives Python's negative indexing, slice clamping, `sum`, and
  repetition.
- `Resolver` is the variadic size resolver (`get_variadic_sizes`,
  `get_variadic_sizes_from_attr`). A segment-size side channel takes
  priority. Without one, sizes follow from the flat length: exactly, by
  difference, or by an equal split.
- `Accessor` is the slot accessor (`get_operand_result_or_region`): start
  offset, `None` for an empty optional slot, slices for variadic slots.
- `Build` is the construction path:
  - `irdl_build_arg_list` checks each caller argument against its slot and
    flattens the arguments;
  - the option loop of `irdl_op_init` encodes the sizes into the reserved
    entry and enforces same-size grouping;
  - `IRDLOperation.__post_init__` fills in defaults.
- `Verifier` is `OpDef.verify`, with `irdl_op_verify_arg_list`,
  `irdl_op_verify_regions`, the dictionary loops, the trait loop, and the
  `verify_` wiring. Constraints and traits are opaque: an `Oracle` says
  which values they accept.
- `Definition` is `OpDef.from_pyrdl` over an explicit list of class
  bodies, most-derived first. It also covers the variadic-slot check of
  `irdl_op_arg_definition`. `Unshadowed` gives a closed form of the field
  loop for hierarchies in which no field shadows another.
- `Fields` covers the property and attribute getters and setters that the
  framework installs.
- `Mesh` is the mesh dialect (`xdsl/dialects/mesh.py`) as a client of the
  framework. It covers:
  - the definitions of the collective operations, `mesh.mesh` and
    `mesh.sharding`;
  - a generic proof that `from_pyrdl` gives every class derived from
    `CollectiveCommunicationOp` the two inherited properties;
  - the two `verify_` hooks.

The model follows the code where the documentation of
`AttrSizedSegments` says otherwise. The side channel's sizes are never
compared with the flat length, and `Resolver.SideChannelSkipsSumCheck`
shows it. The `assert` in `get_variadic_sizes` that a same-size option
exists is modelled as the error `MissingSameSizeOption`. An `IndexError`
from Python indexing is the error `IndexOutOfRange`.

## Model

| member | source | states |
|---|---|---|
| Resolver.CheckSegments | xdsl/irdl/operations.py:1354-1372 | the per-slot loop accepts exactly when every entry fits its slot (at most one for an optional slot, exactly one for a fixed slot), and then returns the variadic slots' entries in declaration order |
| Resolver.FromSideChannel | xdsl/irdl/operations.py:1317-1372 | the side channel succeeds exactly when the reserved entry is present, is an i32 dense array, has one entry per slot and every entry fits its slot; it returns the variadic entries |
| Resolver.Resolve | xdsl/irdl/operations.py:1375-1434 | a segment-size option overrides every arithmetic rule; with no variadic slot the flat length must equal the slot count; a single variadic slot gets n-(k-1) and fails when that is negative; several variadic slots need same-size grouping and divisibility, and each gets the same quotient; one size per variadic slot |
| Resolver.GetVariadicSizes | xdsl/irdl/operations.py:1375-1434 | resolving an operation's sizes yields one size per variadic slot of the kind; with no option and no variadic slot it succeeds exactly when the operation has as many elements as slots; with a segment-size option the side channel in the option's container decides |
| Resolver.ArithmeticSizesSumToLength | xdsl/irdl/operations.py:1403-1434 | without a side channel, a successful resolution gives per-slot sizes that sum to the flat length, and all of them are non-negative once the flat length covers the fixed slots |
| Resolver.SameSizeSplitIsUnique | xdsl/irdl/operations.py:1421-1434 | under same-size grouping, any split that gives every variadic slot the same number of elements and accounts for the whole flat list is exactly the split that is resolved |
| Resolver.SideChannelSkipsSumCheck | xdsl/irdl/operations.py:1348-1372 | a side-channel size of five for an operation with no operands is accepted, although the option's documentation requires the sum to match |
| Resolver.SideChannelAcceptsNegative | xdsl/irdl/operations.py:1355-1370 | a negative side-channel size for a variadic slot is accepted |
| Resolver.OptionalSlotCanExceedOne | xdsl/irdl/operations.py:1412-1419 | without a side channel, a lone optional slot receives every leftover element, three in the example |
| Resolver.SameSizeAcceptsNegativeSplit | xdsl/irdl/operations.py:1421-1434 | under same-size grouping, a negative remainder is split into negative sizes instead of being rejected |
| Accessor.PreviousVariadics | xdsl/irdl/operations.py:1841-1852 | the number of variadic slots before a slot is at most the variadic count, and strictly below it for a variadic slot |
| Accessor.SlotAt | xdsl/irdl/operations.py:1474-1493 | an optional slot reads None exactly when its size is zero; a variadic slot always reads a tuple; a single slot reads one element or fails with an index error |
| Accessor.GetSlot | xdsl/irdl/operations.py:1437-1493 | when the sizes cannot be resolved, the accessor fails with the resolver's error |
| Accessor.StartOffsetIsPrefixSum | xdsl/irdl/operations.py:1474-1476 | the start offset idx - prevVar + sum(sizes[:prevVar]) is the sum of the per-slot sizes of every earlier slot |
| Accessor.SegmentWithinList | xdsl/irdl/operations.py:1474-1493 | with non-negative sizes that account for the flat list, each slot's segment starts at a non-negative offset, has a non-negative size (one for a fixed slot) and ends inside the list |
| Accessor.SlotAtReadsSegment | xdsl/irdl/operations.py:1477-1493 | under the same conditions each accessor returns exactly its slot's segment: one element, a slice of its size, or for an optional slot None at size zero |
| Build.CheckArg | xdsl/irdl/operations.py:1619-1646 | one argument is accepted exactly when it fits its slot: None only for an optional slot, a sequence only for a variadic slot, and one of at most one element for an optional slot |
| Build.BuildItems | xdsl/irdl/operations.py:1618-1647 | the argument loop accepts exactly when every argument fits its slot, and then records one size per argument |
| Build.BuildArgList | xdsl/irdl/operations.py:1601-1647 | the builder rejects an argument count different from the slot count and any misfitting argument, and accepts otherwise |
| Build.NoneToEmpty | xdsl/irdl/operations.py:1653-1699 | the argument count is kept, each `None` operand or region argument becomes an empty list, and every other argument is unchanged |
| Build.BuildLists | xdsl/irdl/operations.py:1728-1750 | a successful build records one size per slot for every kind, and each kind's list and sizes are those of its own argument-list build, with `None` operands and regions read as empty |
| Build.DropNone | xdsl/irdl/operations.py:1751-1763 | the result holds exactly the entries the caller did not set to `None`, with their values |
| Build.BuildArgListValue | xdsl/irdl/operations.py:1601-1647 | a successful build returns the arguments' elements in order plus one size per slot; the sizes fit the slots and sum to the flat length |
| Build.FlattenPiece | xdsl/irdl/operations.py:1642-1646 | argument i occupies the stretch of the flat list that starts where the earlier arguments' elements end |
| Build.BuildListsFit | xdsl/irdl/operations.py:1728-1750 | after the four builder calls, each kind's recorded sizes fit its slots and add up to its flat length |
| Build.WriteSegments | xdsl/irdl/operations.py:1766-1794 | each segment-size option stores the encoded sizes of its kind under the reserved name, in the container it names, and no other name is written |
| Build.ApplyOptions | xdsl/irdl/operations.py:1766-1823 | the option loop fails, always with the unequal-sizes error, exactly when a kind under same-size grouping has variadic sizes that differ; otherwise every segment-size option stores its kind's encoded sizes in its container, and no other name changes in either container |
| Build.FillDefaults | xdsl/irdl/operations.py:132-150 | every supplied entry keeps its value, and an absent entry is added exactly when its definition is non-optional and has a default, which it then takes |
| Build.SameSizeViolation | xdsl/irdl/operations.py:1795-1823 | construction reports a same-size violation exactly when some same-size kind has variadic slots of unequal recorded size |
| Build.OpInit | xdsl/irdl/operations.py:1702-1835 | construction succeeds exactly when the four builder calls succeed and every same-size kind's variadic sizes are equal; the built operation holds exactly the operands, result types, regions and successors the builder calls produced |
| Build.OpInitEntries | xdsl/irdl/operations.py:135-150 | for any non-reserved name, construction stores the supplied value, drops a value supplied as None, and fills in the default of an absent required entry |
| Build.OpInitWritesSegments | xdsl/irdl/operations.py:1773-1790 | construction stores the recorded sizes of every kind that has a segment-size option, in the container the option names |
| Build.ResolveRecordedSizes | xdsl/irdl/operations.py:1403-1434 | on sizes recorded by construction, the arithmetic rules of the resolver give back the recorded variadic sizes |
| Build.SideChannelReadsEncoded | xdsl/irdl/operations.py:1348-1372 | reading the side channel that construction encoded gives back the variadic entries of the recorded sizes |
| Build.BuildResolveRoundTrip | xdsl/irdl/operations.py:1766-1823 | for a definition that passes the variadic-slot check, the sizes the resolver reads from a freshly built operation are the sizes the builder recorded for its variadic slots |
| Build.BuildThenAccess | xdsl/irdl/operations.py:1477-1493 | reading slot idx of a built flat list with the recorded sizes gives back exactly the argument of that slot |
| Build.OpInitThenGetOperand | xdsl/irdl/operations.py:1437-1493 | on a freshly built operation, each operand accessor returns the operands passed for its slot, with None read as an empty sequence |
| Definition.AddOption | xdsl/irdl/operations.py:986-1012 | a segment-size option fails exactly when its reserved name is already declared in its container; otherwise it records the option, declares the reserved name in that container, and leaves slots, traits and accessors alone |
| Definition.AddOptions | xdsl/irdl/operations.py:983-1013 | the options are added in order; the list fails exactly when one of its options fails |
| Definition.PutEntry | xdsl/irdl/operations.py:1107-1119 | after storing a property or attribute definition it is found under its IR name in the right container; no name is lost, and slots, options, traits and accessor names are unchanged |
| Definition.AddField | xdsl/irdl/operations.py:964-1129 | a field whose name a more-derived class (or an earlier field) already took changes nothing, and the only way one field can fail is a segment-size name clash |
| Definition.Collect | xdsl/irdl/operations.py:943-1129 | the field loop over the class bodies in order fails only with a segment-size name clash; `Definition.CollectConsistent` gives the invariant it keeps and `Unshadowed.RunClosed` its closed form |
| Definition.FromPyrdl | xdsl/irdl/operations.py:911-1150 | with a successful field loop, building fails exactly when an assembly format is combined with a custom parse or print, and otherwise yields the definition the field loop built, with the class's assembly format as the only change |
| Definition.CheckVariadics | xdsl/irdl/operations.py:1854-1868 | a kind is accepted exactly when it has at most one variadic slot or an option that allows several |
| Definition.Define | xdsl/irdl/operations.py:1925-1941 | installing accessors succeeds exactly when the definition builds and every construct kind passes the variadic-slot check |
| Definition.CollectOptionsAndTraits | xdsl/irdl/operations.py:970-1025 | options accumulate over every class in visiting order, and the traits of the first class that declares any win |
| Definition.CollectConsistent | xdsl/irdl/operations.py:964-1129 | any successfully built definition has each segment-size option's reserved name declared, at most one such option per kind and container, every accessor pointing to a declared entry, and no slot name used twice |
| Definition.SegmentOptionClashes | xdsl/irdl/operations.py:994-1000 | a segment-size option whose reserved name a more-derived class already declared is rejected |
| Definition.DuplicateSegmentOptionRejected | xdsl/irdl/operations.py:983-1000 | declaring the same segment-size option twice in a hierarchy is rejected, because options are never shadowed |
| Unshadowed.Step | xdsl/irdl/operations.py:970-1129 | one loop step on a field that clashes with nothing appends that field's slots, entries, options, accessors and name |
| Unshadowed.RunClosed | xdsl/irdl/operations.py:964-1129 | for a field list where nothing shadows, the loop from a fresh builder gives the closed form: every declaration in visiting order |
| Unshadowed.CollectIsRun | xdsl/irdl/operations.py:964-972 | the prefix-recursive `Definition.Collect` equals the front-to-back `Run`; both are the source's field loop over the class bodies and their fields in declaration order |
| Unshadowed.OneBody | xdsl/irdl/operations.py:943-1129 | a class with one contributing body builds the closed form of that body |
| Unshadowed.TwoBodies | xdsl/irdl/operations.py:943-1129 | a class with two contributing bodies builds its own body's closed form, followed by the base body's |
| Verifier.CheckArgsFrom | xdsl/irdl/operations.py:1533-1559 | past the last slot the loop accepts; a failure is a constraint failure of a slot from the current one on, or an index error, both of the kind being checked |
| Verifier.VerifyArgList | xdsl/irdl/operations.py:1516-1559 | a size-resolution failure is reported unchanged; once the sizes resolve, a failure is a slot constraint failure or an index error of that kind |
| Verifier.CheckArgsFromSpec | xdsl/irdl/operations.py:1533-1559 | the slot loop with running indices accepts exactly when every remaining slot passes at the accessor's closed-form offset |
| Verifier.CheckArgsFromFirstFailure | xdsl/irdl/operations.py:1533-1559 | a failing loop reports the error of the first slot that does not pass |
| Verifier.StartOffsetStep | xdsl/irdl/operations.py:1550-1558 | advancing the running index by a variadic slot's size, or by one, keeps it equal to the accessor's start offset |
| Verifier.VerifyArgListSpec | xdsl/irdl/operations.py:1516-1559 | argument-list verification accepts exactly the operations whose slots of that kind all pass at the accessor's offsets |
| Verifier.CheckRegionsFrom | xdsl/irdl/operations.py:1496-1513 | the region loop accepts exactly when every pair of region and definition, zipped by position, passes |
| Verifier.VerifyRegions | xdsl/irdl/operations.py:1496-1513 | region verification checks every positional pair and stops at the shorter list |
| Verifier.CheckDeclared | xdsl/irdl/operations.py:1171-1196 | a declared-entry loop accepts exactly when each declared entry is present and accepted, or absent and optional; a failure is a missing entry or a rejected value |
| Verifier.CheckUndeclared | xdsl/irdl/operations.py:1180-1186 | this check accepts exactly when every property of the operation is declared |
| Verifier.CheckTraits | xdsl/irdl/operations.py:1199-1200 | the trait loop accepts exactly when every trait accepts the operation |
| Verifier.VerifyOp | xdsl/irdl/operations.py:1152-1200 | verification succeeds exactly when the constructs, the entries and every trait pass; a construct failure is reported before any entry failure, and an entry failure before a trait failure |
| Verifier.VerifyOpIffValid | xdsl/irdl/operations.py:1152-1200 | verification accepts exactly the operations that are valid slot by slot, entry by entry and trait by trait |
| Verifier.VerifyConstructsIffValid | xdsl/irdl/operations.py:1158-1168 | the construct half accepts exactly when operands, results and regions are valid and successor sizes resolve |
| Verifier.VerifyEntriesIffValid | xdsl/irdl/operations.py:1170-1196 | the dictionary half accepts exactly when declared properties, undeclared properties and declared attributes are all fine |
| Verifier.VerifyWithHook | xdsl/irdl/operations.py:1996-2008 | an operation's verify_ fails with the definition's error first, and runs the class's own hook only after the definition accepts |
| Verifier.MissingRequiredPropertyFails | xdsl/irdl/operations.py:1171-1177 | an absent required property makes verification fail |
| Verifier.MissingRequiredAttributeFails | xdsl/irdl/operations.py:1189-1195 | an absent required attribute makes verification fail |
| Verifier.UndeclaredPropertyFails | xdsl/irdl/operations.py:1180-1186 | a property the definition does not declare makes verification fail |
| Verifier.CheckDeclaredIgnoresUndeclared | xdsl/irdl/operations.py:1189-1196 | adding an undeclared name does not change the declared-entry loop, so an extra attribute is never rejected |
| Verifier.AbsentOptionalSkipped | xdsl/irdl/operations.py:1172-1174 | an absent optional entry is skipped: declaring it anywhere in the table leaves the loop's outcome unchanged |
| Verifier.RegionZipRejectsVariadicPart | xdsl/irdl/operations.py:1500-1505 | with a variadic region slot before a single-block one, a two-block region that the accessor assigns to the variadic slot is still rejected |
| Verifier.RegionZipAcceptsSingleBlockSlot | xdsl/irdl/operations.py:1500-1505 | in the same layout, a two-block region that the accessor returns for the single-block slot is accepted |
| Verifier.VariadicSingleBlockUnchecked | xdsl/irdl/operations.py:428-437 | a variadic region slot marked single-block accepts a two-block region |
| Verifier.UndeclaredAttributeAcceptedPropertyRejected | xdsl/irdl/operations.py:1180-1196 | against an empty definition, an extra attribute is accepted and an extra property is rejected |
| Fields.ReadEntry | xdsl/irdl/operations.py:1871-1922 | an optional getter never raises; a required getter succeeds exactly when the entry is present and then returns a value; the only error is a `KeyError` for the entry's name; a present entry is returned as stored |
| Fields.Get | xdsl/irdl/operations.py:1871-1922 | reading an accessor never raises for an optional entry; for a required entry it succeeds exactly when its IR name is in its container and returns a value; the only error is a `KeyError` for the IR name |
| Fields.WriteOptional | xdsl/irdl/operations.py:1871-1911 | after the optional setter the entry is present exactly when the value is not `None`, holding that value, and every other entry is unchanged |
| Fields.WriteRequired | xdsl/irdl/operations.py:1886-1922 | after the required setter the entry holds the value, and every other entry is unchanged |
| Fields.GetAfterSet | xdsl/irdl/operations.py:1871-1922 | reading an accessor after assigning it gives the assigned value, or the entry's default after clearing an optional entry |
| Fields.SetLeavesOthers | xdsl/irdl/operations.py:1871-1922 | assigning one accessor leaves the accessors of every other entry unchanged |
| Fields.Set | xdsl/irdl/operations.py:1871-1922 | a setter changes only the property or attribute dictionary, never the construct lists |
| Fields.ValidGettersSucceed | xdsl/irdl/operations.py:1943-1962 | on a verified operation every getter succeeds, a required one returns a value, and a present value satisfies its constraint |
| Fields.GetAfterInit | xdsl/irdl/operations.py:132-152 | right after construction a getter returns the supplied value, else the entry's default, and raises KeyError only for a required entry with neither |
| Mesh.CollectiveOp | xdsl/dialects/mesh.py:155-157 | every collective definition ends with the inherited properties mesh and mesh_axes, declares them nowhere else, reads them through same-named accessors, has no options and is Pure |
| Mesh.CollectiveBodyFacts | xdsl/dialects/mesh.py:155-157 | the base body declares exactly the properties mesh and mesh_axes, with same-named accessors, and no slots, attributes, options or traits |
| Mesh.CollectiveInherits | xdsl/dialects/mesh.py:155-157 | from_pyrdl collects any class derived from CollectiveCommunicationOp without error when its own body does not redeclare the two names, and the result inherits both properties |
| Mesh.CollectiveInitDefaults | xdsl/dialects/mesh.py:157 | constructing a collective operation stores mesh_axes as supplied, else the empty axis list, and stores mesh exactly when it is supplied |
| Mesh.CollectiveNeedsMesh | xdsl/dialects/mesh.py:156 | a collective operation without mesh fails verification |
| Mesh.RootDynamicSizes | xdsl/dialects/mesh.py:256-258 | for broadcast and gather, root_dynamic receives every operand after input, and an operation with no operands is rejected |
| Mesh.RootDynamicAccessors | xdsl/dialects/mesh.py:277-280 | the accessors read input as the first operand and root_dynamic as all the others |
| Mesh.ShardingNeedsSegments | xdsl/dialects/mesh.py:337-345 | without the segment-size option, the two variadic operand groups of the sharding definition would be rejected |
| Mesh.ShardingSegments | xdsl/dialects/mesh.py:337-345 | the sharding's operand groups are sized only by the property operandSegmentSizes, whatever the operand count, and the accessors slice the groups out one after the other |
| Mesh.SegmentedPair | xdsl/irdl/operations.py:1392-1401 | for two variadic groups sized by a property, the resolver returns that property's two entries, and the accessors read consecutive slices of those lengths |
| Mesh.MeshVerifyIff | xdsl/dialects/mesh.py:311-315 | a mesh verifies exactly when the definition accepts it and its shape is not empty |
| Mesh.MeshVerify | xdsl/dialects/mesh.py:311-315 | the mesh hook succeeds exactly when shape is a non-empty dense array, and fails with the rank error exactly when it is an empty one |
| Mesh.InUse | xdsl/dialects/mesh.py:363-366 | a non-empty static list puts its side in use whatever the operands are, and an absent static list is a missing-property error |
| Mesh.ShardingVerify | xdsl/dialects/mesh.py:362-371 | the sharding hook succeeds exactly when both sides can be read and they are not both in use |
| Mesh.ShardingSides | xdsl/dialects/mesh.py:363-366 | once both static lists are present and the groups can be sized, each side is in use exactly when its static list or its group is non-empty |
| Mesh.ShardingChecked | xdsl/dialects/mesh.py:330-345 | when the definition accepts a sharding, both static lists are present and the operand groups can be sized |
| Mesh.ShardingVerifyIff | xdsl/dialects/mesh.py:362-371 | a sharding verifies exactly when the definition accepts it and it does not use dimension offsets and halo sizes together; otherwise the error is the exclusion message |
| Mesh.ShardingPartialsOptional | xdsl/dialects/mesh.py:332-333 | a sharding without partial_axes and partial_type is checked as if those entries were not declared |
| Mesh.ShardingInitDefaults | xdsl/dialects/mesh.py:332-340 | construction stores each static list as supplied, else the empty list, and stores partial_axes and partial_type only when supplied |

## Left out

- Python reflection in `from_pyrdl` and `irdl_op_definition` is replaced by
  an explicit list of classified fields per class, most-derived first.
  This covers walking the method resolution order, annotations, `ClassVar`,
  dunder skipping, function checks and class rebuilding. The
  misclassified-field errors (`wrong_field_exception`, a range constraint
  on a non-variadic field, a `traits` field that is not `OpTraits`) are
  not modelled, because a classified field cannot be misclassified.
- Generic type-variable specialisation in `from_pyrdl` and the
  `ConstraintVar` deprecation warning are not modelled.
- The constraint subsystem (`AttrConstraint.verify`, `RangeConstraint`)
  and trait `verify` are an `Oracle` of predicates. This is not a model of
  their behaviour.
- Verifier.CheckArgsFrom: the constraint context is not shared between
  slots, so type-variable bindings across slots are not modelled. Each
  slot's range check is a context-free oracle call.
- Only the kind of each error is modelled, not its message text.
- Assembly-format compilation, `parse` and `print`, `custom_directives`,
  and the mesh `assembly_format` strings are left out: they need parser
  and printer code outside this model. The same goes for
  `MeshAxesArrayAttr` parse/print. Only whether a format is present
  matters, for the check in `from_pyrdl`.
- `ParsePropInAttrDict` is kept as an option but has no effect: it only
  changes parsing.
- `DenseArrayBase` byte packing: a dense array is its element type and a
  sequence of integers.
- Build.WriteSegments: the recorded sizes are stored unbounded. The i32
  range of the packed array is not checked, because a size is a list
  length.
- IR primitives and argument coercion are not modelled. This covers
  `Operation.__init__`, `SSAValue.get` of an operation, building a
  `Region` or `Block` from a list, and result values created from result
  types. Operands are values, results are types, and regions are block
  lists.
- `IRDLOperation.__init__` and `build` are left out: they only replace
  missing arguments by empty ones and call `irdl_op_init`, which
  `Build.OpInit` models.
- Successors have no per-slot check in the source. The model only
  resolves their sizes.
- Mesh.MeshVerify: `KeyError` for an absent `shape` and an attribute error
  for a non-dense-array `shape` both stand as the property's own
  verification errors. The definition check rejects both cases before
  the hook runs.
- Mesh.InUse: a `KeyError` from reading a required static list is modelled
  as `MissingProperty`. The truth value of a dense array is assumed to be
  its length being non-zero, because `DenseArrayBase` itself is not part
  of this model.
- Mesh definitions: the derived tables of the eight mesh operations are
  constants. `Mesh.CollectiveInherits` proves, for any derived class
  whose own body declares neither `mesh` nor `mesh_axes`, that
  `from_pyrdl` yields a definition with the inherited properties. It
  does this instead of evaluating each concrete class body.
- `xdsl/interpreters/pdl_interp.py` is not part of this model. Its
  handlers dispatch to interpreter and rewriter code that is outside the
  model.
- Identity `__eq__` and `__hash__` of operations are not modelled.
