/**
  Reading one slot of an operation (`get_operand_result_or_region`): the
  accessor that the framework installs for every declared slot.
 */
module Accessor {
  import opened Wrappers
  import opened Schema
  import opened PySeq
  import opened Resolver

  /** What an accessor returns: `None`, one element, or a tuple of them. */
  datatype Got<T> = Nothing | One(value: T) | Many(values: seq<T>)

  /** Number of variadic slots before slot `idx`, as counted by
      `irdl_op_arg_definition` when it installs the accessor. */
  function PreviousVariadics(slots: seq<Slot>, idx: nat): (r: nat)
    requires idx <= |slots|
    ensures r <= VariadicCount(slots)
    ensures idx < |slots| && slots[idx].card.IsVariadic() ==> r < VariadicCount(slots)
  {
    VariadicCountPrefix(slots, idx);
    VariadicCount(slots[..idx])
  }

  /** The start offset the source computes for slot `idx`. */
  function StartOffset(idx: nat, prevVar: nat, sizes: seq<int>): int
    requires prevVar <= |sizes|
  {
    idx - prevVar + Sum(sizes[..prevVar])
  }

  /** The body of `get_operand_result_or_region` once the variadic sizes
      are known: an optional slot of size zero is `None`, otherwise its
      element at the start offset; a variadic slot is the slice of its
      size; a single slot is the element at the start offset.  Indexing
      and slicing follow Python, so a bad offset either wraps around or
      raises `IndexError`. */
  function SlotAt<T>(kind: Construct, slots: seq<Slot>, sizes: seq<int>, args: seq<T>, idx: nat): (r: Result<Got<T>, VerifyError>)
    requires idx < |slots|
    requires |sizes| == VariadicCount(slots)
    ensures slots[idx].card.IsOptional() ==>
      (r == Ok(Nothing) <==> sizes[PreviousVariadics(slots, idx)] == 0)
    ensures slots[idx].card == Variadic ==> r.Ok? && r.value.Many?
    ensures !slots[idx].card.IsVariadic() ==> r.Ok? ==> r.value.One?
  {
    var prevVar := PreviousVariadics(slots, idx);
    var begin := StartOffset(idx, prevVar, sizes);
    if slots[idx].card.IsOptional() then
      if sizes[prevVar] == 0 then Ok(Nothing)
      else
        match PyIndex(args, begin)
        case Some(v) => Ok(One(v))
        case None => Err(IndexOutOfRange(kind, begin))
    else if slots[idx].card.IsVariadic() then
      Ok(Many(PySlice(args, begin, begin + sizes[prevVar])))
    else
      match PyIndex(args, begin)
      case Some(v) => Ok(One(v))
      case None => Err(IndexOutOfRange(kind, begin))
  }

  /** The accessor of slot `idx` of kind `kind` on operation `op`, whose
      flat list of that kind is `args`: resolves the sizes afresh, then
      reads the slot. */
  function GetSlot<T>(def: OpDef, kind: Construct, op: Op, args: seq<T>, idx: nat): (r: Result<Got<T>, VerifyError>)
    requires idx < |def.Slots(kind)|
    ensures GetVariadicSizes(def, kind, op).Err? ==> r == Err(GetVariadicSizes(def, kind, op).error)
  {
    var sizes :- GetVariadicSizes(def, kind, op);
    SlotAt(kind, def.Slots(kind), sizes, args, idx)
  }

  // ---------------------------------------------------------------------
  // Properties

  lemma {:induction false} VariadicCountPrefix(slots: seq<Slot>, idx: nat)
    requires idx <= |slots|
    ensures VariadicCount(slots[..idx]) <= VariadicCount(slots)
    ensures idx < |slots| ==>
      VariadicCount(slots[..idx + 1]) == VariadicCount(slots[..idx]) + (if slots[idx].card.IsVariadic() then 1 else 0)
    ensures idx < |slots| && slots[idx].card.IsVariadic() ==> VariadicCount(slots[..idx]) < VariadicCount(slots)
    decreases |slots| - idx
  {
    if idx < |slots| {
      assert slots[..idx + 1][..idx] == slots[..idx];
      VariadicCountPrefix(slots, idx + 1);
    } else {
      assert slots[..idx] == slots;
    }
  }

  /** The per-slot sizes of a prefix of the slots are the prefix of the
      per-slot sizes. */
  lemma {:induction false} SegmentSizesPrefix(slots: seq<Slot>, sizes: seq<int>, idx: nat)
    requires |sizes| == VariadicCount(slots)
    requires idx <= |slots|
    ensures VariadicCount(slots[..idx]) <= |sizes|
    ensures SegmentSizes(slots, sizes)[..idx] == SegmentSizes(slots[..idx], sizes[..VariadicCount(slots[..idx])])
    decreases |slots|
  {
    VariadicCountPrefix(slots, idx);
    if idx == |slots| {
      assert slots[..idx] == slots;
      assert sizes[..|sizes|] == sizes;
    } else {
      var n := |slots| - 1;
      var sizes' := if slots[n].card.IsVariadic() then sizes[..|sizes| - 1] else sizes;
      SegmentSizesDropLast(slots, sizes, idx);
      SegmentSizesPrefix(slots[..n], sizes', idx);
      assert slots[..n][..idx] == slots[..idx];
      VariadicCountPrefix(slots[..n], idx);
      assert sizes'[..VariadicCount(slots[..idx])] == sizes[..VariadicCount(slots[..idx])];
    }
  }

  /** Below the last slot, the per-slot sizes do not depend on it. */
  lemma SegmentSizesDropLast(slots: seq<Slot>, sizes: seq<int>, idx: nat)
    requires |sizes| == VariadicCount(slots)
    requires idx < |slots|
    ensures var n := |slots| - 1;
      var sizes' := if slots[n].card.IsVariadic() then sizes[..|sizes| - 1] else sizes;
      SegmentSizes(slots, sizes)[..idx] == SegmentSizes(slots[..n], sizes')[..idx]
  {
  }

  /** The start offset `idx - prevVar + sum(sizes[:prevVar])` is the sum of
      the per-slot sizes of every slot before `idx`. */
  lemma StartOffsetIsPrefixSum(slots: seq<Slot>, sizes: seq<int>, idx: nat)
    requires |sizes| == VariadicCount(slots)
    requires idx <= |slots|
    ensures VariadicCount(slots[..idx]) <= |sizes|
    ensures StartOffset(idx, PreviousVariadics(slots, idx), sizes) == Sum(SegmentSizes(slots, sizes)[..idx])
  {
    var k := VariadicCount(slots[..idx]);
    SegmentSizesPrefix(slots, sizes, idx);
    SegmentSizesSum(slots[..idx], sizes[..k]);
  }

  /** Under the same conditions, every slot's segment lies inside the
      flat list: it starts at a non-negative offset, has a non-negative
      size (one for a non-variadic slot) and ends within the list. */
  lemma SegmentWithinList(slots: seq<Slot>, sizes: seq<int>, flatLen: nat, idx: nat)
    requires idx < |slots|
    requires |sizes| == VariadicCount(slots)
    requires forall i :: 0 <= i < |sizes| ==> sizes[i] >= 0
    requires Sum(SegmentSizes(slots, sizes)) == flatLen
    ensures var seg := SegmentSizes(slots, sizes);
      && seg[idx] >= 0
      && (!slots[idx].card.IsVariadic() ==> seg[idx] == 1)
      && 0 <= Sum(seg[..idx])
      && Sum(seg[..idx]) + seg[idx] <= flatLen
  {
    var seg := SegmentSizes(slots, sizes);
    SegmentSizesNonNegative(slots, sizes);
    SumNonNegative(seg[..idx]);
    SumNonNegative(seg[idx + 1..]);
    SumPrefixStep(seg, idx);
    assert seg == seg[..idx + 1] + seg[idx + 1..];
    SumAppend(seg[..idx + 1], seg[idx + 1..]);
    if !slots[idx].card.IsVariadic() {
      SegmentSizeOfFixed(slots, sizes, idx);
    }
  }

  /** With sizes that are non-negative and account for every flat element,
      each accessor returns exactly its slot's segment of the flat list:
      the element at its start offset for a single slot, the slice of its
      size for a variadic slot, and for an optional slot `None` at size
      zero and the element at its start offset otherwise. */
  lemma SlotAtReadsSegment<T>(kind: Construct, slots: seq<Slot>, sizes: seq<int>, args: seq<T>, idx: nat)
    requires idx < |slots|
    requires |sizes| == VariadicCount(slots)
    requires forall i :: 0 <= i < |sizes| ==> sizes[i] >= 0
    requires Sum(SegmentSizes(slots, sizes)) == |args|
    ensures 0 <= Sum(SegmentSizes(slots, sizes)[..idx]) && 0 <= SegmentSizes(slots, sizes)[idx]
    ensures Sum(SegmentSizes(slots, sizes)[..idx]) + SegmentSizes(slots, sizes)[idx] <= |args|
    ensures !slots[idx].card.IsVariadic() ==> SegmentSizes(slots, sizes)[idx] == 1
    ensures slots[idx].card == Single ==>
      SlotAt(kind, slots, sizes, args, idx) == Ok(One(args[Sum(SegmentSizes(slots, sizes)[..idx])]))
    ensures slots[idx].card == Variadic ==>
      var start := Sum(SegmentSizes(slots, sizes)[..idx]);
      SlotAt(kind, slots, sizes, args, idx) == Ok(Many(args[start..start + SegmentSizes(slots, sizes)[idx]]))
    ensures slots[idx].card == Optional && SegmentSizes(slots, sizes)[idx] == 0 ==>
      SlotAt(kind, slots, sizes, args, idx) == Ok(Nothing)
    ensures slots[idx].card == Optional && SegmentSizes(slots, sizes)[idx] != 0 ==>
      SlotAt(kind, slots, sizes, args, idx) == Ok(One(args[Sum(SegmentSizes(slots, sizes)[..idx])]))
  {
    SegmentWithinList(slots, sizes, |args|, idx);
    match slots[idx].card
    case Single => ReadsSingleSegment(kind, slots, sizes, args, idx);
    case Variadic => ReadsVariadicSegment(kind, slots, sizes, args, idx);
    case Optional => ReadsOptionalSegment(kind, slots, sizes, args, idx);
  }

  lemma ReadsSingleSegment<T>(kind: Construct, slots: seq<Slot>, sizes: seq<int>, args: seq<T>, idx: nat)
    requires idx < |slots| && slots[idx].card == Single
    requires |sizes| == VariadicCount(slots)
    requires forall i :: 0 <= i < |sizes| ==> sizes[i] >= 0
    requires Sum(SegmentSizes(slots, sizes)) == |args|
    ensures 0 <= Sum(SegmentSizes(slots, sizes)[..idx]) < |args|
    ensures SlotAt(kind, slots, sizes, args, idx) == Ok(One(args[Sum(SegmentSizes(slots, sizes)[..idx])]))
  {
    var start, size := SegmentFacts(slots, sizes, |args|, idx);
    assert PyIndex(args, start) == Some(args[start]);
  }

  lemma ReadsVariadicSegment<T>(kind: Construct, slots: seq<Slot>, sizes: seq<int>, args: seq<T>, idx: nat)
    requires idx < |slots| && slots[idx].card == Variadic
    requires |sizes| == VariadicCount(slots)
    requires 0 <= Sum(SegmentSizes(slots, sizes)[..idx]) <= Sum(SegmentSizes(slots, sizes)[..idx]) + SegmentSizes(slots, sizes)[idx] <= |args|
    ensures var start := Sum(SegmentSizes(slots, sizes)[..idx]);
      SlotAt(kind, slots, sizes, args, idx) == Ok(Many(args[start..start + SegmentSizes(slots, sizes)[idx]]))
  {
    StartOffsetIsPrefixSum(slots, sizes, idx);
    SegmentSizeOfVariadic(slots, sizes, idx);
    ReadVariadic(kind, slots, sizes, args, idx, Sum(SegmentSizes(slots, sizes)[..idx]), SegmentSizes(slots, sizes)[idx]);
  }

  lemma ReadsOptionalSegment<T>(kind: Construct, slots: seq<Slot>, sizes: seq<int>, args: seq<T>, idx: nat)
    requires idx < |slots| && slots[idx].card == Optional
    requires |sizes| == VariadicCount(slots)
    requires forall i :: 0 <= i < |sizes| ==> sizes[i] >= 0
    requires Sum(SegmentSizes(slots, sizes)) == |args|
    ensures SegmentSizes(slots, sizes)[idx] == 0 ==> SlotAt(kind, slots, sizes, args, idx) == Ok(Nothing)
    ensures SegmentSizes(slots, sizes)[idx] != 0 ==>
      0 <= Sum(SegmentSizes(slots, sizes)[..idx]) < |args| &&
      SlotAt(kind, slots, sizes, args, idx) == Ok(One(args[Sum(SegmentSizes(slots, sizes)[..idx])]))
  {
    var start, size := SegmentFacts(slots, sizes, |args|, idx);
    if size != 0 {
      assert PyIndex(args, start) == Some(args[start]);
    }
  }

  /** Where slot `idx` starts and how long it is, in both the accessor's
      terms and the per-slot sizes'. */
  lemma SegmentFacts(slots: seq<Slot>, sizes: seq<int>, flatLen: nat, idx: nat) returns (start: int, size: int)
    requires idx < |slots|
    requires |sizes| == VariadicCount(slots)
    requires forall i :: 0 <= i < |sizes| ==> sizes[i] >= 0
    requires Sum(SegmentSizes(slots, sizes)) == flatLen
    ensures start == Sum(SegmentSizes(slots, sizes)[..idx]) && size == SegmentSizes(slots, sizes)[idx]
    ensures StartOffset(idx, PreviousVariadics(slots, idx), sizes) == start
    ensures slots[idx].card.IsVariadic() ==> sizes[PreviousVariadics(slots, idx)] == size
    ensures 0 <= start && 0 <= size && start + size <= flatLen
    ensures !slots[idx].card.IsVariadic() ==> size == 1
  {
    SegmentWithinList(slots, sizes, flatLen, idx);
    StartOffsetIsPrefixSum(slots, sizes, idx);
    start := Sum(SegmentSizes(slots, sizes)[..idx]);
    size := SegmentSizes(slots, sizes)[idx];
    if slots[idx].card.IsVariadic() {
      SegmentSizeOfVariadic(slots, sizes, idx);
    }
  }

  lemma ReadSingle<T>(kind: Construct, slots: seq<Slot>, sizes: seq<int>, args: seq<T>, idx: nat, start: int)
    requires idx < |slots| && slots[idx].card == Single
    requires |sizes| == VariadicCount(slots)
    requires StartOffset(idx, PreviousVariadics(slots, idx), sizes) == start
    requires 0 <= start < |args|
    ensures SlotAt(kind, slots, sizes, args, idx) == Ok(One(args[start]))
  {
    assert PyIndex(args, start) == Some(args[start]);
  }

  lemma ReadVariadic<T>(kind: Construct, slots: seq<Slot>, sizes: seq<int>, args: seq<T>, idx: nat, start: int, size: int)
    requires idx < |slots| && slots[idx].card == Variadic
    requires |sizes| == VariadicCount(slots)
    requires StartOffset(idx, PreviousVariadics(slots, idx), sizes) == start
    requires sizes[PreviousVariadics(slots, idx)] == size
    requires 0 <= start <= start + size <= |args|
    ensures SlotAt(kind, slots, sizes, args, idx) == Ok(Many(args[start..start + size]))
  {
    var prev := PreviousVariadics(slots, idx);
    PySliceInRange(args, start, start + size);
    assert PySlice(args, StartOffset(idx, prev, sizes), StartOffset(idx, prev, sizes) + sizes[prev]) == args[start..start + size];
  }

  lemma ReadOptional<T>(kind: Construct, slots: seq<Slot>, sizes: seq<int>, args: seq<T>, idx: nat, start: int, size: int)
    requires idx < |slots| && slots[idx].card == Optional
    requires |sizes| == VariadicCount(slots)
    requires StartOffset(idx, PreviousVariadics(slots, idx), sizes) == start
    requires sizes[PreviousVariadics(slots, idx)] == size
    requires 0 <= start <= start + size <= |args|
    ensures size == 0 ==> SlotAt(kind, slots, sizes, args, idx) == Ok(Nothing)
    ensures size != 0 ==> SlotAt(kind, slots, sizes, args, idx) == Ok(One(args[start]))
  {
    if size != 0 {
      assert PyIndex(args, start) == Some(args[start]);
    }
  }

  lemma {:induction false} SegmentSizesNonNegative(slots: seq<Slot>, sizes: seq<int>)
    requires |sizes| == VariadicCount(slots)
    requires forall i :: 0 <= i < |sizes| ==> sizes[i] >= 0
    ensures forall i :: 0 <= i < |slots| ==> SegmentSizes(slots, sizes)[i] >= 0
    decreases |slots|
  {
    if |slots| > 0 {
      var n := |slots| - 1;
      if slots[n].card.IsVariadic() {
        SegmentSizesNonNegative(slots[..n], sizes[..|sizes| - 1]);
      } else {
        SegmentSizesNonNegative(slots[..n], sizes);
      }
    }
  }

  /** A variadic slot's per-slot size is its resolved variadic size. */
  lemma SegmentSizeOfVariadic(slots: seq<Slot>, sizes: seq<int>, idx: nat)
    requires |sizes| == VariadicCount(slots)
    requires idx < |slots| && slots[idx].card.IsVariadic()
    ensures VariadicCount(slots[..idx]) < |sizes|
    ensures SegmentSizes(slots, sizes)[idx] == sizes[VariadicCount(slots[..idx])]
  {
    VariadicCountPrefix(slots, idx);
    var k := VariadicCount(slots[..idx]);
    var p := slots[..idx + 1];
    assert VariadicCount(p) == k + 1;
    SegmentSizesPrefix(slots, sizes, idx + 1);
    var vs := sizes[..k + 1];
    var seg := SegmentSizes(p, vs);
    assert SegmentSizes(slots, sizes)[..idx + 1] == seg;
    SegmentSizesLast(p, vs);
    assert seg[idx] == vs[k] == sizes[k];
    assert SegmentSizes(slots, sizes)[idx] == SegmentSizes(slots, sizes)[..idx + 1][idx];
  }

  /** A non-variadic slot's per-slot size is one. */
  lemma SegmentSizeOfFixed(slots: seq<Slot>, sizes: seq<int>, idx: nat)
    requires |sizes| == VariadicCount(slots)
    requires idx < |slots| && !slots[idx].card.IsVariadic()
    ensures SegmentSizes(slots, sizes)[idx] == 1
  {
    VariadicCountPrefix(slots, idx);
    var k := VariadicCount(slots[..idx]);
    var p := slots[..idx + 1];
    assert VariadicCount(p) == k;
    SegmentSizesPrefix(slots, sizes, idx + 1);
    var vs := sizes[..k];
    var seg := SegmentSizes(p, vs);
    assert SegmentSizes(slots, sizes)[..idx + 1] == seg;
    SegmentSizesLast(p, vs);
    assert seg[idx] == 1;
    assert SegmentSizes(slots, sizes)[idx] == SegmentSizes(slots, sizes)[..idx + 1][idx];
  }
}
