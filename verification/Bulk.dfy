/**
 Bulk execution of generated models (src/bulk.c, include/cxpr/bulk.h): one model evaluation per
 element of a host-owned view with strided input, output and state storage.
 */
module Bulk {
  import opened Common
  import opened Bytes
  import opened Blocks

  const ABI_VERSION: nat := 5
  const MAX_FIELDS: nat := 64

  /** A scalar as the generated ABI transports it. */
  datatype Value = Value(kind: int, payload: int)

  datatype Field = Field(name: seq<Byte>, kind: nat)

  /** `cxpr_generated_model_descriptor`; a tick returns the new state block and the outputs. */
  datatype Descriptor = Descriptor(
    name: seq<Byte>,
    abiVersion: nat,
    stateSize: nat,
    inputs: seq<Field>,
    outputs: seq<Field>,
    params: seq<Field>,
    tick: (seq<Byte>, seq<Value>, seq<Value>) -> (seq<Byte>, seq<Value>),
    reset: Option<seq<Byte> -> seq<Byte>>)
  {
    /** `cxpr_generated_model_descriptor_abi_valid` */
    predicate AbiValid() {
      && abiVersion == ABI_VERSION
      && |inputs| <= MAX_FIELDS && |outputs| <= MAX_FIELDS && |params| <= MAX_FIELDS
      && (forall i | 0 <= i < |inputs| :: 1 <= inputs[i].kind <= 3)
      && (forall i | 0 <= i < |outputs| :: 1 <= outputs[i].kind <= 3)
      && (forall i | 0 <= i < |params| :: 1 <= params[i].kind <= 3)
    }

    /** Generated code fills exactly its state block and its outputs. */
    ghost predicate Lawful() {
      && (forall s: seq<Byte>, row: seq<Value>, ps: seq<Value> :: |s| == stateSize ==>
            |tick(s, row, ps).0| == stateSize && |tick(s, row, ps).1| == |outputs|)
      && (reset.Some? ==> forall s: seq<Byte> :: |s| == stateSize ==> |reset.value(s)| == stateSize)
    }
  }

  datatype InColumn = InColumn(values: Option<seq<Value>>, stride: nat)
  datatype OutColumn = OutColumn(values: array?<Value>, stride: nat)

  datatype View = View(
    inputs: seq<InColumn>,
    params: seq<Value>,
    outputs: seq<OutColumn>,
    states: array?<Byte>,
    stateStride: nat,
    elementCount: nat)

  datatype Status =
    | Success | InvalidArgument | InvalidDescriptor | SchemaMismatch | MissingBuffer | StateStrideTooSmall
    | RangeOutOfBounds

  // ----- validation -----

  /** `element_count - 1 > SIZE_MAX / stride` */
  predicate Overflows(count: nat, stride: nat) {
    count > 0 && stride > 0 && count - 1 > SIZE_MAX / stride
  }

  function InColumnStatus(c: InColumn, count: nat): Status {
    if c.values.None? then MissingBuffer else if Overflows(count, c.stride) then InvalidArgument else Success
  }

  function OutColumnStatus(c: OutColumn, count: nat): Status {
    if c.values == null || (count > 1 && c.stride == 0) then MissingBuffer
    else if Overflows(count, c.stride) then InvalidArgument
    else Success
  }

  /** A view that passes `cxpr_bulk_validate`. */
  ghost predicate Validated(d: Descriptor, v: View) {
    && d.AbiValid()
    && |v.inputs| == |d.inputs| && |v.outputs| == |d.outputs| && |v.params| == |d.params|
    && (forall i | 0 <= i < |v.inputs| :: InColumnStatus(v.inputs[i], v.elementCount) == Success)
    && (forall i | 0 <= i < |v.outputs| :: OutColumnStatus(v.outputs[i], v.elementCount) == Success)
    && (d.stateSize > 0 ==>
          v.states != null && d.stateSize <= v.stateStride && !Overflows(v.elementCount, v.stateStride))
  }

  function StateStatus(d: Descriptor, v: View): Status {
    if d.stateSize == 0 then Success
    else if v.states == null then MissingBuffer
    else if v.stateStride < d.stateSize then StateStrideTooSmall
    else if Overflows(v.elementCount, v.stateStride) then InvalidArgument
    else Success
  }

  /** What is wrong with each part of a view, in the order in which the parts are checked. */
  ghost function Statuses(d: Descriptor, v: View): seq<Status> {
    seq(|v.inputs|, i requires 0 <= i < |v.inputs| => InColumnStatus(v.inputs[i], v.elementCount))
    + seq(|v.outputs|, i requires 0 <= i < |v.outputs| => OutColumnStatus(v.outputs[i], v.elementCount))
    + [StateStatus(d, v)]
  }

  /** The first failure among some statuses, or success. */
  ghost predicate IsFirstFailure(ss: seq<Status>, status: Status) {
    if status == Success then forall i | 0 <= i < |ss| :: ss[i] == Success
    else exists i | 0 <= i < |ss| :: ss[i] == status && forall j | 0 <= j < i :: ss[j] == Success
  }

  predicate SchemaMatches(d: Descriptor, v: View) {
    |v.inputs| == |d.inputs| && |v.outputs| == |d.outputs| && |v.params| == |d.params|
  }

  /** `cxpr_bulk_validate` */
  method Validate(d: Descriptor, v: View) returns (status: Status)
    ensures status == Success <==> Validated(d, v)
    ensures status == InvalidDescriptor <==> !d.AbiValid()
    ensures status == SchemaMismatch <==> d.AbiValid() && !SchemaMatches(d, v)
    ensures d.AbiValid() && SchemaMatches(d, v) ==> IsFirstFailure(Statuses(d, v), status)
    ensures status != RangeOutOfBounds
  {
    if !d.AbiValid() {
      return InvalidDescriptor;
    }
    if |v.inputs| != |d.inputs| || |v.outputs| != |d.outputs| || |v.params| != |d.params| {
      return SchemaMismatch;
    }
    ghost var ss := Statuses(d, v);
    for i := 0 to |v.inputs|
      invariant forall k | 0 <= k < i :: ss[k] == Success
    {
      status := InColumnStatus(v.inputs[i], v.elementCount);
      assert ss[i] == status;
      if status != Success { return; }
    }
    for i := 0 to |v.outputs|
      invariant forall k | 0 <= k < |v.inputs| + i :: ss[k] == Success
    {
      status := OutColumnStatus(v.outputs[i], v.elementCount);
      assert ss[|v.inputs| + i] == status;
      if status != Success { return; }
    }
    status := StateStatus(d, v);
    assert ss[|v.inputs| + |v.outputs|] == status;
    AllSucceed(d, v, status);
  }

  lemma AllSucceed(d: Descriptor, v: View, status: Status)
    requires d.AbiValid() && SchemaMatches(d, v) && status == StateStatus(d, v)
    requires forall k | 0 <= k < |v.inputs| + |v.outputs| :: Statuses(d, v)[k] == Success
    ensures status == Success <==> Validated(d, v)
  {
    var ss := Statuses(d, v);
    forall i | 0 <= i < |v.inputs| ensures InColumnStatus(v.inputs[i], v.elementCount) == Success {
      assert ss[i] == Success;
    }
    forall i | 0 <= i < |v.outputs| ensures OutColumnStatus(v.outputs[i], v.elementCount) == Success {
      assert ss[|v.inputs| + i] == Success;
    }
  }

  /** The division guard is exact: it refuses a stride exactly when the last offset overflows `size_t`. */
  lemma OverflowsExactly(count: nat, stride: nat)
    ensures Overflows(count, stride) <==> count > 0 && (count - 1) * stride > 0xFFFF_FFFF_FFFF_FFFF
  {
    if count > 0 && stride > 0 {
      var q, r := SIZE_MAX / stride, SIZE_MAX % stride;
      assert SIZE_MAX == q * stride + r;
      if count - 1 > q {
        MulMonotone(q + 1, count - 1, stride);
        assert (q + 1) * stride == q * stride + stride;
      } else {
        MulMonotone(count - 1, q, stride);
      }
    }
  }

  /** Which fault of a column, of the state buffer or of the model gives which status. */
  lemma FaultsNamed(d: Descriptor, v: View, c: InColumn, o: OutColumn, n: nat)
    ensures InColumnStatus(c, n)
         == if c.values.None? then MissingBuffer
            else if n > 0 && (n - 1) * c.stride > SIZE_MAX then InvalidArgument else Success
    ensures OutColumnStatus(o, n)
         == if o.values == null || (n > 1 && o.stride == 0) then MissingBuffer
            else if n > 0 && (n - 1) * o.stride > SIZE_MAX then InvalidArgument else Success
    ensures d.stateSize > 0 ==>
              StateStatus(d, v)
              == if v.states == null then MissingBuffer
                 else if v.stateStride < d.stateSize then StateStrideTooSmall
                 else if v.elementCount > 0 && (v.elementCount - 1) * v.stateStride > SIZE_MAX then InvalidArgument
                 else Success
    ensures d.stateSize == 0 ==> StateStatus(d, v) == Success
    ensures d.AbiValid() ==> d.abiVersion == 5 && |d.inputs| <= 64 && |d.outputs| <= 64 && |d.params| <= 64
  {
    OverflowsExactly(n, c.stride);
    OverflowsExactly(n, o.stride);
    OverflowsExactly(v.elementCount, v.stateStride);
  }

  /** No element offset of a validated column or state buffer overflows `size_t`. */
  lemma OffsetFits(count: nat, stride: nat, i: nat)
    requires !Overflows(count, stride) && i < count
    ensures i * stride <= SIZE_MAX
  {
    if stride > 0 {
      MulMonotone(i, count - 1, stride);
      MulMonotone(count - 1, SIZE_MAX / stride, stride);
      assert SIZE_MAX / stride * stride <= SIZE_MAX;
    }
  }

  // ----- what one run computes -----

  /** The storage a host must provide: every strided access is covered. */
  ghost predicate Covered(d: Descriptor, v: View) {
    && (forall j | 0 <= j < |v.inputs| && v.inputs[j].values.Some? && v.elementCount > 0 ::
          (v.elementCount - 1) * v.inputs[j].stride < |v.inputs[j].values.value|)
    && (forall j | 0 <= j < |v.outputs| && v.outputs[j].values != null && v.elementCount > 0 ::
          (v.elementCount - 1) * v.outputs[j].stride < v.outputs[j].values.Length)
    && RoomForStates(d, v)
  }

  /** Output columns are separate buffers. */
  ghost predicate SeparateOutputs(v: View) {
    forall j, k | 0 <= j < k < |v.outputs| :: v.outputs[j].values != v.outputs[k].values
  }

  /** The value of an input column at an element; a zero stride broadcasts the first value. */
  function Input(c: InColumn, count: nat, i: nat): Value
    requires c.values.Some? && i < count && (count - 1) * c.stride < |c.values.value|
  {
    MulMonotone(i, count - 1, c.stride);
    c.values.value[i * c.stride]
  }

  ghost function Row(d: Descriptor, v: View, i: nat): (row: seq<Value>)
    requires Validated(d, v) && Covered(d, v) && i < v.elementCount
    ensures |row| == |v.inputs|
  {
    seq(|v.inputs|, j requires 0 <= j < |v.inputs| =>
      assert InColumnStatus(v.inputs[j], v.elementCount) == Success;
      Input(v.inputs[j], v.elementCount, i))
  }

  /** The host's state buffer covers every block the view describes. */
  ghost predicate RoomForStates(d: Descriptor, v: View) {
    v.states != null ==> Room(v.states.Length, v.elementCount, v.stateStride, d.stateSize)
  }

  predicate HasStates(d: Descriptor, v: View) {
    d.stateSize > 0 ==> v.states != null && d.stateSize <= v.stateStride
  }

  /** The state blocks of a view; a model without state has empty ones. */
  ghost function States(d: Descriptor, v: View): (bs: seq<seq<Byte>>)
    requires HasStates(d, v) && RoomForStates(d, v)
    reads v.states
    ensures |bs| == v.elementCount
    ensures forall i | 0 <= i < |bs| :: |bs[i]| == d.stateSize
  {
    if d.stateSize == 0 then seq(v.elementCount, i => [])
    else AllBlocks(v.states[..], v.elementCount, v.stateStride, d.stateSize)
  }

  /** State blocks after ticking the elements from `begin` up to `end`. */
  ghost function Ticked(d: Descriptor, rows: seq<seq<Value>>, params: seq<Value>,
                        bs: seq<seq<Byte>>, begin: nat, end: nat): (r: seq<seq<Byte>>)
    requires |rows| == |bs|
    ensures |r| == |bs|
  {
    seq(|bs|, i requires 0 <= i < |bs| =>
      if begin <= i < end then d.tick(bs[i], rows[i], params).0 else bs[i])
  }

  /** Running a range is running any split of it. */
  lemma RunSplits(d: Descriptor, rows: seq<seq<Value>>, params: seq<Value>, bs: seq<seq<Byte>>,
                  begin: nat, mid: nat, end: nat)
    requires |rows| == |bs| && begin <= mid <= end
    ensures Ticked(d, rows, params, Ticked(d, rows, params, bs, begin, mid), mid, end)
         == Ticked(d, rows, params, bs, begin, end)
  {
  }

  /** Disjoint ranges may run in either order. */
  lemma DisjointRangesCommute(d: Descriptor, rows: seq<seq<Value>>, params: seq<Value>, bs: seq<seq<Byte>>,
                              a: nat, b: nat, p: nat, q: nat)
    requires |rows| == |bs| && (b <= p || q <= a)
    ensures Ticked(d, rows, params, Ticked(d, rows, params, bs, a, b), p, q)
         == Ticked(d, rows, params, Ticked(d, rows, params, bs, p, q), a, b)
  {
  }

  ghost function Rows(d: Descriptor, v: View): (rows: seq<seq<Value>>)
    requires Validated(d, v) && Covered(d, v)
    ensures |rows| == v.elementCount
  {
    seq(v.elementCount, i requires 0 <= i < v.elementCount => Row(d, v, i))
  }

  /** What column `j` receives from each element. */
  ghost function Produced(d: Descriptor, rows: seq<seq<Value>>, params: seq<Value>, bs: seq<seq<Byte>>,
                          j: nat): (r: seq<Value>)
    requires d.Lawful() && j < |d.outputs| && |rows| == |bs| && forall i | 0 <= i < |bs| :: |bs[i]| == d.stateSize
    ensures |r| == |bs|
  {
    seq(|bs|, i requires 0 <= i < |bs| => d.tick(bs[i], rows[i], params).1[j])
  }

  /** A column after elements `begin` up to `end` wrote their values at their strided places. */
  ghost function Written(col: seq<Value>, stride: nat, values: seq<Value>, begin: nat, end: nat): (r: seq<Value>)
    requires end <= |values| && (|values| > 0 ==> (|values| - 1) * stride < |col|)
    ensures |r| == |col|
    decreases end
  {
    if end <= begin then col
    else
      MulMonotone(end - 1, |values| - 1, stride);
      Written(col, stride, values, begin, end - 1)[(end - 1) * stride := values[end - 1]]
  }

  /** Each element of the range finds its own value in the column; nothing else changes. */
  lemma {:induction false} WrittenAt(col: seq<Value>, stride: nat, values: seq<Value>, begin: nat, end: nat, k: nat)
    requires begin <= end <= |values| && (|values| > 0 ==> (|values| - 1) * stride < |col|)
    requires |values| > 1 ==> stride > 0
    requires k < |col|
    ensures var r := Written(col, stride, values, begin, end);
            && (forall i | begin <= i < end && k == i * stride :: r[k] == values[i])
            && ((forall i | begin <= i < end :: k != i * stride) ==> r[k] == col[k])
    decreases end
  {
    if begin < end {
      WrittenAt(col, stride, values, begin, end - 1, k);
      forall i | begin <= i < end - 1 && k == i * stride ensures k != (end - 1) * stride {
        MulMonotone(i + 1, end - 1, stride);
        assert (i + 1) * stride == i * stride + stride;
      }
    }
  }

  /** Only the values of the range matter. */
  lemma {:induction false} WrittenCongruent(col: seq<Value>, stride: nat, values: seq<Value>, values': seq<Value>,
                                            begin: nat, end: nat)
    requires end <= |values| == |values'| && (|values| > 0 ==> (|values| - 1) * stride < |col|)
    requires forall i | begin <= i < end :: values[i] == values'[i]
    ensures Written(col, stride, values, begin, end) == Written(col, stride, values', begin, end)
    decreases end
  {
    if begin < end {
      WrittenCongruent(col, stride, values, values', begin, end - 1);
    }
  }

  lemma {:induction false} WrittenSplits(col: seq<Value>, stride: nat, values: seq<Value>, begin: nat, mid: nat,
                                         end: nat)
    requires begin <= mid <= end <= |values| && (|values| > 0 ==> (|values| - 1) * stride < |col|)
    ensures Written(Written(col, stride, values, begin, mid), stride, values, mid, end)
         == Written(col, stride, values, begin, end)
    decreases end
  {
    if mid < end {
      WrittenSplits(col, stride, values, begin, mid, end - 1);
    }
  }

  lemma PlacesDistinct(i: nat, k: nat, stride: nat)
    requires i != k && stride > 0
    ensures i * stride != k * stride
  {
    if i < k {
      BlocksDisjoint(stride, stride, i, k);
    } else {
      BlocksDisjoint(stride, stride, k, i);
    }
  }

  /** An element that writes at `k` shares the place with no element of another range. */
  lemma WrittenOver(col: seq<Value>, stride: nat, values: seq<Value>, i: nat, p: nat, q: nat)
    requires i < |values| && p <= q <= |values| && (i < p || q <= i)
    requires (|values| - 1) * stride < |col| && (|values| > 1 ==> stride > 0)
    ensures i * stride < |col| && Written(col, stride, values, p, q)[i * stride] == col[i * stride]
  {
    MulMonotone(i, |values| - 1, stride);
    forall k | p <= k < q ensures i * stride != k * stride {
      PlacesDistinct(i, k, stride);
    }
    WrittenAt(col, stride, values, p, q, i * stride);
  }

  lemma WrittenOwn(col: seq<Value>, stride: nat, values: seq<Value>, i: nat, a: nat, b: nat)
    requires a <= i < b <= |values| && (|values| - 1) * stride < |col| && (|values| > 1 ==> stride > 0)
    ensures i * stride < |col| && Written(col, stride, values, a, b)[i * stride] == values[i]
  {
    MulMonotone(i, |values| - 1, stride);
    WrittenAt(col, stride, values, a, b, i * stride);
  }

  /** Element `i` of one of two ranges writes at `k`. */
  predicate Writes(k: int, i: int, stride: nat, a: nat, b: nat, p: nat, q: nat) {
    (a <= i < b || p <= i < q) && k == i * stride
  }

  /** One range after another: each element finds its own value. */
  lemma WrittenBoth(col: seq<Value>, stride: nat, values: seq<Value>, a: nat, b: nat, p: nat, q: nat, i: nat)
    requires a <= b <= |values| && p <= q <= |values| && (b <= p || q <= a) && i < |values|
    requires (a <= i < b || p <= i < q)
    requires (|values| - 1) * stride < |col| && (|values| > 1 ==> stride > 0)
    ensures i * stride < |col|
    ensures Written(Written(col, stride, values, a, b), stride, values, p, q)[i * stride] == values[i]
  {
    var x := Written(col, stride, values, a, b);
    if p <= i < q {
      WrittenOwn(x, stride, values, i, p, q);
    } else {
      WrittenOwn(col, stride, values, i, a, b);
      WrittenOver(x, stride, values, i, p, q);
    }
  }

  lemma WrittenNeither(col: seq<Value>, stride: nat, values: seq<Value>, a: nat, b: nat, p: nat, q: nat, k: nat)
    requires a <= b <= |values| && p <= q <= |values| && k < |col|
    requires (|values| > 0 ==> (|values| - 1) * stride < |col|) && (|values| > 1 ==> stride > 0)
    requires forall i | 0 <= i < |values| :: !Writes(k, i, stride, a, b, p, q)
    ensures Written(Written(col, stride, values, a, b), stride, values, p, q)[k] == col[k]
  {
    forall i | a <= i < b || p <= i < q ensures k != i * stride {
      assert !Writes(k, i, stride, a, b, p, q);
    }
    WrittenAt(col, stride, values, a, b, k);
    WrittenAt(Written(col, stride, values, a, b), stride, values, p, q, k);
  }

  lemma WrittenCommutes(col: seq<Value>, stride: nat, values: seq<Value>, a: nat, b: nat, p: nat, q: nat)
    requires a <= b <= |values| && p <= q <= |values| && (b <= p || q <= a)
    requires (|values| > 0 ==> (|values| - 1) * stride < |col|) && (|values| > 1 ==> stride > 0)
    ensures Written(Written(col, stride, values, a, b), stride, values, p, q)
         == Written(Written(col, stride, values, p, q), stride, values, a, b)
  {
    var l := Written(Written(col, stride, values, a, b), stride, values, p, q);
    var r := Written(Written(col, stride, values, p, q), stride, values, a, b);
    forall k | 0 <= k < |col| ensures l[k] == r[k] {
      if i :| 0 <= i < |values| && Writes(k, i, stride, a, b, p, q) {
        WrittenBoth(col, stride, values, a, b, p, q, i);
        WrittenBoth(col, stride, values, p, q, a, b, i);
      } else {
        assert forall i | 0 <= i < |values| :: Writes(k, i, stride, p, q, a, b) ==> Writes(k, i, stride, a, b, p, q);
        WrittenNeither(col, stride, values, a, b, p, q, k);
        WrittenNeither(col, stride, values, p, q, a, b, k);
      }
    }
  }

  /** What an element produces depends on its own state only. */
  lemma ProducedElsewhere(d: Descriptor, rows: seq<seq<Value>>, params: seq<Value>, bs: seq<seq<Byte>>, j: nat,
                          begin: nat, end: nat)
    requires d.Lawful() && j < |d.outputs| && |rows| == |bs| && forall i | 0 <= i < |bs| :: |bs[i]| == d.stateSize
    ensures var after := Ticked(d, rows, params, bs, begin, end);
            && (forall i | 0 <= i < |after| :: |after[i]| == d.stateSize)
            && forall i | 0 <= i < |bs| && !(begin <= i < end) ::
                 Produced(d, rows, params, after, j)[i] == Produced(d, rows, params, bs, j)[i]
  {
    var after := Ticked(d, rows, params, bs, begin, end);
    forall i | 0 <= i < |after| ensures |after[i]| == d.stateSize {
      assert after[i] == if begin <= i < end then d.tick(bs[i], rows[i], params).0 else bs[i];
    }
  }

  /** Running a range writes what running any split of it writes. */
  lemma RunSplitsOutputs(d: Descriptor, rows: seq<seq<Value>>, params: seq<Value>, bs: seq<seq<Byte>>, j: nat,
                         col: seq<Value>, stride: nat, begin: nat, mid: nat, end: nat)
    requires d.Lawful() && j < |d.outputs| && |rows| == |bs| && forall i | 0 <= i < |bs| :: |bs[i]| == d.stateSize
    requires begin <= mid <= end <= |bs| && (|bs| > 0 ==> (|bs| - 1) * stride < |col|)
    ensures var after := Ticked(d, rows, params, bs, begin, mid);
            && (forall i | 0 <= i < |after| :: |after[i]| == d.stateSize)
            && Written(Written(col, stride, Produced(d, rows, params, bs, j), begin, mid), stride,
                       Produced(d, rows, params, after, j), mid, end)
               == Written(col, stride, Produced(d, rows, params, bs, j), begin, end)
  {
    var values := Produced(d, rows, params, bs, j);
    ProducedElsewhere(d, rows, params, bs, j, begin, mid);
    var values' := Produced(d, rows, params, Ticked(d, rows, params, bs, begin, mid), j);
    WrittenCongruent(Written(col, stride, values, begin, mid), stride, values', values, mid, end);
    WrittenSplits(col, stride, values, begin, mid, end);
  }

  /** Disjoint ranges write the same in either order. */
  lemma DisjointRangesCommuteOutputs(d: Descriptor, rows: seq<seq<Value>>, params: seq<Value>, bs: seq<seq<Byte>>,
                                     j: nat,
                                     col: seq<Value>, stride: nat, a: nat, b: nat, p: nat, q: nat)
    requires d.Lawful() && j < |d.outputs| && |rows| == |bs| && forall i | 0 <= i < |bs| :: |bs[i]| == d.stateSize
    requires a <= b <= |bs| && p <= q <= |bs| && (b <= p || q <= a)
    requires (|bs| > 0 ==> (|bs| - 1) * stride < |col|) && (|bs| > 1 ==> stride > 0)
    ensures var first, second := Ticked(d, rows, params, bs, a, b), Ticked(d, rows, params, bs, p, q);
            && (forall i | 0 <= i < |first| :: |first[i]| == d.stateSize)
            && (forall i | 0 <= i < |second| :: |second[i]| == d.stateSize)
            && Written(Written(col, stride, Produced(d, rows, params, bs, j), a, b), stride,
                       Produced(d, rows, params, first, j), p, q)
               == Written(Written(col, stride, Produced(d, rows, params, bs, j), p, q), stride,
                          Produced(d, rows, params, second, j), a, b)
  {
    var values := Produced(d, rows, params, bs, j);
    ProducedElsewhere(d, rows, params, bs, j, a, b);
    ProducedElsewhere(d, rows, params, bs, j, p, q);
    var first, second := Ticked(d, rows, params, bs, a, b), Ticked(d, rows, params, bs, p, q);
    WrittenCongruent(Written(col, stride, values, a, b), stride, Produced(d, rows, params, first, j), values, p, q);
    WrittenCongruent(Written(col, stride, values, p, q), stride, Produced(d, rows, params, second, j), values, a, b);
    WrittenCommutes(col, stride, values, a, b, p, q);
  }

  ghost function OutputArrays(outputs: seq<OutColumn>): set<object?> {
    set c | c in outputs :: c.values
  }

  // ----- the run loops -----

  /** Copy element `i`'s inputs into a row. */
  method ReadRow(d: Descriptor, v: View, i: nat) returns (row: seq<Value>)
    requires Validated(d, v) && Covered(d, v) && i < v.elementCount
    ensures row == Row(d, v, i)
  {
    row := [];
    for j := 0 to |v.inputs|
      invariant |row| == j
      invariant forall k | 0 <= k < j :: row[k] == Row(d, v, i)[k]
    {
      assert InColumnStatus(v.inputs[j], v.elementCount) == Success;
      var c := v.inputs[j];
      MulMonotone(i, v.elementCount - 1, c.stride);
      var index := if c.stride > 0 then i * c.stride else 0;
      row := row + [c.values.value[index]];
    }
  }

  /** Store element `i`'s outputs at its place in every column. */
  method WriteOutputs(d: Descriptor, v: View, i: nat, outs: seq<Value>)
    requires Validated(d, v) && Covered(d, v) && SeparateOutputs(v) && i < v.elementCount && |outs| == |v.outputs|
    modifies OutputArrays(v.outputs)
    ensures forall j | 0 <= j < |v.outputs| ::
              && v.outputs[j].values != null && i * v.outputs[j].stride < v.outputs[j].values.Length
              && v.outputs[j].values[..] == old(v.outputs[j].values[..])[i * v.outputs[j].stride := outs[j]]
  {
    forall j | 0 <= j < |v.outputs|
      ensures v.outputs[j].values != null && i * v.outputs[j].stride < v.outputs[j].values.Length
      ensures v.outputs[j].values in OutputArrays(v.outputs)
    {
      assert OutColumnStatus(v.outputs[j], v.elementCount) == Success;
      MulMonotone(i, v.elementCount - 1, v.outputs[j].stride);
    }
    for j := 0 to |v.outputs|
      invariant forall k | j <= k < |v.outputs| :: v.outputs[k].values[..] == old(v.outputs[k].values[..])
      invariant forall k | 0 <= k < j ::
                  v.outputs[k].values[..] == old(v.outputs[k].values[..])[i * v.outputs[k].stride := outs[k]]
    {
      v.outputs[j].values[i * v.outputs[j].stride] := outs[j];
    }
  }

  /** The state blocks with one of them replaced. */
  lemma StatesAfterSplice(d: Descriptor, v: View, s: seq<Byte>, i: nat, b: seq<Byte>)
    requires 0 < d.stateSize <= v.stateStride && i < v.elementCount && |b| == d.stateSize
    requires Room(|s|, v.elementCount, v.stateStride, d.stateSize)
    ensures i * v.stateStride + d.stateSize <= |s|
    ensures AllBlocks(Splice(s, i * v.stateStride, b), v.elementCount, v.stateStride, d.stateSize)
         == AllBlocks(s, v.elementCount, v.stateStride, d.stateSize)[i := b]
    ensures forall k | 0 <= k < |s| && !InBlock(k, i, v.stateStride, d.stateSize) ::
              Splice(s, i * v.stateStride, b)[k] == s[k]
  {
    RoomAt(|s|, v.elementCount, v.stateStride, d.stateSize, i);
    forall j | 0 <= j < v.elementCount
      ensures Block(Splice(s, i * v.stateStride, b), v.elementCount, v.stateStride, d.stateSize, j)
           == if i == j then b else Block(s, v.elementCount, v.stateStride, d.stateSize, j)
    {
      SpliceBlock(s, v.elementCount, v.stateStride, d.stateSize, i, b, j);
    }
  }

  /** Replace the state block of element `i`. */
  method StoreState(d: Descriptor, v: View, i: nat, b: seq<Byte>)
    requires Validated(d, v) && Covered(d, v) && i < v.elementCount && |b| == d.stateSize
    modifies v.states
    ensures States(d, v) == old(States(d, v))[i := b]
    ensures v.states != null ==> forall k | 0 <= k < v.states.Length && !InBlock(k, i, v.stateStride, d.stateSize) ::
              v.states[k] == old(v.states[k])
  {
    if d.stateSize > 0 {
      StatesAfterSplice(d, v, v.states[..], i, b);
      CopyInto(v.states, i * v.stateStride, b);
    } else {
      assert b == [];
    }
  }

  method LoadState(d: Descriptor, v: View, i: nat) returns (b: seq<Byte>)
    requires Validated(d, v) && Covered(d, v) && i < v.elementCount
    ensures b == States(d, v)[i]
  {
    if d.stateSize == 0 {
      b := [];
    } else {
      RoomAt(v.states.Length, v.elementCount, v.stateStride, d.stateSize, i);
      b := v.states[i * v.stateStride..i * v.stateStride + d.stateSize];
      assert b == v.states[..][i * v.stateStride..i * v.stateStride + d.stateSize];
    }
  }

  /** The contents of the output columns. */
  ghost function Columns(d: Descriptor, v: View): (cols: seq<seq<Value>>)
    requires Validated(d, v)
    reads OutputArrays(v.outputs)
    ensures |cols| == |v.outputs|
  {
    seq(|v.outputs|, j requires 0 <= j < |v.outputs| reads OutputArrays(v.outputs) =>
      assert OutColumnStatus(v.outputs[j], v.elementCount) == Success;
      assert v.outputs[j] in v.outputs && v.outputs[j].values in OutputArrays(v.outputs);
      v.outputs[j].values[..])
  }

  /** The bytes of the state buffer. */
  ghost function Raw(v: View): seq<Byte>
    reads v.states
  {
    if v.states == null then [] else v.states[..]
  }

  ghost predicate FitColumns(d: Descriptor, v: View, cols: seq<seq<Value>>) {
    && |cols| == |v.outputs|
    && forall j | 0 <= j < |cols| ::
         (v.elementCount > 0 ==> (v.elementCount - 1) * v.outputs[j].stride < |cols[j]|)
  }

  /** Columns after elements `begin` up to `end` of a population with states `bs` produced theirs. */
  ghost function WrittenColumns(d: Descriptor, v: View, bs: seq<seq<Byte>>, cols: seq<seq<Value>>, begin: nat, end: nat)
    : (r: seq<seq<Value>>)
    requires d.Lawful() && Validated(d, v) && Covered(d, v) && FitColumns(d, v, cols) && end <= v.elementCount
    requires |bs| == v.elementCount && forall i | 0 <= i < |bs| :: |bs[i]| == d.stateSize
    ensures |r| == |cols|
  {
    seq(|cols|, j requires 0 <= j < |cols| =>
      Written(cols[j], v.outputs[j].stride, Produced(d, Rows(d, v), v.params, bs, j), begin, end))
  }

  /** A buffer whose bytes outside all blocks are as before. */
  ghost predicate SamePadding(d: Descriptor, v: View, before: seq<Byte>, after: seq<Byte>) {
    && |before| == |after|
    && forall k | 0 <= k < |before| && Padding(k, v.elementCount, v.stateStride, d.stateSize) :: after[k] == before[k]
  }

  /** The checks that running and resetting a range begin with. */
  method CheckRange(d: Descriptor, v: View, begin: nat, count: nat) returns (status: Status)
    ensures status == Success <==> Validated(d, v) && begin + count <= v.elementCount
    ensures status == RangeOutOfBounds <==> Validated(d, v) && begin + count > v.elementCount
  {
    status := Validate(d, v);
    if status == Success && (begin > v.elementCount || count > v.elementCount - begin) {
      status := RangeOutOfBounds;
    }
  }

  /** `cxpr_bulk_run_range` */
  method RunRange(d: Descriptor, v: View, begin: nat, count: nat) returns (status: Status)
    requires d.Lawful() && Covered(d, v) && SeparateOutputs(v)
    modifies v.states, OutputArrays(v.outputs)
    ensures status == Success <==> Validated(d, v) && begin + count <= v.elementCount
    ensures status == Success ==>
              && FitColumns(d, v, old(Columns(d, v)))
              && States(d, v) == Ticked(d, Rows(d, v), v.params, old(States(d, v)), begin, begin + count)
              && Columns(d, v) == WrittenColumns(d, v, old(States(d, v)), old(Columns(d, v)), begin, begin + count)
              && SamePadding(d, v, old(Raw(v)), Raw(v))
    ensures status != Success ==> Raw(v) == old(Raw(v))
    ensures status != Success ==>
              forall c | c in v.outputs && c.values != null :: c.values[..] == old(c.values[..])
  {
    status := CheckRange(d, v, begin, count);
    if status != Success {
      return;
    }
    RunChecked(d, v, begin, begin + count);
  }

  /** The run after its checks. */
  method RunChecked(d: Descriptor, v: View, begin: nat, end: nat)
    requires d.Lawful() && Validated(d, v) && Covered(d, v) && SeparateOutputs(v) && begin <= end <= v.elementCount
    modifies v.states, OutputArrays(v.outputs)
    ensures RanTo(d, v, old(States(d, v)), old(Columns(d, v)), old(Raw(v)), begin, end)
  {
    ColumnsFit(d, v);
    NothingRun(d, v, States(d, v), Columns(d, v), begin);
    RunElements(d, v, begin, end, States(d, v), Columns(d, v), Raw(v));
  }

  /** The view holds what running `begin` up to `end` makes of the given states, columns and bytes. */
  ghost predicate RanTo(d: Descriptor, v: View, bs: seq<seq<Byte>>, cols: seq<seq<Value>>, raw: seq<Byte>,
                        begin: nat, end: nat)
    requires d.Lawful() && Validated(d, v) && Covered(d, v) && end <= v.elementCount
    reads v.states, OutputArrays(v.outputs)
  {
    && FitColumns(d, v, cols)
    && |bs| == v.elementCount && (forall k | 0 <= k < |bs| :: |bs[k]| == d.stateSize)
    && States(d, v) == Ticked(d, Rows(d, v), v.params, bs, begin, end)
    && Columns(d, v) == WrittenColumns(d, v, bs, cols, begin, end)
    && SamePadding(d, v, raw, Raw(v))
  }

  /** The loop of a run. */
  method RunElements(d: Descriptor, v: View, begin: nat, end: nat,
                     ghost bs: seq<seq<Byte>>, ghost cols: seq<seq<Value>>, ghost raw: seq<Byte>)
    requires d.Lawful() && Validated(d, v) && Covered(d, v) && SeparateOutputs(v) && begin <= end <= v.elementCount
    requires RanTo(d, v, bs, cols, raw, begin, begin)
    modifies v.states, OutputArrays(v.outputs)
    ensures RanTo(d, v, bs, cols, raw, begin, end)
  {
    var i := begin;
    while i < end
      invariant begin <= i <= end
      invariant RanTo(d, v, bs, cols, raw, begin, i)
    {
      RunElement(d, v, i, bs, cols, raw, begin);
      i := i + 1;
    }
  }

  lemma NothingRun(d: Descriptor, v: View, bs: seq<seq<Byte>>, cols: seq<seq<Value>>, begin: nat)
    requires d.Lawful() && Validated(d, v) && Covered(d, v) && FitColumns(d, v, cols) && begin <= v.elementCount
    requires |bs| == v.elementCount && forall i | 0 <= i < |bs| :: |bs[i]| == d.stateSize
    ensures Ticked(d, Rows(d, v), v.params, bs, begin, begin) == bs
    ensures WrittenColumns(d, v, bs, cols, begin, begin) == cols
  {
    forall j | 0 <= j < |cols| ensures WrittenColumns(d, v, bs, cols, begin, begin)[j] == cols[j] {
    }
  }

  lemma ColumnsFit(d: Descriptor, v: View)
    requires Validated(d, v) && Covered(d, v)
    ensures FitColumns(d, v, Columns(d, v))
  {
    forall j | 0 <= j < |v.outputs| && v.elementCount > 0
      ensures (v.elementCount - 1) * v.outputs[j].stride < |Columns(d, v)[j]|
    {
      assert OutColumnStatus(v.outputs[j], v.elementCount) == Success;
    }
  }

  /** One element of the run loop. */
  method RunElement(d: Descriptor, v: View, i: nat, ghost bs: seq<seq<Byte>>, ghost cols: seq<seq<Value>>,
                    ghost raw: seq<Byte>, ghost begin: nat)
    requires d.Lawful() && Validated(d, v) && Covered(d, v) && SeparateOutputs(v)
    requires begin <= i < v.elementCount && RanTo(d, v, bs, cols, raw, begin, i)
    modifies v.states, OutputArrays(v.outputs)
    ensures RanTo(d, v, bs, cols, raw, begin, i + 1)
  {
    var state := LoadState(d, v, i);
    var row := ReadRow(d, v, i);
    assert state == bs[i] && row == Rows(d, v)[i];
    var result := d.tick(state, row, v.params);
    StoreState(d, v, i, result.0);
    WriteOutputs(d, v, i, result.1);
    assert Ticked(d, Rows(d, v), v.params, bs, begin, i)[i := result.0]
        == Ticked(d, Rows(d, v), v.params, bs, begin, i + 1);
    forall j | 0 <= j < |cols| ensures Columns(d, v)[j] == WrittenColumns(d, v, bs, cols, begin, i + 1)[j] {
      assert WrittenColumns(d, v, bs, cols, begin, i)[j] == old(Columns(d, v)[j]);
    }
  }

  /** A run that cannot fail. */
  method RunPart(d: Descriptor, v: View, begin: nat, count: nat,
                 ghost bs: seq<seq<Byte>>, ghost cols: seq<seq<Value>>, ghost raw: seq<Byte>)
    requires d.Lawful() && Validated(d, v) && Covered(d, v) && SeparateOutputs(v) && begin + count <= v.elementCount
    requires bs == States(d, v) && cols == Columns(d, v) && SamePadding(d, v, raw, Raw(v))
    modifies v.states, OutputArrays(v.outputs)
    ensures FitColumns(d, v, cols)
    ensures States(d, v) == Ticked(d, Rows(d, v), v.params, bs, begin, begin + count)
    ensures Columns(d, v) == WrittenColumns(d, v, bs, cols, begin, begin + count)
    ensures SamePadding(d, v, raw, Raw(v))
  {
    var status := RunRange(d, v, begin, count);
  }

  /** `cxpr_bulk_reset_range`: a model without a reset callback starts from zero bytes. */
  ghost function ResetBlocks(d: Descriptor, bs: seq<seq<Byte>>, begin: nat, end: nat): (r: seq<seq<Byte>>)
    ensures |r| == |bs|
  {
    seq(|bs|, i requires 0 <= i < |bs| => if begin <= i < end then ResetBlock(d, bs[i]) else bs[i])
  }

  function ResetBlock(d: Descriptor, b: seq<Byte>): seq<Byte> {
    if d.reset.Some? then d.reset.value(b) else seq(d.stateSize, _ => 0)
  }

  method ResetRange(d: Descriptor, v: View, begin: nat, count: nat) returns (status: Status)
    requires d.Lawful() && Covered(d, v)
    modifies v.states
    ensures status == Success <==> Validated(d, v) && begin + count <= v.elementCount
    ensures status == Success && d.stateSize > 0 ==>
              && States(d, v) == ResetBlocks(d, old(States(d, v)), begin, begin + count)
              && SamePadding(d, v, old(Raw(v)), Raw(v))
    ensures status != Success || d.stateSize == 0 ==> Raw(v) == old(Raw(v))
  {
    status := CheckRange(d, v, begin, count);
    if status != Success {
      return;
    }
    if d.stateSize == 0 {
      return;
    }
    var i := begin;
    while i < begin + count
      invariant begin <= i <= begin + count
      invariant States(d, v) == ResetBlocks(d, old(States(d, v)), begin, i)
      invariant SamePadding(d, v, old(Raw(v)), Raw(v))
    {
      var state := LoadState(d, v, i);
      StoreState(d, v, i, ResetBlock(d, state));
      assert ResetBlocks(d, old(States(d, v)), begin, i)[i := ResetBlock(d, state)]
          == ResetBlocks(d, old(States(d, v)), begin, i + 1);
      i := i + 1;
    }
  }
}
