/** A host program that keeps a population in a store, runs it through bound views and snapshots it. */
module Population {
  import opened Common
  import opened Bytes
  import opened Bulk
  import opened Snapshot
  import opened StateStore
  import opened AgentHistories

  ghost predicate Fits(d: Descriptor, op: Op) {
    op.Run? ==> forall id :: |op.feed(id)| == |d.inputs|
  }

  ghost function BlocksInOrder(m: map<nat, seq<Byte>>): (bs: seq<seq<Byte>>)
    ensures |bs| == Count(m.Keys)
  {
    var ids := InOrder(m.Keys);
    seq(|ids|, i requires 0 <= i < |ids| => assert ids[i] in ids; m[ids[i]])
  }

  lemma BlocksHold(m: map<nat, seq<Byte>>)
    ensures Holds(InOrder(m.Keys), BlocksInOrder(m), m)
  {
    var ids, bs := InOrder(m.Keys), BlocksInOrder(m);
    forall i | 0 <= i < |ids| ensures ids[i] in m && m[ids[i]] == bs[i] {
      assert ids[i] in ids;
    }
  }

  /** A store's arrays are its map in order. */
  lemma ArraysInOrder(ids: seq<nat>, bs: seq<seq<Byte>>, m: map<nat, seq<Byte>>)
    requires Holds(ids, bs, m)
    ensures ids == InOrder(m.Keys) && bs == BlocksInOrder(m)
  {
    BlocksHold(m);
    MapDeterminesArrays(ids, bs, InOrder(m.Keys), BlocksInOrder(m), m);
  }

  /** Saved blocks in the order of the live ids are the saved blocks dealt out by rank. */
  lemma DealtInOrder(live: set<nat>, saved: map<nat, seq<Byte>>)
    requires Count(live) == Count(saved.Keys)
    ensures Holds(InOrder(live), BlocksInOrder(saved), Dealt(live, saved))
  {
    var ids, bs, m := InOrder(live), BlocksInOrder(saved), Dealt(live, saved);
    forall i | 0 <= i < |ids| ensures ids[i] in m && m[ids[i]] == bs[i] {
      assert ids[i] in ids;
      RankUnique(ids, i);
    }
  }

  /** A full store of this many agents may be unable to double. */
  predicate Crowded(d: Descriptor, n: nat) {
    TooLarge(NextCapacity(n), AlignedStride(d.stateSize))
  }

  /** The outcomes an operation may report. */
  ghost predicate Allowed(d: Descriptor, w: World<seq<Byte>>, op: Op, ok: bool) {
    var n := Count(w.live.Keys);
    match op
    case Join(id) => if ok then id !in w.live else id in w.live || Crowded(d, n)
    case Leave(id) => ok <==> id in w.live
    case Run(_, params) => if ok then |params| == |d.params| else |params| != |d.params| || w.live == map[]
    case Checkpoint => !ok ==> w.live == map[] || n * d.stateSize > SIZE_MAX - HEADER_SIZE
    case Rollback => ok <==> CanReturn(w)
  }

  /** Every outcome of a trace is one the operation may report. */
  ghost predicate AllowedTrace(d: Descriptor, ops: seq<Op>, oks: seq<bool>) {
    |ops| == |oks| &&
    (ops != [] ==>
       var n := |ops| - 1;
       && AllowedTrace(d, ops[..n], oks[..n])
       && Allowed(d, After(StateKind(d), ops[..n], oks[..n]), ops[n], oks[n]))
  }

  // ----- the host program -----

  method MakeOutputs(columns: nat, n: nat) returns (outs: seq<OutColumn>)
    ensures |outs| == columns
    ensures forall j | 0 <= j < columns ::
              outs[j].values != null && fresh(outs[j].values) && outs[j].values.Length == n && outs[j].stride == 1
    ensures forall j, k | 0 <= j < k < columns :: outs[j].values != outs[k].values
  {
    outs := [];
    for i := 0 to columns
      invariant |outs| == i
      invariant forall j | 0 <= j < i ::
                  outs[j].values != null && fresh(outs[j].values) && outs[j].values.Length == n && outs[j].stride == 1
      invariant forall j, k | 0 <= j < k < i :: outs[j].values != outs[k].values
    {
      var a := new Value[n](_ => Value(0, 0));
      outs := outs + [OutColumn(a, 1)];
    }
  }

  /** The place of the value for element `i` in a column holds `x`. */
  predicate HoldsAt(c: InColumn, i: nat, x: Value) {
    c.values.Some? && i * c.stride < |c.values.value| && c.values.value[i * c.stride] == x
  }

  /** Columns of any strides that hold each agent's inputs; with stride zero all agents share the first value. */
  ghost predicate Feeds(d: Descriptor, inputs: seq<InColumn>, ids: seq<nat>, feed: nat -> seq<Value>) {
    && (forall id :: |feed(id)| == |d.inputs|) && |inputs| == |d.inputs|
    && (forall j | 0 <= j < |inputs| :: inputs[j].values.Some?)
    && (forall i, j | 0 <= i < |ids| && 0 <= j < |inputs| :: HoldsAt(inputs[j], i, feed(ids[i])[j]))
  }

  /** Every place has an address. */
  ghost predicate Addressable(inputs: seq<InColumn>, n: nat) {
    forall j | 0 <= j < |inputs| :: n > 0 ==> (n - 1) * inputs[j].stride <= SIZE_MAX
  }

  /** Whatever the strides, each element is ticked with its own agent's inputs. */
  lemma RowsAreFed(d: Descriptor, v: View, ids: seq<nat>, feed: nat -> seq<Value>)
    requires Validated(d, v) && Covered(d, v) && v.elementCount == |ids| && Feeds(d, v.inputs, ids, feed)
    ensures forall i | 0 <= i < |ids| :: Rows(d, v)[i] == feed(ids[i])
  {
    forall i | 0 <= i < |ids| ensures Rows(d, v)[i] == feed(ids[i]) {
      forall j | 0 <= j < |v.inputs| ensures Row(d, v, i)[j] == feed(ids[i])[j] {
        assert HoldsAt(v.inputs[j], i, feed(ids[i])[j]);
      }
      assert Row(d, v, i) == feed(ids[i]);
    }
  }

  /** One buffer per input, in the order of the ids. */
  function Columnwise(d: Descriptor, ids: seq<nat>, feed: nat -> seq<Value>): (cols: seq<InColumn>)
    requires forall id :: |feed(id)| == |d.inputs|
    ensures |cols| == |d.inputs|
    ensures forall j | 0 <= j < |cols| :: cols[j].values.Some? && cols[j].stride == 1 && |cols[j].values.value| == |ids|
    ensures Feeds(d, cols, ids, feed)
  {
    var cols := seq(|d.inputs|, j requires 0 <= j < |d.inputs| =>
      InColumn(Some(seq(|ids|, i requires 0 <= i < |ids| => feed(ids[i])[j])), 1));
    assert forall i, j | 0 <= i < |ids| && 0 <= j < |cols| :: HoldsAt(cols[j], i, feed(ids[i])[j]);
    cols
  }

  /** One buffer of whole rows, one after the other. */
  function RowMajor(ids: seq<nat>, feed: nat -> seq<Value>, width: nat): (buffer: seq<Value>)
    requires forall id :: |feed(id)| == width
    ensures |buffer| == |ids| * width
  {
    if ids == [] then [] else
      assert |ids| * width == (|ids| - 1) * width + width;
      RowMajor(ids[..|ids| - 1], feed, width) + feed(ids[|ids| - 1])
  }

  lemma {:induction false} RowMajorAt(ids: seq<nat>, feed: nat -> seq<Value>, width: nat, i: nat, j: nat, at: nat)
    requires (forall id :: |feed(id)| == width) && i < |ids| && j < width && at == i * width
    ensures at + j < |RowMajor(ids, feed, width)| && RowMajor(ids, feed, width)[at + j] == feed(ids[i])[j]
  {
    var n := |ids| - 1;
    if i < n {
      RowMajorAt(ids[..n], feed, width, i, j, at);
    }
  }

  /** Every input is a column of that buffer, as far apart as the rows are long. */
  function Interleaved(d: Descriptor, ids: seq<nat>, feed: nat -> seq<Value>): (cols: seq<InColumn>)
    requires forall id :: |feed(id)| == |d.inputs|
    ensures |cols| == |d.inputs|
  {
    var buffer := RowMajor(ids, feed, |d.inputs|);
    seq(|d.inputs|, j requires 0 <= j < |d.inputs| =>
      InColumn(Some(if j <= |buffer| then buffer[j..] else []), |d.inputs|))
  }

  lemma InterleavedFeeds(d: Descriptor, ids: seq<nat>, feed: nat -> seq<Value>)
    requires forall id :: |feed(id)| == |d.inputs|
    ensures Feeds(d, Interleaved(d, ids, feed), ids, feed)
  {
    var cols, width := Interleaved(d, ids, feed), |d.inputs|;
    forall i, j | 0 <= i < |ids| && 0 <= j < |cols| ensures HoldsAt(cols[j], i, feed(ids[i])[j]) {
      RowMajorAt(ids, feed, width, i, j, i * width);
    }
  }

  lemma RanInOrder(d: Descriptor, ids: seq<nat>, bs: seq<seq<Byte>>, m: map<nat, seq<Byte>>,
                   rows: seq<seq<Value>>, feed: nat -> seq<Value>, params: seq<Value>)
    requires Holds(ids, bs, m) && |rows| == |ids| && forall i | 0 <= i < |ids| :: rows[i] == feed(ids[i])
    ensures Holds(ids, Ticked(d, rows, params, bs, 0, |ids|), Ran(StateKind(d), m, feed, params))
  {
  }

  /** The bound view of a store sees the store's blocks. */
  lemma BoundStates(store: Store, v: View)
    requires store.Valid() && v.states == store.states && v.stateStride == store.stride && v.elementCount == store.count
    requires Validated(store.d, v) && Covered(store.d, v)
    ensures States(store.d, v) == store.StateBlocks()
  {
  }

  /** What a run leaves in the output columns: each agent's own outputs, at its place in the id order. */
  ghost predicate Reported(d: Descriptor, ids: seq<nat>, live: map<nat, seq<Byte>>, feed: nat -> seq<Value>,
                           params: seq<Value>, cols: seq<seq<Value>>)
  {
    && |cols| == |d.outputs|
    && forall i, j | 0 <= i < |ids| && 0 <= j < |cols| ::
         ids[i] in live && |d.tick(live[ids[i]], feed(ids[i]), params).1| == |cols| && i < |cols[j]|
         && cols[j][i] == d.tick(live[ids[i]], feed(ids[i]), params).1[j]
  }

  lemma WrittenInOrder(col: seq<Value>, values: seq<Value>, i: nat)
    requires i < |values| <= |col|
    ensures Written(col, 1, values, 0, |values|)[i] == values[i]
  {
    WrittenAt(col, 1, values, 0, |values|, i);
    assert i == i * 1;
  }

  lemma ColumnAt(d: Descriptor, v: View, bs: seq<seq<Byte>>, cols: seq<seq<Value>>, i: nat, j: nat)
    requires d.Lawful() && Validated(d, v) && Covered(d, v) && FitColumns(d, v, cols)
    requires |bs| == v.elementCount && forall i | 0 <= i < |bs| :: |bs[i]| == d.stateSize
    requires i < v.elementCount && j < |v.outputs| && v.outputs[j].stride == 1
    ensures |WrittenColumns(d, v, bs, cols, 0, v.elementCount)[j]| > i
    ensures WrittenColumns(d, v, bs, cols, 0, v.elementCount)[j][i] == d.tick(bs[i], Rows(d, v)[i], v.params).1[j]
  {
    var values := Produced(d, Rows(d, v), v.params, bs, j);
    assert (v.elementCount - 1) * 1 < |cols[j]|;
    assert WrittenColumns(d, v, bs, cols, 0, v.elementCount)[j] == Written(cols[j], 1, values, 0, |values|);
    WrittenInOrder(cols[j], values, i);
  }

  /** A view of a store's states, with inputs in the order of its ids. */
  ghost predicate Bound(store: Store, v: View, ids: seq<nat>, feed: nat -> seq<Value>)
    reads store, store.ids, store.states
  {
    && store.Valid() && ids == store.Ids()
    && v.states == store.states && v.stateStride == store.stride && v.elementCount == store.count
    && Fed(store.d, v, ids, feed)
  }

  ghost predicate Fed(d: Descriptor, v: View, ids: seq<nat>, feed: nat -> seq<Value>) {
    && Feeds(d, v.inputs, ids, feed)
    && |v.outputs| == |d.outputs| && (forall j | 0 <= j < |v.outputs| :: v.outputs[j].stride == 1)
  }

  /** The view a host builds for one run over a store. */
  ghost predicate RunView(store: Store, v: View, ids: seq<nat>, feed: nat -> seq<Value>)
    reads store, store.ids, store.states
  {
    && Bound(store, v, ids, feed) && SeparateOutputs(v)
    && (forall j | 0 <= j < |v.outputs| :: v.outputs[j].values != null && v.outputs[j].values.Length == v.elementCount)
    && store.ids !in OutputArrays(v.outputs) && store !in OutputArrays(v.outputs) && store.Snapshotable(v)
  }

  lemma InputsFit(d: Descriptor, v: View, ids: seq<nat>, feed: nat -> seq<Value>)
    requires Feeds(d, v.inputs, ids, feed) && v.elementCount == |ids|
    ensures Addressable(v.inputs, v.elementCount)
            <==> forall j | 0 <= j < |v.inputs| :: InColumnStatus(v.inputs[j], v.elementCount) == Success
    ensures forall j | 0 <= j < |v.inputs| && v.elementCount > 0 ::
              (v.elementCount - 1) * v.inputs[j].stride < |v.inputs[j].values.value|
  {
    forall j | 0 <= j < |v.inputs|
      ensures InColumnStatus(v.inputs[j], v.elementCount) == Success
              <==> (v.elementCount > 0 ==> (v.elementCount - 1) * v.inputs[j].stride <= SIZE_MAX)
      ensures v.elementCount > 0 ==> (v.elementCount - 1) * v.inputs[j].stride < |v.inputs[j].values.value|
    {
      OverflowsExactly(v.elementCount, v.inputs[j].stride);
      if v.elementCount > 0 {
        assert HoldsAt(v.inputs[j], |ids| - 1, feed(ids[|ids| - 1])[j]);
      }
    }
  }

  lemma RunViewFits(store: Store, v: View, ids: seq<nat>, feed: nat -> seq<Value>)
    requires RunView(store, v, ids, feed)
    ensures Covered(store.d, v)
    ensures Validated(store.d, v) <==>
              && |v.params| == |store.d.params| && (store.d.stateSize > 0 ==> store.capacity > 0)
              && Addressable(v.inputs, v.elementCount)
  {
    assert !Overflows(v.elementCount, 1);
    InputsFit(store.d, v, ids, feed);
    forall j | 0 <= j < |v.outputs| ensures OutColumnStatus(v.outputs[j], v.elementCount) == Success {
    }
  }

  lemma {:induction false} RunReports(d: Descriptor, v: View, ids: seq<nat>, bs: seq<seq<Byte>>, m: map<nat, seq<Byte>>,
                                      cols: seq<seq<Value>>, feed: nat -> seq<Value>)
    requires d.Lawful() && Validated(d, v) && Covered(d, v) && FitColumns(d, v, cols) && Holds(ids, bs, m)
    requires |bs| == v.elementCount && forall i | 0 <= i < |bs| :: |bs[i]| == d.stateSize
    requires (forall j | 0 <= j < |v.outputs| :: v.outputs[j].stride == 1)
    requires forall i | 0 <= i < |ids| :: Rows(d, v)[i] == feed(ids[i])
    ensures Reported(d, ids, m, feed, v.params, WrittenColumns(d, v, bs, cols, 0, v.elementCount))
  {
    var r := WrittenColumns(d, v, bs, cols, 0, v.elementCount);
    forall i, j | 0 <= i < |ids| && 0 <= j < |r|
      ensures ids[i] in m && |d.tick(m[ids[i]], feed(ids[i]), v.params).1| == |r| && i < |r[j]|
      ensures r[j][i] == d.tick(m[ids[i]], feed(ids[i]), v.params).1[j]
    {
      ColumnAt(d, v, bs, cols, i, j);
    }
  }

  lemma RanContents(store: Store, ids: seq<nat>, m: map<nat, seq<Byte>>)
    requires store.Valid() && store.Ids() == ids && Holds(ids, store.StateBlocks(), m)
    ensures store.Contents() == m
  {
    HoldsEntries(ids, store.StateBlocks(), m);
  }

  /** What a finished run means for the population. */
  lemma AfterRun(store: Store, v: View, ids: seq<nat>, bs: seq<seq<Byte>>, m: map<nat, seq<Byte>>,
                 cols: seq<seq<Value>>, feed: nat -> seq<Value>)
    requires Bound(store, v, ids, feed) && Validated(store.d, v) && Covered(store.d, v)
    requires Holds(ids, bs, m) && FitColumns(store.d, v, cols)
    requires |bs| == v.elementCount && forall i | 0 <= i < |bs| :: |bs[i]| == store.d.stateSize
    requires States(store.d, v) == Ticked(store.d, Rows(store.d, v), v.params, bs, 0, v.elementCount)
    ensures store.Contents() == Ran(StateKind(store.d), m, feed, v.params)
    ensures Reported(store.d, ids, m, feed, v.params, WrittenColumns(store.d, v, bs, cols, 0, v.elementCount))
  {
    BoundStates(store, v);
    RowsAreFed(store.d, v, ids, feed);
    RanInOrder(store.d, ids, bs, m, Rows(store.d, v), feed, v.params);
    RanContents(store, ids, Ran(StateKind(store.d), m, feed, v.params));
    RunReports(store.d, v, ids, bs, m, cols, feed);
  }

  /** Run all elements of a validated view. */
  method RunWhole(d: Descriptor, v: View, ghost bs: seq<seq<Byte>>, ghost cols: seq<seq<Value>>)
    requires d.Lawful() && Validated(d, v) && Covered(d, v) && SeparateOutputs(v)
    requires bs == States(d, v) && cols == Columns(d, v)
    modifies v.states, OutputArrays(v.outputs)
    ensures FitColumns(d, v, cols)
    ensures States(d, v) == Ticked(d, Rows(d, v), v.params, bs, 0, v.elementCount)
    ensures Columns(d, v) == WrittenColumns(d, v, bs, cols, 0, v.elementCount)
  {
    var status := RunRange(d, v, 0, v.elementCount);
  }

  method RunValidated(store: Store, v: View, ghost ids: seq<nat>, ghost feed: nat -> seq<Value>)
    requires RunView(store, v, ids, feed) && Validated(store.d, v) && Covered(store.d, v)
    modifies store.states, OutputArrays(v.outputs)
    ensures store.Valid() && store.Ids() == ids
    ensures store.Contents() == Ran(StateKind(store.d), old(store.Contents()), feed, v.params)
    ensures Reported(store.d, ids, old(store.Contents()), feed, v.params, Columns(store.d, v))
  {
    ghost var m, bs, cols := store.Contents(), store.StateBlocks(), Columns(store.d, v);
    BoundStates(store, v);
    RunWhole(store.d, v, bs, cols);
    assert Bound(store, v, ids, feed);
    AfterRun(store, v, ids, bs, m, cols, feed);
  }

  method RunBound(store: Store, v: View, ghost ids: seq<nat>, ghost feed: nat -> seq<Value>) returns (ok: bool)
    requires RunView(store, v, ids, feed)
    modifies store.states, OutputArrays(v.outputs)
    ensures store.Valid() && store.Ids() == ids
    ensures ok <==>
              && |v.params| == |store.d.params| && (store.d.stateSize > 0 ==> store.capacity > 0)
              && Addressable(v.inputs, v.elementCount)
    ensures ok <==> Validated(store.d, v)
    ensures store.Contents() == if ok then Ran(StateKind(store.d), old(store.Contents()), feed, v.params)
                                else old(store.Contents())
    ensures ok ==> Reported(store.d, ids, old(store.Contents()), feed, v.params, Columns(store.d, v))
  {
    RunViewFits(store, v, ids, feed);
    var status := Validate(store.d, v);
    if status != Success {
      return false;
    }
    RunValidated(store, v, ids, feed);
    ok := true;
  }

  /** Run every live agent of a store once, on input columns of any strides. */
  method RunAll(store: Store, inputs: seq<InColumn>, ghost feed: nat -> seq<Value>, params: seq<Value>)
    returns (ok: bool, v: View)
    requires store.Valid() && Feeds(store.d, inputs, store.Ids(), feed)
    modifies store.states
    ensures store.Valid() && store.Ids() == old(store.Ids())
    ensures ok <==>
              && |params| == |store.d.params| && (store.d.stateSize > 0 ==> store.capacity > 0)
              && Addressable(inputs, store.count)
    ensures store.Contents() == if ok then Ran(StateKind(store.d), old(store.Contents()), feed, params)
                                else old(store.Contents())
    ensures ok ==>
              && Validated(store.d, v)
              && Reported(store.d, store.Ids(), old(store.Contents()), feed, params, Columns(store.d, v))
  {
    var outs := MakeOutputs(|store.d.outputs|, store.count);
    v := store.BindView(View(inputs, params, outs, null, 0, 0));
    ok := RunBound(store, v, store.Ids(), feed);
  }

  /** Run every live agent once, with a buffer for each input. */
  method RunColumnwise(store: Store, feed: nat -> seq<Value>, params: seq<Value>) returns (ok: bool)
    requires store.Valid() && forall id :: |feed(id)| == |store.d.inputs|
    modifies store.states
    ensures store.Valid()
    ensures ok <==> |params| == |store.d.params| && (store.d.stateSize > 0 ==> store.capacity > 0)
    ensures store.Contents() == if ok then Ran(StateKind(store.d), old(store.Contents()), feed, params)
                                else old(store.Contents())
  {
    var ids := [];
    if store.ids != null {
      ids := store.ids[..store.count];
    }
    var inputs := Columnwise(store.d, ids, feed);
    ColumnsAddressable(store, inputs);
    var view;
    ok, view := RunAll(store, inputs, feed, params);
  }

  /** Run every live agent once, with one buffer of whole rows. */
  method RunInterleaved(store: Store, feed: nat -> seq<Value>, params: seq<Value>) returns (ok: bool)
    requires store.Valid() && forall id :: |feed(id)| == |store.d.inputs|
    modifies store.states
    ensures store.Valid()
    ensures ok <==>
              && |params| == |store.d.params| && (store.d.stateSize > 0 ==> store.capacity > 0)
              && (store.count > 0 ==> (store.count - 1) * |store.d.inputs| <= SIZE_MAX)
    ensures store.Contents() == if ok then Ran(StateKind(store.d), old(store.Contents()), feed, params)
                                else old(store.Contents())
  {
    var ids := [];
    if store.ids != null {
      ids := store.ids[..store.count];
    }
    var inputs := Interleaved(store.d, ids, feed);
    InterleavedFeeds(store.d, ids, feed);
    InterleavedAddressable(store.d, ids, feed);
    var view;
    ok, view := RunAll(store, inputs, feed, params);
  }

  lemma InterleavedAddressable(d: Descriptor, ids: seq<nat>, feed: nat -> seq<Value>)
    requires forall id :: |feed(id)| == |d.inputs|
    ensures Addressable(Interleaved(d, ids, feed), |ids|)
            <==> (|ids| > 0 ==> (|ids| - 1) * |d.inputs| <= SIZE_MAX)
  {
    var cols := Interleaved(d, ids, feed);
    assert forall j | 0 <= j < |cols| :: cols[j].stride == |d.inputs|;
    if d.inputs != [] {
      assert cols[0].stride == |d.inputs|;
    }
  }

  lemma ColumnsAddressable(store: Store, inputs: seq<InColumn>)
    requires store.Valid() && forall j | 0 <= j < |inputs| :: inputs[j].stride == 1
    ensures Addressable(inputs, store.count)
  {
  }

  /** The saved snapshot bytes are those of the checkpointed population. */
  ghost predicate Saves(d: Descriptor, layoutId: nat, bytes: Option<seq<Byte>>, saved: Option<map<nat, seq<Byte>>>) {
    && (bytes.Some? <==> saved.Some?)
    && (saved.Some? ==>
          && bytes.value == SnapshotBytes(d, layoutId, BlocksInOrder(saved.value))
          && Count(saved.value.Keys) * d.stateSize <= SIZE_MAX - HEADER_SIZE && Count(saved.value.Keys) <= SIZE_MAX
          && (forall i | 0 <= i < Count(saved.value.Keys) :: |BlocksInOrder(saved.value)[i]| == d.stateSize))
  }

  /** The host's variables stand for a world. */
  ghost predicate Stands(store: Store, layoutId: nat, bytes: Option<seq<Byte>>, w: World<seq<Byte>>)
    reads store, store.ids, store.states
  {
    && store.Valid() && store.Contents() == w.live && Saves(store.d, layoutId, bytes, w.saved)
    && (w.saved.Some? && store.d.stateSize > 0 ==> store.capacity > 0)
  }

  /** Snapshot a store's population. */
  method Save(store: Store, layoutId: nat) returns (ok: bool, bytes: seq<Byte>)
    requires store.Valid() && layoutId != 0
    ensures ok ==> Saves(store.d, layoutId, Some(bytes), Some(store.Contents()))
    ensures ok ==> (store.d.stateSize > 0 ==> store.capacity > 0)
    ensures !ok ==>
              store.Contents() == map[] || Count(store.Contents().Keys) * store.d.stateSize > SIZE_MAX - HEADER_SIZE
  {
    var v := store.BindView(View([], [], [], null, 0, 0));
    var status, data := Create(store.d, layoutId, v);
    ArraysInOrder(store.Ids(), store.StateBlocks(), store.Contents());
    EmptyTogether(store.Ids(), store.StateBlocks(), store.Contents());
    if data == null {
      return false, [];
    }
    assert States(store.d, v) == store.StateBlocks();
    ok, bytes := true, data[..];
  }

  /** A restored store holds the saved blocks, dealt out by rank. */
  lemma AfterLoad(store: Store, v: View, ids: seq<nat>, live: map<nat, seq<Byte>>, saved: map<nat, seq<Byte>>)
    requires store.Valid() && store.Ids() == ids == InOrder(live.Keys) && Count(saved.Keys) == Count(live.Keys)
    requires v.states == store.states && v.stateStride == store.stride && v.elementCount == store.count
    requires HasStates(store.d, v) && RoomForStates(store.d, v) && States(store.d, v) == BlocksInOrder(saved)
    ensures store.Contents() == Dealt(live.Keys, saved)
  {
    assert States(store.d, v) == store.StateBlocks();
    DealtInOrder(live.Keys, saved);
    RanContents(store, ids, Dealt(live.Keys, saved));
  }

  /** Roll a store's population back to a snapshot. */
  method Load(store: Store, layoutId: nat, bytes: seq<Byte>, ghost saved: map<nat, seq<Byte>>) returns (ok: bool)
    requires store.Valid() && layoutId != 0 && Saves(store.d, layoutId, Some(bytes), Some(saved))
    requires store.d.stateSize > 0 ==> store.capacity > 0
    modifies store.states
    ensures store.Valid()
    ensures ok <==> Count(saved.Keys) == Count(old(store.Contents()).Keys)
    ensures store.Contents() == if ok then Dealt(old(store.Contents()).Keys, saved) else old(store.Contents())
  {
    var v := store.BindView(View([], [], [], null, 0, 0));
    ghost var ids, live := store.Ids(), store.Contents();
    ArraysInOrder(ids, store.StateBlocks(), live);
    CountMustMatch(store.d, layoutId, BlocksInOrder(saved), v.states != null, v.stateStride, v.elementCount);
    var status := Restore(store.d, layoutId, bytes, v);
    assert store.Ids() == ids;
    ok := status == Done;
    if ok {
      AfterLoad(store, v, ids, live, saved);
    } else {
      RanContents(store, ids, live);
    }
  }

  /** A snapshot is accepted exactly by views of its own element count. */
  lemma CountMustMatch(d: Descriptor, layoutId: nat, bs: seq<seq<Byte>>, hasStates: bool, stride: nat, count: nat)
    requires d.AbiValid() && layoutId != 0 && d.stateSize <= SIZE_MAX && |bs| <= SIZE_MAX
    requires forall i | 0 <= i < |bs| :: |bs[i]| == d.stateSize
    requires |bs| * d.stateSize <= SIZE_MAX - HEADER_SIZE
    requires d.stateSize > 0 ==> hasStates && d.stateSize <= stride
    ensures var data := SnapshotBytes(d, layoutId, bs);
            && (RestoreStatus(d, layoutId, data, hasStates, stride, count) == Done <==> count == |bs|)
            && |data| == HEADER_SIZE + |bs| * d.stateSize
            && PackedBlocks(data[HEADER_SIZE..], d.stateSize, |bs|) == bs
  {
    SnapshotAccepted(d, layoutId, bs, hasStates, stride);
    SnapshotReads(d, layoutId, bs);
  }

  /** A host's arrays are the ones it had, or new ones. */
  twostate predicate OwnArrays(store: Store)
    reads store
  {
    && (store.ids == old(store.ids) || fresh(store.ids))
    && (store.states == old(store.states) || fresh(store.states))
  }

  lemma CountIsCount(store: Store)
    requires store.Valid()
    ensures Count(store.Contents().Keys) == store.count
    ensures store.count == 0 ==> store.Contents() == map[]
  {
    ArraysInOrder(store.Ids(), store.StateBlocks(), store.Contents());
    EmptyTogether(store.Ids(), store.StateBlocks(), store.Contents());
  }

  method DoJoin(store: Store, layoutId: nat, ghost bytes: Option<seq<Byte>>, id: nat,
                ghost w: World<seq<Byte>>) returns (ok: bool)
    requires Stands(store, layoutId, bytes, w)
    modifies store, store.ids, store.states
    ensures Allowed(store.d, w, Join(id), ok) && OwnArrays(store)
    ensures Stands(store, layoutId, bytes, Apply(StateKind(store.d), w, Join(id), ok))
  {
    CountIsCount(store);
    var status := store.Add(id);
    ok := status == Stored;
  }

  method DoLeave(store: Store, layoutId: nat, ghost bytes: Option<seq<Byte>>, id: nat,
                 ghost w: World<seq<Byte>>) returns (ok: bool)
    requires Stands(store, layoutId, bytes, w)
    modifies store, store.ids, store.states
    ensures Allowed(store.d, w, Leave(id), ok) && OwnArrays(store)
    ensures Stands(store, layoutId, bytes, Apply(StateKind(store.d), w, Leave(id), ok))
  {
    var status := store.Remove(id);
    ok := status == Stored;
  }

  method DoRun(store: Store, layoutId: nat, ghost bytes: Option<seq<Byte>>,
               feed: nat -> seq<Value>, params: seq<Value>, ghost w: World<seq<Byte>>) returns (ok: bool)
    requires Stands(store, layoutId, bytes, w) && Fits(store.d, Run(feed, params))
    modifies store.states
    ensures Allowed(store.d, w, Run(feed, params), ok)
    ensures Stands(store, layoutId, bytes, Apply(StateKind(store.d), w, Run(feed, params), ok))
  {
    CountIsCount(store);
    ok := RunColumnwise(store, feed, params);
  }

  method DoRollback(store: Store, layoutId: nat, bytes: Option<seq<Byte>>, ghost w: World<seq<Byte>>) returns (ok: bool)
    requires Stands(store, layoutId, bytes, w) && layoutId != 0
    modifies store.states
    ensures Allowed(store.d, w, Rollback, ok)
    ensures Stands(store, layoutId, bytes, Apply(StateKind(store.d), w, Rollback, ok))
  {
    ok := false;
    if bytes.Some? {
      ok := Load(store, layoutId, bytes.value, w.saved.value);
    }
  }

  method DoCheckpoint(store: Store, layoutId: nat, bytes: Option<seq<Byte>>, ghost w: World<seq<Byte>>)
    returns (ok: bool, bytes': Option<seq<Byte>>)
    requires Stands(store, layoutId, bytes, w) && layoutId != 0
    ensures Allowed(store.d, w, Checkpoint, ok)
    ensures Stands(store, layoutId, bytes', Apply(StateKind(store.d), w, Checkpoint, ok))
  {
    var data;
    ok, data := Save(store, layoutId);
    bytes' := if ok then Some(data) else bytes;
  }

  /** Carry out one operation on the real store. */
  method Perform(store: Store, layoutId: nat, bytes: Option<seq<Byte>>, op: Op, ghost w: World<seq<Byte>>)
    returns (ok: bool, bytes': Option<seq<Byte>>)
    requires Stands(store, layoutId, bytes, w) && Fits(store.d, op) && layoutId != 0
    modifies store, store.ids, store.states
    ensures Allowed(store.d, w, op, ok)
    ensures Stands(store, layoutId, bytes', Apply(StateKind(store.d), w, op, ok))
    ensures OwnArrays(store)
  {
    bytes' := bytes;
    match op {
      case Join(id) => ok := DoJoin(store, layoutId, bytes, id, w);
      case Leave(id) => ok := DoLeave(store, layoutId, bytes, id, w);
      case Run(feed, params) => ok := DoRun(store, layoutId, bytes, feed, params, w);
      case Checkpoint => ok, bytes' := DoCheckpoint(store, layoutId, bytes, w);
      case Rollback => ok := DoRollback(store, layoutId, bytes, w);
    }
  }

  /** The first `k` operations of a session, with their outcomes, lead to `w`. */
  ghost predicate LedTo(d: Descriptor, ops: seq<Op>, k: nat, oks: seq<bool>, w: World<seq<Byte>>) {
    && k <= |ops| && |oks| == k && AllowedTrace(d, ops[..k], oks)
    && w == After(StateKind(d), ops[..k], oks)
  }

  lemma LedOn(d: Descriptor, ops: seq<Op>, k: nat, oks: seq<bool>, w: World<seq<Byte>>, ok: bool)
    requires k < |ops| && LedTo(d, ops, k, oks, w) && Allowed(d, w, ops[k], ok)
    ensures LedTo(d, ops, k + 1, oks + [ok], Apply(StateKind(d), w, ops[k], ok))
  {
    assert ops[..k + 1][..k] == ops[..k] && (oks + [ok])[..k] == oks;
  }

  lemma LedFromNothing(d: Descriptor, ops: seq<Op>)
    ensures LedTo(d, ops, 0, [], World(map[], None))
  {
    assert ops[..0] == [];
  }

  lemma LedToEnd(d: Descriptor, ops: seq<Op>, oks: seq<bool>, w: World<seq<Byte>>)
    requires LedTo(d, ops, |ops|, oks, w)
    ensures AllowedTrace(d, ops, oks) && w == After(StateKind(d), ops, oks)
  {
    assert ops[..|ops|] == ops;
  }

  /** A whole session, from an empty store: any interleaving of operations. */
  method Session(d: Descriptor, layoutId: nat, ops: seq<Op>) returns (store: Store?, oks: seq<bool>)
    requires d.Lawful() && d.stateSize <= SIZE_MAX && layoutId != 0
    requires forall k | 0 <= k < |ops| :: Fits(d, ops[k])
    ensures store != null <==> d.AbiValid() && d.stateSize <= SIZE_MAX - (ALIGNMENT - 1)
    ensures store != null ==>
              && store.Valid() && AllowedTrace(d, ops, oks)
              && store.Contents() == After(StateKind(d), ops, oks).live
              && store.Contents() == AllGrown(d, After(Histories(), ops, oks).live)
  {
    oks := [];
    var status;
    status, store := NewStore(d);
    if store != null {
      oks := Drive(store, layoutId, ops);
      StateIsHistory(d, ops, oks);
    }
  }

  /** Carry out a list of operations on an empty store. */
  method Drive(store: Store, layoutId: nat, ops: seq<Op>) returns (oks: seq<bool>)
    requires store.Valid() && store.Contents() == map[] && store.ids == null && store.states == null && layoutId != 0
    requires forall k | 0 <= k < |ops| :: Fits(store.d, ops[k])
    modifies store
    ensures store.Valid() && AllowedTrace(store.d, ops, oks)
    ensures store.Contents() == After(StateKind(store.d), ops, oks).live
  {
    oks := [];
    var bytes := None;
    ghost var w: World<seq<Byte>> := World(map[], None);
    LedFromNothing(store.d, ops);
    for k := 0 to |ops|
      invariant (store.ids != null ==> fresh(store.ids)) && (store.states != null ==> fresh(store.states))
      invariant LedTo(store.d, ops, k, oks, w) && Stands(store, layoutId, bytes, w)
    {
      var ok;
      ok, bytes := Perform(store, layoutId, bytes, ops[k], w);
      LedOn(store.d, ops, k, oks, w, ok);
      oks, w := oks + [ok], Apply(StateKind(store.d), w, ops[k], ok);
    }
    LedToEnd(store.d, ops, oks, w);
  }
}
