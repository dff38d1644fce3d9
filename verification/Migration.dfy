/**
 Moving a running population: run, snapshot, restore into a view with other strides, and run on
 (src/bulk_snapshot.c and src/bulk.c together).
 */
module Migration {
  import opened Common
  import opened Bytes
  import opened Bulk
  import opened Snapshot

  /** One run over a range, with the inputs it reads. */
  datatype Batch = Batch(inputs: seq<InColumn>, params: seq<Value>, begin: nat, count: nat)

  /** A batch that any valid view of `n` elements can run. */
  ghost predicate Runnable(d: Descriptor, n: nat, b: Batch) {
    && |b.inputs| == |d.inputs| && |b.params| == |d.params| && b.begin + b.count <= n
    && (forall j | 0 <= j < |b.inputs| :: InColumnStatus(b.inputs[j], n) == Success)
    && (n > 0 ==> forall j | 0 <= j < |b.inputs| :: (n - 1) * b.inputs[j].stride < |b.inputs[j].values.value|)
  }

  ghost predicate AllRunnable(d: Descriptor, n: nat, batches: seq<Batch>) {
    forall k | 0 <= k < |batches| :: Runnable(d, n, batches[k])
  }

  ghost function BatchRows(d: Descriptor, n: nat, b: Batch): (rows: seq<seq<Value>>)
    requires Runnable(d, n, b)
    ensures |rows| == n
  {
    seq(n, i requires 0 <= i < n =>
      seq(|b.inputs|, j requires 0 <= j < |b.inputs| =>
        assert InColumnStatus(b.inputs[j], n) == Success;
        Input(b.inputs[j], n, i)))
  }

  /** The value for element `i` in a column of a batch. */
  lemma BatchRowAt(d: Descriptor, n: nat, b: Batch, i: nat, j: nat)
    requires Runnable(d, n, b) && i < n && j < |b.inputs|
    ensures i * b.inputs[j].stride < |b.inputs[j].values.value|
    ensures BatchRows(d, n, b)[i][j] == b.inputs[j].values.value[i * b.inputs[j].stride]
  {
    MulMonotone(i, n - 1, b.inputs[j].stride);
  }

  /** The columns of two batches hold the same values at their places. */
  ghost predicate SameInputs(d: Descriptor, n: nat, b: Batch, c: Batch)
    requires Runnable(d, n, b) && Runnable(d, n, c)
  {
    forall i, j | 0 <= i < n && 0 <= j < |d.inputs| ::
      && i * b.inputs[j].stride < |b.inputs[j].values.value| && i * c.inputs[j].stride < |c.inputs[j].values.value|
      && b.inputs[j].values.value[i * b.inputs[j].stride] == c.inputs[j].values.value[i * c.inputs[j].stride]
  }

  /** Spacing the inputs of a batch differently changes no row. */
  lemma RestridedRows(d: Descriptor, n: nat, b: Batch, c: Batch)
    requires Runnable(d, n, b) && Runnable(d, n, c) && SameInputs(d, n, b, c)
    ensures BatchRows(d, n, b) == BatchRows(d, n, c)
  {
    forall i | 0 <= i < n ensures BatchRows(d, n, b)[i] == BatchRows(d, n, c)[i] {
      forall j | 0 <= j < |d.inputs| ensures BatchRows(d, n, b)[i][j] == BatchRows(d, n, c)[i][j] {
        BatchRowAt(d, n, b, i, j);
        BatchRowAt(d, n, c, i, j);
      }
    }
  }

  function With(v: View, b: Batch): View { v.(inputs := b.inputs, params := b.params) }

  lemma BatchView(d: Descriptor, v: View, b: Batch)
    requires Validated(d, v) && Covered(d, v) && Runnable(d, v.elementCount, b)
    ensures Validated(d, With(v, b)) && Covered(d, With(v, b))
    ensures Rows(d, With(v, b)) == BatchRows(d, v.elementCount, b)
  {
    var u, n := With(v, b), v.elementCount;
    forall i | 0 <= i < n ensures Rows(d, u)[i] == BatchRows(d, n, b)[i] {
      assert Row(d, u, i) == BatchRows(d, n, b)[i];
    }
  }

  // ----- what a schedule of batches computes -----

  /** The state blocks after some batches. */
  ghost function AfterBatches(d: Descriptor, n: nat, bs: seq<seq<Byte>>, batches: seq<Batch>): (r: seq<seq<Byte>>)
    requires AllRunnable(d, n, batches) && |bs| == n
    ensures |r| == n
  {
    if batches == [] then bs
    else
      var k := |batches| - 1;
      var b := batches[k];
      Ticked(d, BatchRows(d, n, b), b.params, AfterBatches(d, n, bs, batches[..k]), b.begin, b.begin + b.count)
  }

  /** What element `i` last produced. */
  ghost function LastOutputs(d: Descriptor, n: nat, bs: seq<seq<Byte>>, batches: seq<Batch>, i: nat): Option<seq<Value>>
    requires AllRunnable(d, n, batches) && |bs| == n && i < n
  {
    if batches == [] then None
    else
      var k := |batches| - 1;
      var b := batches[k];
      if b.begin <= i < b.begin + b.count
      then Some(d.tick(AfterBatches(d, n, bs, batches[..k])[i], BatchRows(d, n, b)[i], b.params).1)
      else LastOutputs(d, n, bs, batches[..k], i)
  }

  /** One more batch: the states. */
  lemma OneMore(d: Descriptor, n: nat, bs: seq<seq<Byte>>, done: seq<Batch>, b: Batch)
    requires AllRunnable(d, n, done) && Runnable(d, n, b) && |bs| == n
    ensures AllRunnable(d, n, done + [b])
    ensures AfterBatches(d, n, bs, done + [b])
         == Ticked(d, BatchRows(d, n, b), b.params, AfterBatches(d, n, bs, done), b.begin, b.begin + b.count)
  {
    assert (done + [b])[..|done|] == done;
  }

  /** One more batch: what element `i` last produced. */
  lemma OneMoreOutput(d: Descriptor, n: nat, bs: seq<seq<Byte>>, done: seq<Batch>, b: Batch, i: nat)
    requires AllRunnable(d, n, done) && Runnable(d, n, b) && |bs| == n && i < n
    requires AllRunnable(d, n, done + [b])
    ensures LastOutputs(d, n, bs, done + [b], i)
         == if b.begin <= i < b.begin + b.count
            then Some(d.tick(AfterBatches(d, n, bs, done)[i], BatchRows(d, n, b)[i], b.params).1)
            else LastOutputs(d, n, bs, done, i)
  {
    assert (done + [b])[..|done|] == done;
  }

  /** An interruption between two schedules leaves no trace in the states. */
  lemma {:induction false} StatesCompose(d: Descriptor, n: nat, bs: seq<seq<Byte>>, before: seq<Batch>,
                                         after: seq<Batch>)
    requires AllRunnable(d, n, before) && AllRunnable(d, n, after) && |bs| == n
    ensures AfterBatches(d, n, bs, before + after)
         == AfterBatches(d, n, AfterBatches(d, n, bs, before), after)
    decreases |after|
  {
    if after == [] {
      assert before + after == before;
    } else {
      var front, b := after[..|after| - 1], after[|after| - 1];
      var mid := AfterBatches(d, n, bs, before);
      StatesCompose(d, n, bs, before, front);
      assert after == front + [b] && before + after == (before + front) + [b];
      OneMore(d, n, bs, before + front, b);
      OneMore(d, n, mid, front, b);
    }
  }

  lemma OutputsComposeStep(d: Descriptor, n: nat, bs: seq<seq<Byte>>, mid: seq<seq<Byte>>,
                           before: seq<Batch>, front: seq<Batch>, b: Batch, i: nat)
    requires AllRunnable(d, n, before) && AllRunnable(d, n, front) && AllRunnable(d, n, before + front)
    requires Runnable(d, n, b)
    requires |bs| == n && |mid| == n && i < n
    requires AllRunnable(d, n, before + front + [b]) && AllRunnable(d, n, front + [b])
    requires AfterBatches(d, n, bs, before + front) == AfterBatches(d, n, mid, front)
    requires Later(LastOutputs(d, n, mid, front, i), LastOutputs(d, n, bs, before, i))
          == LastOutputs(d, n, bs, before + front, i)
    ensures Later(LastOutputs(d, n, mid, front + [b], i), LastOutputs(d, n, bs, before, i))
         == LastOutputs(d, n, bs, before + front + [b], i)
  {
    OneMoreOutput(d, n, bs, before + front, b, i);
    OneMoreOutput(d, n, mid, front, b, i);
  }

  /** The later of two outputs, if there is one. */
  function Later(late: Option<seq<Value>>, early: Option<seq<Value>>): Option<seq<Value>> {
    if late.Some? then late else early
  }

  /** Nor in the outputs. */
  lemma {:induction false} OutputsCompose(d: Descriptor, n: nat, bs: seq<seq<Byte>>, before: seq<Batch>,
                                          after: seq<Batch>, i: nat)
    requires AllRunnable(d, n, before) && AllRunnable(d, n, after) && AllRunnable(d, n, before + after) && |bs| == n
    requires i < n
    ensures LastOutputs(d, n, bs, before + after, i)
         == Later(LastOutputs(d, n, AfterBatches(d, n, bs, before), after, i), LastOutputs(d, n, bs, before, i))
    decreases |after|
  {
    if after == [] {
      assert before + after == before;
    } else {
      var front, b := after[..|after| - 1], after[|after| - 1];
      OutputsCompose(d, n, bs, before, front, i);
      StatesCompose(d, n, bs, before, front);
      assert after == front + [b] && before + after == before + front + [b];
      OutputsComposeStep(d, n, bs, AfterBatches(d, n, bs, before), before, front, b, i);
    }
  }

  /** The same batch with its inputs spaced differently. */
  ghost predicate Respaced(d: Descriptor, n: nat, b: Batch, c: Batch) {
    && Runnable(d, n, b) && Runnable(d, n, c) && SameInputs(d, n, b, c)
    && b.params == c.params && b.begin == c.begin && b.count == c.count
  }

  /** Spacing inputs differently changes what no schedule computes. */
  lemma {:induction false} RespacedSchedule(d: Descriptor, n: nat, bs: seq<seq<Byte>>, batches: seq<Batch>,
                                            others: seq<Batch>)
    requires AllRunnable(d, n, batches) && AllRunnable(d, n, others) && |bs| == n && |batches| == |others|
    requires forall k | 0 <= k < |batches| :: Respaced(d, n, batches[k], others[k])
    ensures AfterBatches(d, n, bs, batches) == AfterBatches(d, n, bs, others)
    ensures forall i | 0 <= i < n :: LastOutputs(d, n, bs, batches, i) == LastOutputs(d, n, bs, others, i)
  {
    if batches != [] {
      var k := |batches| - 1;
      RespacedSchedule(d, n, bs, batches[..k], others[..k]);
      assert Respaced(d, n, batches[k], others[k]);
      RestridedRows(d, n, batches[k], others[k]);
    }
  }

  // ----- running a schedule on a view -----

  /** The columns of a view show what each element last produced. */
  ghost predicate Shows(v: View, cols: seq<seq<Value>>, i: nat, outs: Option<seq<Value>>) {
    outs.Some? ==>
      && |outs.value| == |cols| == |v.outputs|
      && forall j | 0 <= j < |cols| ::
           i * v.outputs[j].stride < |cols[j]| && cols[j][i * v.outputs[j].stride] == outs.value[j]
  }

  ghost predicate ShowAll(d: Descriptor, v: View, cols: seq<seq<Value>>, bs: seq<seq<Byte>>, batches: seq<Batch>)
    requires AllRunnable(d, v.elementCount, batches) && |bs| == v.elementCount
  {
    forall i | 0 <= i < v.elementCount :: Shows(v, cols, i, LastOutputs(d, v.elementCount, bs, batches, i))
  }

  /** The place of element `i` in a column after a range wrote there. */
  lemma WrittenPlace(col: seq<Value>, stride: nat, values: seq<Value>, begin: nat, end: nat, i: nat)
    requires begin <= end <= |values| && i < |values| && (|values| - 1) * stride < |col|
    requires |values| > 1 ==> stride > 0
    ensures i * stride < |col|
    ensures Written(col, stride, values, begin, end)[i * stride]
         == if begin <= i < end then values[i] else col[i * stride]
  {
    MulMonotone(i, |values| - 1, stride);
    WrittenAt(col, stride, values, begin, end, i * stride);
    if !(begin <= i < end) {
      forall k | begin <= k < end ensures i * stride != k * stride {
        PlacesDistinct(i, k, stride);
      }
    }
  }

  lemma ColumnPlace(d: Descriptor, v: View, bs: seq<seq<Byte>>, cols: seq<seq<Value>>, begin: nat, end: nat, i: nat,
                    j: nat)
    requires d.Lawful() && Validated(d, v) && Covered(d, v) && FitColumns(d, v, cols)
    requires |bs| == v.elementCount && forall i | 0 <= i < |bs| :: |bs[i]| == d.stateSize
    requires begin <= end <= v.elementCount && i < v.elementCount && j < |cols|
    ensures var r, at := WrittenColumns(d, v, bs, cols, begin, end), i * v.outputs[j].stride;
            && at < |cols[j]| == |r[j]|
            && r[j][at] == if begin <= i < end then d.tick(bs[i], Rows(d, v)[i], v.params).1[j] else cols[j][at]
  {
    assert OutColumnStatus(v.outputs[j], v.elementCount) == Success;
    var values := Produced(d, Rows(d, v), v.params, bs, j);
    WrittenPlace(cols[j], v.outputs[j].stride, values, begin, end, i);
  }

  /** A view that has run some batches, starting from the given states and bytes. */
  ghost predicate HasRun(d: Descriptor, v: View, bs: seq<seq<Byte>>, raw: seq<Byte>, batches: seq<Batch>)
    requires Validated(d, v) && Covered(d, v) && AllRunnable(d, v.elementCount, batches) && |bs| == v.elementCount
    reads v.states, OutputArrays(v.outputs)
  {
    && States(d, v) == AfterBatches(d, v.elementCount, bs, batches)
    && ShowAll(d, v, Columns(d, v), bs, batches)
    && SamePadding(d, v, raw, Raw(v))
  }

  /** A batch leaves each element's latest outputs in the columns. */
  lemma ShowsNext(d: Descriptor, v: View, now: seq<seq<Byte>>, cols: seq<seq<Value>>, b: Batch, i: nat,
                  outs: Option<seq<Value>>)
    requires d.Lawful() && Validated(d, v) && Covered(d, v) && FitColumns(d, v, cols) && v.params == b.params
    requires |now| == v.elementCount && (forall i | 0 <= i < |now| :: |now[i]| == d.stateSize)
    requires b.begin + b.count <= v.elementCount && i < v.elementCount && Shows(v, cols, i, outs)
    ensures Shows(v, WrittenColumns(d, v, now, cols, b.begin, b.begin + b.count), i,
                  if b.begin <= i < b.begin + b.count then Some(d.tick(now[i], Rows(d, v)[i], b.params).1) else outs)
  {
    var r := WrittenColumns(d, v, now, cols, b.begin, b.begin + b.count);
    forall j | 0 <= j < |r|
      ensures i * v.outputs[j].stride < |cols[j]| == |r[j]|
      ensures r[j][i * v.outputs[j].stride]
           == if b.begin <= i < b.begin + b.count then d.tick(now[i], Rows(d, v)[i], b.params).1[j]
              else cols[j][i * v.outputs[j].stride]
    {
      ColumnPlace(d, v, now, cols, b.begin, b.begin + b.count, i, j);
    }
  }

  lemma ShowStep(d: Descriptor, v: View, bs: seq<seq<Byte>>, now: seq<seq<Byte>>, cols: seq<seq<Value>>,
                 done: seq<Batch>, b: Batch)
    requires d.Lawful() && Validated(d, v) && Covered(d, v) && FitColumns(d, v, cols) && v.params == b.params
    requires AllRunnable(d, v.elementCount, done) && Runnable(d, v.elementCount, b) && |bs| == v.elementCount
    requires now == AfterBatches(d, v.elementCount, bs, done) && ShowAll(d, v, cols, bs, done)
    requires forall i | 0 <= i < |now| :: |now[i]| == d.stateSize
    requires Rows(d, v) == BatchRows(d, v.elementCount, b)
    ensures AllRunnable(d, v.elementCount, done + [b])
    ensures ShowAll(d, v, WrittenColumns(d, v, now, cols, b.begin, b.begin + b.count), bs, done + [b])
  {
    OneMore(d, v.elementCount, bs, done, b);
    forall i: nat | i < v.elementCount
      ensures Shows(v, WrittenColumns(d, v, now, cols, b.begin, b.begin + b.count), i,
                    LastOutputs(d, v.elementCount, bs, done + [b], i))
    {
      OneMoreOutput(d, v.elementCount, bs, done, b, i);
      ShowsNext(d, v, now, cols, b, i, LastOutputs(d, v.elementCount, bs, done, i));
    }
  }

  /** `Shows` looks at the output columns only, which a batch does not choose. */
  lemma BatchShows(d: Descriptor, v: View, b: Batch, cols: seq<seq<Value>>, bs: seq<seq<Byte>>, batches: seq<Batch>)
    requires AllRunnable(d, v.elementCount, batches) && |bs| == v.elementCount
    ensures ShowAll(d, With(v, b), cols, bs, batches) <==> ShowAll(d, v, cols, bs, batches)
  {
    forall i, outs | 0 <= i < v.elementCount ensures Shows(With(v, b), cols, i, outs) <==> Shows(v, cols, i, outs) {
    }
  }

  lemma BatchDone(d: Descriptor, v: View, b: Batch, bs: seq<seq<Byte>>, now: seq<seq<Byte>>, cols: seq<seq<Value>>,
                  done: seq<Batch>)
    requires d.Lawful() && Validated(d, v) && Covered(d, v) && FitColumns(d, v, cols)
    requires Validated(d, With(v, b)) && Covered(d, With(v, b))
    requires AllRunnable(d, v.elementCount, done) && Runnable(d, v.elementCount, b) && |bs| == v.elementCount
    requires now == AfterBatches(d, v.elementCount, bs, done) && ShowAll(d, v, cols, bs, done)
    requires forall i | 0 <= i < |now| :: |now[i]| == d.stateSize
    ensures AllRunnable(d, v.elementCount, done + [b])
    ensures Ticked(d, Rows(d, With(v, b)), b.params, now, b.begin, b.begin + b.count)
         == AfterBatches(d, v.elementCount, bs, done + [b])
    ensures ShowAll(d, v, WrittenColumns(d, With(v, b), now, cols, b.begin, b.begin + b.count), bs, done + [b])
  {
    var u := With(v, b);
    BatchView(d, v, b);
    OneMore(d, v.elementCount, bs, done, b);
    BatchShows(d, v, b, cols, bs, done);
    ShowStep(d, u, bs, now, cols, done, b);
    BatchShows(d, v, b, WrittenColumns(d, u, now, cols, b.begin, b.begin + b.count), bs, done + [b]);
  }

  /** A batch chooses inputs, not storage. */
  lemma SameStorage(d: Descriptor, v: View, b: Batch)
    requires Validated(d, v) && Covered(d, v) && Validated(d, With(v, b)) && Covered(d, With(v, b))
    ensures States(d, With(v, b)) == States(d, v) && Columns(d, With(v, b)) == Columns(d, v)
  {
  }

  lemma PaddingAlike(d: Descriptor, v: View, b: Batch, before: seq<Byte>, after: seq<Byte>)
    ensures SamePadding(d, With(v, b), before, after) <==> SamePadding(d, v, before, after)
  {
  }

  /** Run one more batch. */
  method RunBatch(d: Descriptor, v: View, b: Batch, ghost bs: seq<seq<Byte>>, ghost raw: seq<Byte>,
                  ghost done: seq<Batch>)
    requires d.Lawful() && Validated(d, v) && Covered(d, v) && SeparateOutputs(v)
    requires AllRunnable(d, v.elementCount, done) && Runnable(d, v.elementCount, b) && |bs| == v.elementCount
    requires HasRun(d, v, bs, raw, done)
    modifies v.states, OutputArrays(v.outputs)
    ensures AllRunnable(d, v.elementCount, done + [b])
    ensures HasRun(d, v, bs, raw, done + [b])
  {
    ghost var now, cols := States(d, v), Columns(d, v);
    BatchView(d, v, b);
    RunWith(d, v, b, now, cols, raw);
    BatchDone(d, v, b, bs, now, cols, done);
  }

  /** Run with the inputs of a batch, told in terms of the view's own storage. */
  method RunWith(d: Descriptor, v: View, b: Batch, ghost now: seq<seq<Byte>>, ghost cols: seq<seq<Value>>,
                 ghost raw: seq<Byte>)
    requires d.Lawful() && Validated(d, v) && Covered(d, v) && SeparateOutputs(v) && b.begin + b.count <= v.elementCount
    requires Validated(d, With(v, b)) && Covered(d, With(v, b))
    requires now == States(d, v) && cols == Columns(d, v) && SamePadding(d, v, raw, Raw(v))
    modifies v.states, OutputArrays(v.outputs)
    ensures FitColumns(d, v, cols)
    ensures States(d, v) == Ticked(d, Rows(d, With(v, b)), b.params, now, b.begin, b.begin + b.count)
    ensures FitColumns(d, With(v, b), cols)
    ensures Columns(d, v) == WrittenColumns(d, With(v, b), now, cols, b.begin, b.begin + b.count)
    ensures SamePadding(d, v, raw, Raw(v))
  {
    SameStorage(d, v, b);
    PaddingAlike(d, v, b, raw, Raw(v));
    RunPart(d, With(v, b), b.begin, b.count, now, cols, raw);
    SameStorage(d, v, b);
    PaddingAlike(d, v, b, raw, Raw(v));
  }

  method RunBatches(d: Descriptor, v: View, batches: seq<Batch>)
    requires d.Lawful() && Validated(d, v) && Covered(d, v) && SeparateOutputs(v)
    requires AllRunnable(d, v.elementCount, batches)
    modifies v.states, OutputArrays(v.outputs)
    ensures HasRun(d, v, old(States(d, v)), old(Raw(v)), batches)
  {
    ghost var bs, raw := States(d, v), Raw(v);
    for k := 0 to |batches|
      invariant HasRun(d, v, bs, raw, batches[..k])
    {
      RunBatch(d, v, batches[k], bs, raw, batches[..k]);
      assert batches[..k + 1] == batches[..k] + [batches[k]];
    }
    assert batches[..|batches|] == batches;
  }

  // ----- snapshot, restore elsewhere, run on -----

  /** Two views of the same population in separate storage. */
  ghost predicate Apart(v: View, w: View) {
    && v.elementCount == w.elementCount
    && (v.states != null ==> v.states != w.states && v.states !in OutputArrays(w.outputs))
    && (w.states != null ==> w.states !in OutputArrays(v.outputs))
    && OutputArrays(v.outputs) !! OutputArrays(w.outputs)
  }

  /** Snapshot one view and restore it into another, whatever the strides. */
  method Transfer(d: Descriptor, layoutId: nat, v: View, w: View) returns (ok: bool)
    requires layoutId != 0 && Sized(d, v) && Apart(v, w)
    requires Validated(d, v) && Covered(d, v) && Validated(d, w) && Covered(d, w)
    modifies w.states
    ensures ok <==> v.elementCount * d.stateSize <= SIZE_MAX - HEADER_SIZE
    ensures States(d, v) == old(States(d, v))
    ensures States(d, w) == if ok then States(d, v) else old(States(d, w))
    ensures SamePadding(d, w, old(Raw(w)), Raw(w))
  {
    var status, data := Create(d, layoutId, v);
    if data == null {
      return false;
    }
    ghost var bs := States(d, v);
    SnapshotAccepted(d, layoutId, bs, w.states != null, w.stateStride);
    status := Restore(d, layoutId, data[..], w);
    ok := true;
  }

  /** The view is as if it had run both schedules from the given states without interruption. */
  ghost predicate Continued(d: Descriptor, w: View, bs: seq<seq<Byte>>, raw: seq<Byte>, before: seq<Batch>,
                            after: seq<Batch>)
    requires Validated(d, w) && Covered(d, w) && |bs| == w.elementCount
    requires AllRunnable(d, w.elementCount, before) && AllRunnable(d, w.elementCount, after)
    reads w.states, OutputArrays(w.outputs)
  {
    && States(d, w) == AfterBatches(d, w.elementCount, bs, before + after)
    && (forall i | 0 <= i < w.elementCount &&
          LastOutputs(d, w.elementCount, AfterBatches(d, w.elementCount, bs, before), after, i).Some? ::
            Shows(w, Columns(d, w), i, LastOutputs(d, w.elementCount, bs, before + after, i)))
    && SamePadding(d, w, raw, Raw(w))
  }

  lemma Uninterrupted(d: Descriptor, w: View, bs: seq<seq<Byte>>, raw: seq<Byte>, before: seq<Batch>, after: seq<Batch>)
    requires Validated(d, w) && Covered(d, w) && |bs| == w.elementCount
    requires AllRunnable(d, w.elementCount, before) && AllRunnable(d, w.elementCount, after)
    requires HasRun(d, w, AfterBatches(d, w.elementCount, bs, before), raw, after)
    ensures Continued(d, w, bs, raw, before, after)
  {
    StatesCompose(d, w.elementCount, bs, before, after);
    forall i: nat | i < w.elementCount &&
        LastOutputs(d, w.elementCount, AfterBatches(d, w.elementCount, bs, before), after, i).Some?
      ensures Shows(w, Columns(d, w), i, LastOutputs(d, w.elementCount, bs, before + after, i))
    {
      OutputsCompose(d, w.elementCount, bs, before, after, i);
    }
  }

  method TransferRun(d: Descriptor, layoutId: nat, v: View, w: View, after: seq<Batch>) returns (ok: bool)
    requires d.Lawful() && layoutId != 0 && Sized(d, v) && Apart(v, w) && SeparateOutputs(w)
    requires Validated(d, v) && Covered(d, v) && Validated(d, w) && Covered(d, w)
    requires AllRunnable(d, v.elementCount, after)
    modifies w.states, OutputArrays(w.outputs)
    ensures ok <==> v.elementCount * d.stateSize <= SIZE_MAX - HEADER_SIZE
    ensures ok ==> HasRun(d, w, old(States(d, v)), old(Raw(w)), after)
  {
    ghost var raw := Raw(w);
    ok := Transfer(d, layoutId, v, w);
    if ok {
      ghost var mid := Raw(w);
      RunBatches(d, w, after);
      assert SamePadding(d, w, raw, mid) && SamePadding(d, w, mid, Raw(w));
    }
  }

  /** The same as running both schedules on one view. */
  method RunTransferRun(d: Descriptor, layoutId: nat, v: View, w: View, before: seq<Batch>, after: seq<Batch>)
    returns (ok: bool)
    requires d.Lawful() && layoutId != 0 && Sized(d, v) && Apart(v, w) && SeparateOutputs(v) && SeparateOutputs(w)
    requires Validated(d, v) && Covered(d, v) && Validated(d, w) && Covered(d, w)
    requires AllRunnable(d, v.elementCount, before) && AllRunnable(d, v.elementCount, after)
    modifies v.states, OutputArrays(v.outputs), w.states, OutputArrays(w.outputs)
    ensures ok <==> v.elementCount * d.stateSize <= SIZE_MAX - HEADER_SIZE
    ensures HasRun(d, v, old(States(d, v)), old(Raw(v)), before)
    ensures ok ==> Continued(d, w, old(States(d, v)), old(Raw(w)), before, after)
  {
    ghost var bs, raw := States(d, v), Raw(w);
    RunBatches(d, v, before);
    ok := TransferRun(d, layoutId, v, w, after);
    if ok {
      Uninterrupted(d, w, bs, raw, before, after);
    }
  }
}
