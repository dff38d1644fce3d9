/** Several runs over one view (src/bulk.c): splitting a range, and disjoint ranges in either order. */
module BulkRuns {
  import opened Bytes
  import opened Blocks
  import opened Bulk

  /** All that a run can change: state blocks, output columns and the bytes of the state buffer. */
  datatype Storage = Storage(states: seq<seq<Byte>>, columns: seq<seq<Value>>, bytes: seq<Byte>)

  ghost function StorageOf(d: Descriptor, v: View): (s: Storage)
    requires Validated(d, v) && Covered(d, v)
    reads v.states, OutputArrays(v.outputs)
    ensures Fits(d, v, s)
  {
    ColumnsFit(d, v);
    Storage(States(d, v), Columns(d, v), Raw(v))
  }

  /** Blocks and bytes belong together, and the columns are long enough. */
  ghost predicate Fits(d: Descriptor, v: View, s: Storage) {
    && FitColumns(d, v, s.columns)
    && |s.states| == v.elementCount && (forall i | 0 <= i < |s.states| :: |s.states[i]| == d.stateSize)
    && (d.stateSize > 0 ==>
          && d.stateSize <= v.stateStride && Room(|s.bytes|, v.elementCount, v.stateStride, d.stateSize)
          && s.states == AllBlocks(s.bytes, v.elementCount, v.stateStride, d.stateSize))
  }

  /** Running the elements from `begin` up to `end` turns `s` into `t`. */
  ghost predicate Runs(d: Descriptor, v: View, s: Storage, t: Storage, begin: nat, end: nat)
    requires d.Lawful() && Validated(d, v) && Covered(d, v) && begin <= end <= v.elementCount
  {
    && Fits(d, v, s) && Fits(d, v, t)
    && t.states == Ticked(d, Rows(d, v), v.params, s.states, begin, end)
    && t.columns == WrittenColumns(d, v, s.states, s.columns, begin, end)
    && SamePadding(d, v, s.bytes, t.bytes)
  }

  // ----- the bytes follow from the blocks and the padding -----

  lemma BlockByte(s: seq<Byte>, n: nat, stride: nat, size: nat, i: nat, k: nat)
    requires Room(|s|, n, stride, size) && i < n && size > 0 && k < |s| && InBlock(k, i, stride, size)
    ensures s[k] == Block(s, n, stride, size, i)[k - i * stride]
  {
    RoomAt(|s|, n, stride, size, i);
  }

  lemma BytesDetermined(d: Descriptor, v: View, x: Storage, y: Storage, raw: seq<Byte>)
    requires Fits(d, v, x) && Fits(d, v, y) && x.states == y.states
    requires SamePadding(d, v, raw, x.bytes) && SamePadding(d, v, raw, y.bytes)
    ensures x.bytes == y.bytes
  {
    var n, stride, size := v.elementCount, v.stateStride, d.stateSize;
    forall k | 0 <= k < |x.bytes| ensures x.bytes[k] == y.bytes[k] {
      if i :| 0 <= i < n && InBlock(k, i, stride, size) {
        BlockByte(x.bytes, n, stride, size, i, k);
        BlockByte(y.bytes, n, stride, size, i, k);
        assert x.states[i] == y.states[i];
      } else {
        assert Padding(k, n, stride, size);
      }
    }
  }

  /** A run has one result: states, columns and bytes. */
  lemma RunsDetermined(d: Descriptor, v: View, s: Storage, x: Storage, y: Storage, begin: nat, end: nat)
    requires d.Lawful() && Validated(d, v) && Covered(d, v) && begin <= end <= v.elementCount
    requires Runs(d, v, s, x, begin, end) && Runs(d, v, s, y, begin, end)
    ensures x == y
  {
    BytesDetermined(d, v, x, y, s.bytes);
  }

  // ----- every run has a result -----

  /** A buffer with given first `m` blocks and the padding of `s`. */
  lemma {:induction false} BytesExist(s: seq<Byte>, n: nat, stride: nat, size: nat, bs: seq<seq<Byte>>, m: nat)
    returns (t: seq<Byte>)
    requires Room(|s|, n, stride, size) && 0 < size <= stride
    requires m <= n == |bs| && forall i | 0 <= i < n :: |bs[i]| == size
    ensures |t| == |s| && forall j | 0 <= j < m :: Block(t, n, stride, size, j) == bs[j]
    ensures forall k | 0 <= k < |s| && Padding(k, n, stride, size) :: t[k] == s[k]
  {
    t := s;
    if m > 0 {
      var i := m - 1;
      var u := BytesExist(s, n, stride, size, bs, i);
      RoomAt(|u|, n, stride, size, i);
      t := Splice(u, i * stride, bs[i]);
      forall j | 0 <= j < m ensures Block(t, n, stride, size, j) == bs[j] {
        SpliceBlock(u, n, stride, size, i, bs[i], j);
      }
      forall k | 0 <= k < |s| && Padding(k, n, stride, size) ensures t[k] == s[k] {
        assert !InBlock(k, i, stride, size);
      }
    }
  }

  lemma RunExists(d: Descriptor, v: View, s: Storage, begin: nat, end: nat) returns (t: Storage)
    requires d.Lawful() && Validated(d, v) && Covered(d, v) && begin <= end <= v.elementCount && Fits(d, v, s)
    ensures Runs(d, v, s, t, begin, end)
  {
    var n, stride, size := v.elementCount, v.stateStride, d.stateSize;
    var bs := Ticked(d, Rows(d, v), v.params, s.states, begin, end);
    var bytes := s.bytes;
    if size > 0 {
      bytes := BytesExist(s.bytes, n, stride, size, bs, n);
      assert AllBlocks(bytes, n, stride, size) == bs;
    }
    t := Storage(bs, WrittenColumns(d, v, s.states, s.columns, begin, end), bytes);
  }

  // ----- splitting and reordering -----

  lemma ColumnStride(d: Descriptor, v: View, j: nat)
    requires Validated(d, v) && j < |v.outputs|
    ensures v.elementCount > 1 ==> v.outputs[j].stride > 0
  {
    assert OutColumnStatus(v.outputs[j], v.elementCount) == Success;
  }

  lemma ColumnsSplit(d: Descriptor, v: View, s: Storage, x: Storage, t: Storage, begin: nat, mid: nat, end: nat)
    requires d.Lawful() && Validated(d, v) && Covered(d, v) && begin <= mid <= end <= v.elementCount
    requires Runs(d, v, s, x, begin, mid) && Runs(d, v, x, t, mid, end)
    ensures t.columns == WrittenColumns(d, v, s.states, s.columns, begin, end)
  {
    var r := WrittenColumns(d, v, s.states, s.columns, begin, end);
    forall j | 0 <= j < |r| ensures t.columns[j] == r[j] {
      RunSplitsOutputs(d, Rows(d, v), v.params, s.states, j, s.columns[j], v.outputs[j].stride, begin, mid, end);
    }
  }

  /** Running a range is running any split of it: states, columns and bytes. */
  lemma RunsCompose(d: Descriptor, v: View, s: Storage, x: Storage, t: Storage, begin: nat, mid: nat, end: nat)
    requires d.Lawful() && Validated(d, v) && Covered(d, v) && begin <= mid <= end <= v.elementCount
    requires Runs(d, v, s, x, begin, mid) && Runs(d, v, x, t, mid, end)
    ensures Runs(d, v, s, t, begin, end)
  {
    RunSplits(d, Rows(d, v), v.params, s.states, begin, mid, end);
    ColumnsSplit(d, v, s, x, t, begin, mid, end);
  }

  lemma ColumnsCommute(d: Descriptor, v: View, s: Storage, x: Storage, y: Storage, x': Storage, y': Storage,
                       a: nat, b: nat, p: nat, q: nat)
    requires d.Lawful() && Validated(d, v) && Covered(d, v)
    requires a <= b <= v.elementCount && p <= q <= v.elementCount && (b <= p || q <= a)
    requires Runs(d, v, s, x, a, b) && Runs(d, v, x, y, p, q)
    requires Runs(d, v, s, x', p, q) && Runs(d, v, x', y', a, b)
    ensures y.columns == y'.columns
  {
    forall j | 0 <= j < |y.columns| ensures y.columns[j] == y'.columns[j] {
      ColumnStride(d, v, j);
      DisjointRangesCommuteOutputs(d, Rows(d, v), v.params, s.states, j, s.columns[j], v.outputs[j].stride, a, b, p, q);
    }
  }

  /** Disjoint ranges give the same states, columns and bytes in either order. */
  lemma RunsCommute(d: Descriptor, v: View, s: Storage, x: Storage, y: Storage, x': Storage, y': Storage,
                    a: nat, b: nat, p: nat, q: nat)
    requires d.Lawful() && Validated(d, v) && Covered(d, v)
    requires a <= b <= v.elementCount && p <= q <= v.elementCount && (b <= p || q <= a)
    requires Runs(d, v, s, x, a, b) && Runs(d, v, x, y, p, q)
    requires Runs(d, v, s, x', p, q) && Runs(d, v, x', y', a, b)
    ensures y == y'
  {
    DisjointRangesCommute(d, Rows(d, v), v.params, s.states, a, b, p, q);
    ColumnsCommute(d, v, s, x, y, x', y', a, b, p, q);
    PaddingChain(d, v, s.bytes, x.bytes, y.bytes);
    PaddingChain(d, v, s.bytes, x'.bytes, y'.bytes);
    BytesDetermined(d, v, y, y', s.bytes);
  }

  lemma PaddingChain(d: Descriptor, v: View, a: seq<Byte>, b: seq<Byte>, c: seq<Byte>)
    requires SamePadding(d, v, a, b) && SamePadding(d, v, b, c)
    ensures SamePadding(d, v, a, c)
  {
  }

  // ----- with the run loop itself -----

  /** One call of the run loop on a valid range. */
  method RunOnce(d: Descriptor, v: View, begin: nat, end: nat)
    requires d.Lawful() && Validated(d, v) && Covered(d, v) && SeparateOutputs(v) && begin <= end <= v.elementCount
    modifies v.states, OutputArrays(v.outputs)
    ensures Runs(d, v, old(StorageOf(d, v)), StorageOf(d, v), begin, end)
  {
    var status := RunRange(d, v, begin, end - begin);
  }

  /** Two calls on the parts of a range leave what one call on the range leaves. */
  method RunInParts(d: Descriptor, v: View, begin: nat, mid: nat, end: nat)
    requires d.Lawful() && Validated(d, v) && Covered(d, v) && SeparateOutputs(v)
    requires begin <= mid <= end <= v.elementCount
    modifies v.states, OutputArrays(v.outputs)
    ensures Runs(d, v, old(StorageOf(d, v)), StorageOf(d, v), begin, end)
  {
    ghost var s := StorageOf(d, v);
    RunOnce(d, v, begin, mid);
    ghost var x := StorageOf(d, v);
    RunOnce(d, v, mid, end);
    RunsCompose(d, v, s, x, StorageOf(d, v), begin, mid, end);
  }

  /** The ranges can be run in the other order, and that leaves the same. */
  lemma OtherOrder(d: Descriptor, v: View, s: Storage, x: Storage, y: Storage, a: nat, b: nat, p: nat, q: nat)
    returns (x': Storage)
    requires d.Lawful() && Validated(d, v) && Covered(d, v)
    requires a <= b <= v.elementCount && p <= q <= v.elementCount && (b <= p || q <= a)
    requires Runs(d, v, s, x, a, b) && Runs(d, v, x, y, p, q)
    ensures Runs(d, v, s, x', p, q) && Runs(d, v, x', y, a, b)
  {
    x' := RunExists(d, v, s, p, q);
    var y' := RunExists(d, v, x', a, b);
    RunsCommute(d, v, s, x, y, x', y', a, b, p, q);
  }

  /** Two calls on disjoint ranges leave what the calls in the other order leave, and nothing else. */
  method RunDisjoint(d: Descriptor, v: View, a: nat, b: nat, p: nat, q: nat)
    requires d.Lawful() && Validated(d, v) && Covered(d, v) && SeparateOutputs(v)
    requires a <= b <= v.elementCount && p <= q <= v.elementCount && (b <= p || q <= a)
    modifies v.states, OutputArrays(v.outputs)
    ensures forall x: Storage, y: Storage {:trigger Runs(d, v, x, y, a, b)} ::
              Runs(d, v, old(StorageOf(d, v)), x, p, q) && Runs(d, v, x, y, a, b) ==> y == StorageOf(d, v)
    ensures exists x: Storage :: Runs(d, v, old(StorageOf(d, v)), x, p, q) && Runs(d, v, x, StorageOf(d, v), a, b)
  {
    ghost var s := StorageOf(d, v);
    RunOnce(d, v, a, b);
    ghost var mid := StorageOf(d, v);
    RunOnce(d, v, p, q);
    ghost var now := StorageOf(d, v);
    ghost var other := OtherOrder(d, v, s, mid, now, a, b, p, q);
    forall x: Storage, y: Storage | Runs(d, v, s, x, p, q) && Runs(d, v, x, y, a, b) ensures y == now {
      RunsCommute(d, v, s, mid, now, x, y, a, b, p, q);
    }
  }
}
