/** The sorted population store of src/bulk_state_store.c: parallel id and state arrays. */
module StateStore {
  import opened Common
  import opened Bytes
  import opened Blocks
  import opened Bulk

  const ALIGNMENT: nat := 16  // _Alignof(max_align_t)

  datatype StoreStatus = Stored | DescriptorInvalid | DuplicateId | IdNotFound | AllocationFailed

  /** `aligned_stride`; zero also stands for a size that cannot be rounded up. */
  function AlignedStride(size: nat): (stride: nat)
    ensures 0 < size <= SIZE_MAX - (ALIGNMENT - 1) ==> size <= stride
    ensures size == 0 ==> stride == 0
  {
    if size == 0 || size > SIZE_MAX - (ALIGNMENT - 1) then 0
    else (size + ALIGNMENT - 1) / ALIGNMENT * ALIGNMENT
  }

  /** The least multiple of 16 that holds the size, or zero for no size and for one that cannot be rounded up. */
  lemma StrideExactly(size: nat)
    ensures 0 < size <= SIZE_MAX - 15 ==> AlignedStride(size) % 16 == 0 && size <= AlignedStride(size) < size + 16
    ensures size == 0 || size > SIZE_MAX - 15 ==> AlignedStride(size) == 0
  {
  }

  // ----- sorted ids and the map they stand for -----

  ghost predicate Ascending(ids: seq<nat>) {
    forall i, j | 0 <= i < j < |ids| :: ids[i] < ids[j]
  }

  /** Two parallel sequences hold the entries of a map, in ascending order of id. */
  ghost predicate Holds(ids: seq<nat>, bs: seq<seq<Byte>>, m: map<nat, seq<Byte>>) {
    && |ids| == |bs| && Ascending(ids)
    && (forall i | 0 <= i < |ids| :: ids[i] in m && m[ids[i]] == bs[i])
    && (forall x | x in m :: x in ids)
  }

  /** `p` is where `id` is, or where it would have to be put. */
  ghost predicate IsLowerBound(ids: seq<nat>, id: nat, p: nat) {
    && p <= |ids|
    && (forall i | 0 <= i < p :: ids[i] < id)
    && (forall i | p <= i < |ids| :: ids[i] >= id)
  }

  function Insert<T>(s: seq<T>, p: nat, x: T): (r: seq<T>)
    requires p <= |s|
    ensures |r| == |s| + 1
    ensures forall i | 0 <= i < |r| :: r[i] == if i < p then s[i] else if i == p then x else s[i - 1]
  {
    s[..p] + [x] + s[p..]
  }

  function Delete<T>(s: seq<T>, p: nat): (r: seq<T>)
    requires p < |s|
    ensures |r| == |s| - 1
    ensures forall i | 0 <= i < |r| :: r[i] == if i < p then s[i] else s[i + 1]
  {
    s[..p] + s[p + 1..]
  }

  lemma InsertedAll(s: seq<nat>, p: nat, x: nat, y: nat)
    requires p <= |s| && (y == x || y in s)
    ensures y in Insert(s, p, x)
  {
    var r := Insert(s, p, x);
    if y == x {
      assert r[p] == y;
    } else {
      var i :| 0 <= i < |s| && s[i] == y;
      assert r[if i < p then i else i + 1] == y;
    }
  }

  lemma DeletedOne(s: seq<nat>, p: nat, y: nat)
    requires p < |s| && y in s && y != s[p]
    ensures y in Delete(s, p)
  {
    var i :| 0 <= i < |s| && s[i] == y;
    assert Delete(s, p)[if i < p then i else i - 1] == y;
  }

  lemma InsertAscends(ids: seq<nat>, id: nat, p: nat)
    requires Ascending(ids) && IsLowerBound(ids, id, p) && id !in ids
    ensures Ascending(Insert(ids, p, id))
  {
  }

  /** A new id put at its lower bound, with its block, adds that entry to the map. */
  lemma InsertHolds(ids: seq<nat>, bs: seq<seq<Byte>>, m: map<nat, seq<Byte>>, id: nat, b: seq<Byte>, p: nat)
    requires Holds(ids, bs, m) && IsLowerBound(ids, id, p) && id !in m
    ensures Holds(Insert(ids, p, id), Insert(bs, p, b), m[id := b])
  {
    var ids', bs', m' := Insert(ids, p, id), Insert(bs, p, b), m[id := b];
    assert id !in ids;
    InsertAscends(ids, id, p);
    forall i | 0 <= i < |ids'| ensures ids'[i] in m' && m'[ids'[i]] == bs'[i] {
      if i != p {
        var o := if i < p then i else i - 1;
        assert ids'[i] == ids[o] && bs'[i] == bs[o];
      }
    }
    forall x | x in m' ensures x in ids' {
      InsertedAll(ids, p, id, x);
    }
  }

  lemma DeleteHolds(ids: seq<nat>, bs: seq<seq<Byte>>, m: map<nat, seq<Byte>>, p: nat)
    requires Holds(ids, bs, m) && p < |ids|
    ensures Holds(Delete(ids, p), Delete(bs, p), m - {ids[p]})
  {
    DeleteAscends(ids, p);
    var ids', bs' := Delete(ids, p), Delete(bs, p);
    forall i | 0 <= i < |ids'| ensures ids'[i] in m - {ids[p]} && (m - {ids[p]})[ids'[i]] == bs'[i] {
      var j := if i < p then i else i + 1;
      assert ids'[i] == ids[j] && bs'[i] == bs[j];
    }
    forall x | x in m - {ids[p]} ensures x in ids' {
      DeletedOne(ids, p, x);
    }
  }

  lemma DeleteAscends(ids: seq<nat>, p: nat)
    requires Ascending(ids) && p < |ids|
    ensures Ascending(Delete(ids, p))
    ensures forall i | 0 <= i < |Delete(ids, p)| :: Delete(ids, p)[i] != ids[p]
  {
  }

  lemma SameFrontAndLast<T>(s: seq<T>, t: seq<T>)
    requires s != [] && t != [] && Delete(s, |s| - 1) == Delete(t, |t| - 1) && s[|s| - 1] == t[|t| - 1]
    ensures s == t
  {
    var u := Delete(s, |s| - 1);
    assert |s| == |u| + 1 == |t|;
    forall i | 0 <= i < |s| ensures s[i] == t[i] {
      assert i < |u| ==> u[i] == s[i] && u[i] == t[i];
    }
  }

  /** The arrays are determined by the map alone, whatever order the ids arrived in. */
  lemma {:induction false} MapDeterminesArrays(ids: seq<nat>, bs: seq<seq<Byte>>,
                                               ids': seq<nat>, bs': seq<seq<Byte>>, m: map<nat, seq<Byte>>)
    requires Holds(ids, bs, m) && Holds(ids', bs', m)
    ensures ids == ids' && bs == bs'
    decreases |ids|
  {
    if ids == [] || ids' == [] {
      EmptyTogether(ids, bs, m);
      EmptyTogether(ids', bs', m);
    } else {
      var n, n' := |ids| - 1, |ids'| - 1;
      LastIsGreatest(ids, bs, ids', bs', m);
      assert bs[n] == bs'[n'];
      DeleteHolds(ids, bs, m, n);
      DeleteHolds(ids', bs', m, n');
      MapDeterminesArrays(Delete(ids, n), Delete(bs, n), Delete(ids', n'), Delete(bs', n'), m - {ids[n]});
      SameFrontAndLast(ids, ids');
      SameFrontAndLast(bs, bs');
    }
  }

  lemma EmptyTogether(ids: seq<nat>, bs: seq<seq<Byte>>, m: map<nat, seq<Byte>>)
    requires Holds(ids, bs, m)
    ensures ids == [] <==> m == map[]
  {
    if ids != [] {
      assert ids[0] in m;
    }
  }

  lemma LastIsGreatest(ids: seq<nat>, bs: seq<seq<Byte>>, ids': seq<nat>, bs': seq<seq<Byte>>, m: map<nat, seq<Byte>>)
    requires Holds(ids, bs, m) && Holds(ids', bs', m) && ids != [] && ids' != []
    ensures ids[|ids| - 1] == ids'[|ids'| - 1]
  {
    assert ids[|ids| - 1] in ids' && ids'[|ids'| - 1] in ids;
  }

  /** The entries of two parallel sequences. */
  ghost function Entries(ids: seq<nat>, bs: seq<seq<Byte>>): (m: map<nat, seq<Byte>>)
    requires |ids| == |bs| && Ascending(ids)
    ensures Holds(ids, bs, m)
  {
    map id | id in ids :: bs[Rank(ids, id)]
  }

  /** The place of an id among the ids. */
  ghost function Rank(ids: seq<nat>, id: nat): (i: nat)
    requires id in ids
    ensures i < |ids| && ids[i] == id
  {
    var i :| 0 <= i < |ids| && ids[i] == id; i
  }

  lemma HoldsEntries(ids: seq<nat>, bs: seq<seq<Byte>>, m: map<nat, seq<Byte>>)
    requires Holds(ids, bs, m)
    ensures m == Entries(ids, bs)
  {
    var e := Entries(ids, bs);
    forall id | id in m ensures id in e && e[id] == m[id] {
      assert ids[Rank(ids, id)] == id;
    }
  }

  /** The first `n` elements of an array that is only there when it is needed. */
  ghost function Front<T>(a: array?<T>, n: nat): (s: seq<T>)
    requires n == 0 || (a != null && n <= a.Length)
    reads a
    ensures |s| == n
  {
    if a == null then [] else a[..n]
  }

  /** The binary search of `lower_bound`. */
  method LowerBound(ids: array?<nat>, n: nat, id: nat) returns (first: nat, found: bool)
    requires n == 0 || (ids != null && n <= ids.Length)
    requires Ascending(Front(ids, n))
    ensures IsLowerBound(Front(ids, n), id, first)
    ensures found <==> first < n && Front(ids, n)[first] == id
    ensures found <==> id in Front(ids, n)
  {
    ghost var s := Front(ids, n);
    first := 0;
    var count := n;
    while count > 0
      invariant 0 <= first && 0 <= count && first + count <= n
      invariant forall i | 0 <= i < first :: s[i] < id
      invariant forall i | first + count <= i < n :: s[i] >= id
      decreases count
    {
      var step := count / 2;
      var index := first + step;
      assert ids[index] == s[index];
      if ids[index] < id {
        first := index + 1;
        count := count - (step + 1);
      } else {
        count := step;
      }
    }
    found := first < n && ids[first] == id;
  }

  // ----- moving state blocks -----

  /** The elements from `at` to `end` moved up by `gap`. */
  ghost predicate MovedUp<T>(s: seq<T>, t: seq<T>, at: nat, end: nat, gap: nat) {
    && |s| == |t| && at <= end && end + gap <= |s|
    && (forall k | 0 <= k < at :: t[k] == s[k])
    && (forall k | at + gap <= k < end + gap :: t[k] == s[k - gap])
  }

  /** The elements from `at + gap` to `end` moved down by `gap`. */
  ghost predicate MovedDown<T>(s: seq<T>, t: seq<T>, at: nat, end: nat, gap: nat) {
    && |s| == |t| && at + gap <= end <= |s|
    && (forall k | 0 <= k < at :: t[k] == s[k])
    && (forall k | at <= k < end - gap :: t[k] == s[k + gap])
  }

  /** `memmove` towards higher addresses. */
  method MoveUp<T>(a: array<T>, at: nat, end: nat, gap: nat)
    requires at <= end && end + gap <= a.Length
    modifies a
    ensures MovedUp(old(a[..]), a[..], at, end, gap)
  {
    ghost var was := a[..];
    forall k | at <= k < end {
      a[k + gap] := a[k];
    }
    forall k | at + gap <= k < end + gap ensures a[..][k] == was[k - gap] {
      assert a[(k - gap) + gap] == was[k - gap];
    }
  }

  /** `memmove` towards lower addresses. */
  method MoveDown<T>(a: array<T>, at: nat, end: nat, gap: nat)
    requires at + gap <= end <= a.Length
    modifies a
    ensures MovedDown(old(a[..]), a[..], at, end, gap)
  {
    forall k | at <= k < end - gap {
      a[k] := a[k + gap];
    }
  }

  lemma MovedUpSlice(s: seq<Byte>, t: seq<Byte>, at: nat, end: nat, gap: nat, from: nat, size: nat)
    requires MovedUp(s, t, at, end, gap) && from + size <= |s|
    requires from + size <= at || (at + gap <= from && from + size <= end + gap)
    ensures t[from..from + size] == if from + size <= at then s[from..from + size] else s[from - gap..from - gap + size]
  {
  }

  lemma MovedDownSlice(s: seq<Byte>, t: seq<Byte>, at: nat, end: nat, gap: nat, from: nat, size: nat)
    requires MovedDown(s, t, at, end, gap) && from + size <= |s|
    requires from + size <= at || (at <= from && from + size <= end - gap)
    ensures t[from..from + size] == if from + size <= at then s[from..from + size] else s[from + gap..from + gap + size]
  {
  }

  /** Where block `i` lies when the blocks from block `p` of `n` on move up by one. */
  lemma UpPlaces(stride: nat, size: nat, n: nat, p: nat, i: nat)
    requires 0 < size <= stride && p <= n && i <= n && i != p
    ensures i < p ==> i * stride + size <= p * stride
    ensures i > p ==> p * stride + stride <= i * stride && i * stride + size <= n * stride + stride
    ensures i > p ==> (i - 1) * stride == i * stride - stride
  {
    if i < p {
      BlocksDisjoint(stride, size, i, p);
    } else {
      BlocksDisjoint(stride, stride, p, i);
      MulMonotone(i, n, stride);
      assert (i - 1) * stride == i * stride - stride;
    }
  }

  lemma MovedUpBlock(s: seq<Byte>, t: seq<Byte>, n: nat, stride: nat, size: nat, p: nat, i: nat)
    requires 0 < size <= stride && p <= n && i <= n && i != p
    requires Room(|s|, n, stride, size) && Room(|t|, n + 1, stride, size)
    requires MovedUp(s, t, p * stride, n * stride, stride)
    ensures Block(t, n + 1, stride, size, i) == Block(s, n, stride, size, if i < p then i else i - 1)
  {
    UpPlaces(stride, size, n, p, i);
    if i < p {
      KeptBelowBlock(s, t, n, stride, size, i, i * stride, p * stride, n * stride);
    } else {
      MovedUpBlockAt(s, t, n, stride, size, i, i * stride, p * stride, n * stride);
    }
  }

  lemma KeptBelowBlock(s: seq<Byte>, t: seq<Byte>, n: nat, stride: nat, size: nat, i: nat,
                       to: nat, at: nat, end: nat)
    requires 0 < size <= stride && i < n && to == i * stride && to + size <= at
    requires Room(|s|, n, stride, size) && Room(|t|, n + 1, stride, size) && MovedUp(s, t, at, end, stride)
    ensures Block(t, n + 1, stride, size, i) == Block(s, n, stride, size, i)
  {
    MovedUpSlice(s, t, at, end, stride, to, size);
    SameSliceSameBlock(s, n, t, n + 1, stride, size, i, i, to, to);
  }

  lemma MovedUpBlockAt(s: seq<Byte>, t: seq<Byte>, n: nat, stride: nat, size: nat, i: nat,
                       to: nat, at: nat, end: nat)
    requires 0 < size <= stride && 0 < i <= n && to == i * stride && (i - 1) * stride == to - stride
    requires at + stride <= to && to + size <= end + stride
    requires Room(|s|, n, stride, size) && Room(|t|, n + 1, stride, size) && MovedUp(s, t, at, end, stride)
    ensures Block(t, n + 1, stride, size, i) == Block(s, n, stride, size, i - 1)
  {
    MovedUpSlice(s, t, at, end, stride, to, size);
    SameSliceSameBlock(s, n, t, n + 1, stride, size, i - 1, i, to - stride, to);
  }

  /** Equal bytes at their places make equal blocks. */
  lemma SameSliceSameBlock(s: seq<Byte>, m: nat, t: seq<Byte>, n: nat, stride: nat, size: nat,
                           i: nat, j: nat, from: nat, to: nat)
    requires size > 0 && i < m && j < n && from == i * stride && to == j * stride
    requires Room(|s|, m, stride, size) && Room(|t|, n, stride, size)
    requires from + size <= |s| && to + size <= |t| && s[from..from + size] == t[to..to + size]
    ensures Block(s, m, stride, size, i) == Block(t, n, stride, size, j)
  {
    BlockSlice(s, m, stride, size, i, from);
    BlockSlice(t, n, stride, size, j, to);
  }

  /** Opening a gap of one stride inserts a block there. */
  lemma MovedUpBlocks(s: seq<Byte>, t: seq<Byte>, n: nat, stride: nat, size: nat, p: nat)
    requires 0 < size <= stride && p <= n
    requires Room(|s|, n, stride, size) && Room(|t|, n + 1, stride, size)
    requires MovedUp(s, t, p * stride, n * stride, stride)
    ensures AllBlocks(t, n + 1, stride, size)
         == Insert(AllBlocks(s, n, stride, size), p, Block(t, n + 1, stride, size, p))
  {
    var l := AllBlocks(t, n + 1, stride, size);
    var r := Insert(AllBlocks(s, n, stride, size), p, Block(t, n + 1, stride, size, p));
    forall i | 0 <= i < |l| ensures l[i] == r[i] {
      if i != p {
        MovedUpBlock(s, t, n, stride, size, p, i);
      }
    }
  }

  /** Where block `i` lies when the blocks after block `p` of `n` move down by one. */
  lemma DownPlaces(stride: nat, size: nat, n: nat, p: nat, i: nat)
    requires 0 < size <= stride && p < n && i < n - 1
    ensures i < p ==> i * stride + size <= p * stride
    ensures i >= p ==> p * stride <= i * stride && i * stride + size <= n * stride - stride
    ensures (i + 1) * stride == i * stride + stride
  {
    assert (i + 1) * stride == i * stride + stride;
    if i < p {
      BlocksDisjoint(stride, size, i, p);
    } else {
      MulMonotone(p, i, stride);
      BlocksDisjoint(stride, size, i, n - 1);
      assert (n - 1) * stride == n * stride - stride;
    }
  }

  lemma MovedDownBlock(s: seq<Byte>, t: seq<Byte>, n: nat, stride: nat, size: nat, p: nat, i: nat)
    requires 0 < size <= stride && p < n && i < n - 1
    requires Room(|s|, n, stride, size) && Room(|t|, n - 1, stride, size)
    requires MovedDown(s, t, p * stride, n * stride, stride)
    ensures Block(t, n - 1, stride, size, i) == Block(s, n, stride, size, if i < p then i else i + 1)
  {
    DownPlaces(stride, size, n, p, i);
    MovedDownBlockAt(s, t, n, stride, size, i, i * stride, p * stride, n * stride);
  }

  lemma MovedDownBlockAt(s: seq<Byte>, t: seq<Byte>, n: nat, stride: nat, size: nat, i: nat,
                         from: nat, at: nat, end: nat)
    requires 0 < size <= stride && i + 1 < n && from == i * stride && (i + 1) * stride == from + stride
    requires Room(|s|, n, stride, size) && Room(|t|, n - 1, stride, size) && MovedDown(s, t, at, end, stride)
    requires from + size <= at || (at <= from && from + size <= end - stride)
    ensures Block(t, n - 1, stride, size, i) == Block(s, n, stride, size, if from + size <= at then i else i + 1)
  {
    BlockSlice(t, n - 1, stride, size, i, from);
    if from + size <= at {
      BlockSlice(s, n, stride, size, i, from);
    } else {
      BlockSlice(s, n, stride, size, i + 1, from + stride);
    }
    MovedDownSlice(s, t, at, end, stride, from, size);
  }

  /** Closing a gap of one stride deletes the block there. */
  lemma MovedDownBlocks(s: seq<Byte>, t: seq<Byte>, n: nat, stride: nat, size: nat, p: nat)
    requires 0 < size <= stride && p < n
    requires Room(|s|, n, stride, size) && Room(|t|, n - 1, stride, size)
    requires MovedDown(s, t, p * stride, n * stride, stride)
    ensures AllBlocks(t, n - 1, stride, size) == Delete(AllBlocks(s, n, stride, size), p)
  {
    var l, r := AllBlocks(t, n - 1, stride, size), Delete(AllBlocks(s, n, stride, size), p);
    forall i | 0 <= i < |l| ensures l[i] == r[i] {
      MovedDownBlock(s, t, n, stride, size, p, i);
    }
  }

  lemma RoomForAll(length: nat, n: nat, stride: nat, size: nat)
    requires n * stride <= length && size <= stride
    ensures Room(length, n, stride, size)
  {
    if n > 0 {
      assert n * stride == (n - 1) * stride + stride;
    }
  }

  // ----- inserting and deleting in the arrays -----

  lemma MovedUpInserts(was: seq<nat>, moved: seq<nat>, n: nat, p: nat, id: nat)
    requires p <= n < |was| && MovedUp(was, moved, p, n, 1)
    ensures moved[p := id][..n + 1] == Insert(was[..n], p, id)
  {
    var l, r := moved[p := id][..n + 1], Insert(was[..n], p, id);
    forall i | 0 <= i < n + 1 ensures l[i] == r[i] {
      assert i < p ==> moved[i] == was[i];
      assert i > p ==> moved[i] == was[i - 1];
    }
  }

  lemma MovedDownDeletes(was: seq<nat>, moved: seq<nat>, n: nat, p: nat)
    requires p < n <= |was| && MovedDown(was, moved, p, n, 1)
    ensures moved[..n - 1] == Delete(was[..n], p)
  {
    var l, r := moved[..n - 1], Delete(was[..n], p);
    forall i | 0 <= i < n - 1 ensures l[i] == r[i] {
      assert i < p ==> moved[i] == was[i];
      assert i >= p ==> moved[i] == was[i + 1];
    }
  }

  method InsertId(a: array<nat>, n: nat, p: nat, id: nat)
    requires p <= n < a.Length
    modifies a
    ensures Front(a, n + 1) == Insert(old(Front(a, n)), p, id)
  {
    ghost var was := a[..];
    MoveUp(a, p, n, 1);
    ghost var moved := a[..];
    MovedUpInserts(was, moved, n, p, id);
    a[p] := id;
    assert a[..] == moved[p := id];
    assert was[..n] == old(a[..n]) && a[..n + 1] == a[..][..n + 1];
  }

  method DeleteId(a: array<nat>, n: nat, p: nat)
    requires p < n <= a.Length
    modifies a
    ensures Front(a, n - 1) == Delete(old(Front(a, n)), p)
  {
    ghost var was := a[..];
    MoveDown(a, p, n, 1);
    MovedDownDeletes(was, a[..], n, p);
    assert was[..n] == old(a[..n]) && a[..n - 1] == a[..][..n - 1];
  }

  /** What an agent starts from: zeroed bytes, then the model's reset. */
  function Zeros(n: nat): (z: seq<Byte>)
    ensures |z| == n
  {
    seq(n, _ => 0)
  }

  function FreshBlock(d: Descriptor): seq<Byte> {
    if d.stateSize == 0 then [] else ResetBlock(d, Zeros(d.stateSize))
  }

  lemma FreshSize(d: Descriptor)
    requires d.Lawful()
    ensures |FreshBlock(d)| == d.stateSize
  {
    assert d.reset.Some? && d.stateSize > 0 ==> |Zeros(d.stateSize)| == d.stateSize;
  }

  /**
   Without a reset callback, or with one that does not look at what it overwrites, resetting a range makes
   its agents as good as newly added, and leaves all others alone.
   */
  lemma ResetIsFresh(d: Descriptor, bs: seq<seq<Byte>>, begin: nat, end: nat, i: nat)
    requires d.stateSize > 0 && i < |bs|
    requires d.reset.Some? ==> forall b: seq<Byte>, c: seq<Byte> :: d.reset.value(b) == d.reset.value(c)
    ensures ResetBlocks(d, bs, begin, end)[i] == if begin <= i < end then FreshBlock(d) else bs[i]
    ensures d.reset.None? ==> |FreshBlock(d)| == d.stateSize && forall k | 0 <= k < d.stateSize :: FreshBlock(d)[k] == 0
    ensures d.reset.Some? ==> FreshBlock(d) == d.reset.value(Zeros(d.stateSize))
  {
    if d.reset.Some? {
      assert d.reset.value(bs[i]) == d.reset.value(Zeros(d.stateSize));
    } else {
      assert ResetBlock(d, bs[i]) == Zeros(d.stateSize) == FreshBlock(d);
    }
  }

  lemma PlaceFits(length: nat, n: nat, stride: nat, p: nat)
    requires p <= n && (n + 1) * stride <= length
    ensures p * stride <= n * stride && n * stride + stride <= length
  {
    MulMonotone(p, n, stride);
    assert (n + 1) * stride == n * stride + stride;
  }

  /** Overwriting inside the gap leaves the move as it was. */
  lemma GapIsFree(s: seq<Byte>, t: seq<Byte>, at: nat, end: nat, gap: nat, b: seq<Byte>)
    requires MovedUp(s, t, at, end, gap) && |b| <= gap
    ensures MovedUp(s, Splice(t, at, b), at, end, gap)
  {
  }

  /** Zero the gap, then reset the active bytes in it. */
  method FillGap(d: Descriptor, a: array<Byte>, at: nat, end: nat, gap: nat, ghost was: seq<Byte>)
    requires d.Lawful() && 0 < d.stateSize <= gap && MovedUp(was, a[..], at, end, gap)
    modifies a
    ensures MovedUp(was, a[..], at, end, gap)
    ensures at + d.stateSize <= a.Length && a[at..at + d.stateSize] == FreshBlock(d)
  {
    FreshSize(d);
    GapIsFree(was, a[..], at, end, gap, Zeros(gap));
    CopyInto(a, at, Zeros(gap));
    assert a[at..at + d.stateSize] == Zeros(d.stateSize);
    if d.reset.Some? {
      var b := d.reset.value(a[at..at + d.stateSize]);
      GapIsFree(was, a[..], at, end, gap, b);
      CopyInto(a, at, b);
    }
  }

  method InsertState(d: Descriptor, a: array<Byte>, n: nat, stride: nat, p: nat)
    requires d.Lawful() && 0 < d.stateSize <= stride && p <= n && (n + 1) * stride <= a.Length
    requires Room(a.Length, n, stride, d.stateSize) && Room(a.Length, n + 1, stride, d.stateSize)
    modifies a
    ensures AllBlocks(a[..], n + 1, stride, d.stateSize)
         == Insert(old(AllBlocks(a[..], n, stride, d.stateSize)), p, FreshBlock(d))
  {
    ghost var was := a[..];
    PlaceFits(a.Length, n, stride, p);
    MoveUp(a, p * stride, n * stride, stride);
    FillGap(d, a, p * stride, n * stride, stride, was);
    MovedUpBlocks(was, a[..], n, stride, d.stateSize, p);
    assert a[..][p * stride..p * stride + d.stateSize] == a[p * stride..p * stride + d.stateSize];
  }

  method DeleteState(a: array<Byte>, n: nat, stride: nat, size: nat, p: nat)
    requires 0 < size <= stride && p < n && n * stride <= a.Length
    requires Room(a.Length, n, stride, size) && Room(a.Length, n - 1, stride, size)
    modifies a
    ensures AllBlocks(a[..], n - 1, stride, size) == Delete(old(AllBlocks(a[..], n, stride, size)), p)
  {
    ghost var was := a[..];
    DeletedFits(n, stride, p);
    MoveDown(a, p * stride, n * stride, stride);
    MovedDownBlocks(was, a[..], n, stride, size, p);
  }

  lemma DeletedFits(n: nat, stride: nat, p: nat)
    requires p < n
    ensures p * stride + stride <= n * stride
  {
    BlocksDisjoint(stride, stride, p, n);
  }

  // ----- the store -----

  /** `capacity ? capacity * 2 : 8`; a capacity that passed `TooLarge` does not wrap when doubled. */
  function NextCapacity(capacity: nat): nat { if capacity > 0 then capacity * 2 else 8 }

  /** The size checks of `reserve`. */
  predicate TooLarge(capacity: nat, stride: nat) {
    capacity > SIZE_MAX / 8 || (stride > 0 && capacity > SIZE_MAX / stride)
  }

  /** The division guards are exact: both arrays have a size. */
  lemma TooLargeExactly(capacity: nat, stride: nat)
    ensures TooLarge(capacity, stride) <==> capacity * 8 > SIZE_MAX || capacity * stride > SIZE_MAX
  {
    OverflowsExactly(capacity + 1, 8);
    OverflowsExactly(capacity + 1, stride);
  }

  class Store {
    const d: Descriptor
    const stride: nat
    var ids: array?<nat>
    var states: array?<Byte>
    var count: nat
    var capacity: nat

    ghost predicate Valid()
      reads this, ids, states
    {
      && stride == AlignedStride(d.stateSize) && (d.stateSize > 0 ==> d.stateSize <= stride)
      && d.AbiValid() && d.Lawful() && d.stateSize <= SIZE_MAX
      && count <= capacity && !TooLarge(capacity, stride)
      && (ids == null <==> capacity == 0) && (ids != null ==> ids.Length == capacity)
      && (states == null <==> capacity == 0 || stride == 0)
      && (states != null ==> states.Length == capacity * stride && (ids as object?) != (states as object?))
      && Ascending(Front(ids, count))
    }

    ghost function Ids(): (s: seq<nat>)
      requires Valid()
      reads this, ids, states
      ensures |s| == count
    {
      Front(ids, count)
    }

    ghost function StateBlocks(): (bs: seq<seq<Byte>>)
      requires Valid()
      reads this, ids, states
      ensures |bs| == count && forall i | 0 <= i < |bs| :: |bs[i]| == d.stateSize
    {
      if d.stateSize == 0 || count == 0 then seq(count, _ => [])
      else
        StoreRoom(states.Length, count, capacity, stride, d.stateSize);
        AllBlocks(states[..], count, stride, d.stateSize)
    }

    /** The live agents and their state bytes. */
    ghost function Contents(): (m: map<nat, seq<Byte>>)
      requires Valid()
      reads this, ids, states
      ensures Holds(Ids(), StateBlocks(), m)
    {
      Entries(Ids(), StateBlocks())
    }

    constructor (descriptor: Descriptor)
      requires descriptor.AbiValid() && descriptor.Lawful()
      requires descriptor.stateSize <= SIZE_MAX
      requires descriptor.stateSize > 0 ==> AlignedStride(descriptor.stateSize) > 0
      ensures Valid() && d == descriptor && Contents() == map[] && states == null && ids == null
    {
      d := descriptor;
      stride := AlignedStride(descriptor.stateSize);
      ids := null;
      states := null;
      count := 0;
      capacity := 0;
    }

    /** Grow the arrays, keeping what they hold; a capacity that is already there is granted at once. */
    method Reserve(wanted: nat) returns (ok: bool)
      requires Valid()
      modifies this`ids, this`states, this`capacity
      ensures Valid() && (ok <==> wanted <= old(capacity) || !TooLarge(wanted, stride))
      ensures Ids() == old(Ids()) && StateBlocks() == old(StateBlocks())
      ensures if ok && wanted > old(capacity)
              then capacity == wanted && fresh(ids) && (states != null ==> fresh(states))
              else capacity == old(capacity) && ids == old(ids) && states == old(states)
    {
      if wanted <= capacity {
        return true;
      }
      if TooLarge(wanted, stride) {
        return false;
      }
      Reallocate(wanted);
      ok := true;
    }

    /** Move to larger arrays. */
    method Reallocate(wanted: nat)
      requires Valid() && capacity < wanted && !TooLarge(wanted, stride)
      modifies this`ids, this`states, this`capacity
      ensures Valid() && capacity == wanted && fresh(ids) && (states != null ==> fresh(states))
      ensures Ids() == old(Ids()) && StateBlocks() == old(StateBlocks())
    {
      ghost var wasIds, wasBlocks := Ids(), StateBlocks();
      var newIds := new nat[wanted];
      var newStates: array?<Byte> := null;
      if stride > 0 {
        newStates := new Byte[wanted * stride];
      }
      if count > 0 {
        CopyFront(newIds, ids, count);
      }
      if count > 0 && stride > 0 {
        GrownFits(count, capacity, wanted, stride);
        CopyFront(newStates, states, count * stride);
        StoreRoom(states.Length, count, capacity, stride, d.stateSize);
        StoreRoom(newStates.Length, count, wanted, stride, d.stateSize);
        SameFrontSameBlocks(states[..], newStates[..], count, stride, d.stateSize);
      }
      ids := newIds;
      states := newStates;
      capacity := wanted;
      assert Front(ids, count) == wasIds;
    }

    /** `cxpr_bulk_state_store_add` */
    method Add(id: nat) returns (status: StoreStatus)
      requires Valid()
      modifies this, ids, states
      ensures Valid()
      ensures status == DuplicateId <==> id in old(Contents())
      ensures status == AllocationFailed <==>
                id !in old(Contents()) && old(count) == old(capacity) && TooLarge(NextCapacity(old(capacity)), stride)
      ensures status == Stored || status == DuplicateId || status == AllocationFailed
      ensures Contents() == if status == Stored then old(Contents())[id := FreshBlock(d)] else old(Contents())
      ensures capacity == if status == Stored && old(count) == old(capacity)
                          then (if old(capacity) == 0 then 8 else 2 * old(capacity)) else old(capacity)
      ensures ids == old(ids) || fresh(ids)
      ensures states == old(states) || fresh(states)
    {
      var index, found := LowerBound(ids, count, id);
      if found {
        return DuplicateId;
      }
      status := AddNew(index, id);
    }

    /** Make room for a new agent and put it at `index`. */
    method AddNew(index: nat, id: nat) returns (status: StoreStatus)
      requires Valid() && IsLowerBound(Ids(), id, index) && id !in Contents()
      modifies this, ids, states
      ensures Valid()
      ensures status == if old(count) == old(capacity) && TooLarge(NextCapacity(old(capacity)), stride)
                        then AllocationFailed else Stored
      ensures Contents() == if status == Stored then old(Contents())[id := FreshBlock(d)] else old(Contents())
      ensures capacity == if status == Stored && old(count) == old(capacity)
                          then NextCapacity(old(capacity)) else old(capacity)
      ensures ids == old(ids) || fresh(ids)
      ensures states == old(states) || fresh(states)
    {
      var ok := MakeRoom();
      if !ok {
        return AllocationFailed;
      }
      AddAt(index, id);
      status := Stored;
    }

    /** Room for one more agent. */
    method MakeRoom() returns (ok: bool)
      requires Valid()
      modifies this`ids, this`states, this`capacity
      ensures Valid() && (ok <==> count < old(capacity) || !TooLarge(NextCapacity(old(capacity)), stride))
      ensures Ids() == old(Ids()) && StateBlocks() == old(StateBlocks()) && Contents() == old(Contents())
      ensures ok ==> count < capacity
      ensures capacity == if ok && count == old(capacity) then NextCapacity(old(capacity)) else old(capacity)
      ensures capacity >= old(capacity) && (ids == old(ids) || fresh(ids)) && (states == old(states) || fresh(states))
    {
      ok := true;
      if count == capacity {
        ok := Reserve(NextCapacity(capacity));
      }
    }

    method AddAt(index: nat, id: nat)
      requires Valid() && count < capacity && IsLowerBound(Ids(), id, index) && id !in Contents()
      modifies this`count, ids, states
      ensures Valid() && Contents() == old(Contents())[id := FreshBlock(d)]
    {
      ghost var m := Contents();
      InsertHolds(Ids(), StateBlocks(), m, id, FreshBlock(d), index);
      PutAgent(index, id);
      HoldsEntries(Ids(), StateBlocks(), m[id := FreshBlock(d)]);
    }

    /** The tail of `add`: open a gap at `index` in both arrays and fill it. */
    method PutAgent(index: nat, id: nat)
      requires Valid() && count < capacity && index <= count
      requires Ascending(Insert(Ids(), index, id))
      modifies this`count, ids, states
      ensures Valid() && count == old(count) + 1
      ensures Ids() == Insert(old(Ids()), index, id)
      ensures StateBlocks() == Insert(old(StateBlocks()), index, FreshBlock(d))
    {
      InsertId(ids, count, index, id);
      ghost var bs := old(StateBlocks());
      if stride > 0 {
        StoreRoom(states.Length, count, capacity, stride, d.stateSize);
        StoreRoom(states.Length, count + 1, capacity, stride, d.stateSize);
        assert bs == AllBlocks(old(states[..]), count, stride, d.stateSize);
        InsertState(d, states, count, stride, index);
      }
      count := count + 1;
    }

    /** `cxpr_bulk_state_store_remove` */
    method Remove(id: nat) returns (status: StoreStatus)
      requires Valid()
      modifies this`count, ids, states
      ensures Valid()
      ensures status == if id in old(Contents()) then Stored else IdNotFound
      ensures Contents() == if status == Stored then old(Contents()) - {id} else old(Contents())
    {
      ghost var m := Contents();
      var index, found := LowerBound(ids, count, id);
      if !found {
        return IdNotFound;
      }
      DeleteHolds(Ids(), StateBlocks(), m, index);
      DropAgent(index);
      HoldsEntries(Ids(), StateBlocks(), m - {id});
      status := Stored;
    }

    method DropAgent(index: nat)
      requires Valid() && index < count
      requires Ascending(Delete(Ids(), index))
      modifies this`count, ids, states
      ensures Valid() && count == old(count) - 1
      ensures Ids() == Delete(old(Ids()), index)
      ensures StateBlocks() == Delete(old(StateBlocks()), index)
    {
      DeleteId(ids, count, index);
      if stride > 0 {
        StoreRoom(states.Length, count, capacity, stride, d.stateSize);
        StoreRoom(states.Length, count - 1, capacity, stride, d.stateSize);
        DeleteState(states, count, stride, d.stateSize, index);
      }
      count := count - 1;
    }

    /** `cxpr_bulk_state_store_find`: the byte offset of an agent's state. */
    method Find(id: nat) returns (at: Option<nat>)
      requires Valid()
      ensures at.Some? <==> id in Contents() && d.stateSize > 0
      ensures at.Some? ==>
                && states != null && at.value + d.stateSize <= states.Length
                && states[at.value..at.value + d.stateSize] == Contents()[id]
    {
      var index, found := LowerBound(ids, count, id);
      if !found || stride == 0 {
        return None;
      }
      var offset := index * stride;
      assert Ids()[index] == id;
      BlockBytes(index, offset);
      at := Some(offset);
    }

    /** The bytes of the agent at `index`. */
    lemma BlockBytes(index: nat, at: nat)
      requires Valid() && index < count && stride > 0 && at == index * stride && d.stateSize > 0
      ensures states != null && at + d.stateSize <= states.Length
      ensures states[at..at + d.stateSize] == StateBlocks()[index]
    {
      StoreRoom(states.Length, count, capacity, stride, d.stateSize);
      BlockSlice(states[..], count, stride, d.stateSize, index, at);
      assert states[..][at..at + d.stateSize] == states[at..at + d.stateSize];
    }

    /** `cxpr_bulk_state_store_bind_view`; the host's columns are left alone. */
    method BindView(v: View) returns (w: View)
      requires Valid()
      ensures w == v.(states := states, stateStride := stride, elementCount := count)
      ensures Snapshotable(w)
    {
      w := v.(states := states, stateStride := stride, elementCount := count);
      ViewRoom(w);
    }

    /** The bound buffer has room for every agent, and no offset into it overflows. */
    ghost predicate Snapshotable(w: View)
      reads this
    {
      && (w.states != null ==> Room(w.states.Length, w.elementCount, w.stateStride, d.stateSize))
      && !Overflows(w.elementCount, w.stateStride) && w.elementCount <= SIZE_MAX
      && (d.stateSize > 0 ==> d.stateSize <= w.stateStride && (w.states == null <==> capacity == 0))
    }

    lemma ViewRoom(w: View)
      requires Valid() && w.states == states && w.stateStride == stride && w.elementCount == count
      ensures Snapshotable(w)
    {
      if states != null {
        StoreRoom(states.Length, count, capacity, stride, d.stateSize);
      }
      if stride > 0 {
        assert count <= SIZE_MAX / stride;
      }
    }
  }

  /** `cxpr_bulk_state_store_new` */
  method NewStore(d: Descriptor) returns (status: StoreStatus, store: Store?)
    requires d.Lawful() && d.stateSize <= SIZE_MAX
    ensures status == DescriptorInvalid <==> !d.AbiValid()
    ensures status == AllocationFailed <==> d.AbiValid() && d.stateSize > SIZE_MAX - (ALIGNMENT - 1)
    ensures status == Stored <==> store != null
    ensures status == Stored || status == DescriptorInvalid || status == AllocationFailed
    ensures store != null ==> fresh(store) && store.Valid() && store.d == d && store.Contents() == map[]
    ensures store != null ==> store.ids == null && store.states == null
  {
    if !d.AbiValid() {
      return DescriptorInvalid, null;
    }
    if d.stateSize > 0 && AlignedStride(d.stateSize) == 0 {
      return AllocationFailed, null;
    }
    store := new Store(d);
    status := Stored;
  }

  method CopyFront<T>(to: array<T>, from: array<T>, n: nat)
    requires n <= to.Length && n <= from.Length && to != from
    modifies to
    ensures to[..n] == from[..n]
  {
    for k := 0 to n
      invariant forall j | 0 <= j < k :: to[j] == from[j]
    {
      to[k] := from[k];
    }
  }

  lemma StoreRoom(length: nat, n: nat, capacity: nat, stride: nat, size: nat)
    requires n <= capacity && length == capacity * stride && size <= stride
    ensures n * stride <= length && Room(length, n, stride, size)
  {
    MulMonotone(n, capacity, stride);
    RoomForAll(length, n, stride, size);
  }

  lemma GrownFits(n: nat, capacity: nat, wanted: nat, stride: nat)
    requires n <= capacity <= wanted
    ensures n * stride <= capacity * stride <= wanted * stride
  {
    MulMonotone(n, capacity, stride);
    MulMonotone(capacity, wanted, stride);
  }

  lemma SameFrontSameBlock(s: seq<Byte>, t: seq<Byte>, n: nat, stride: nat, size: nat, i: nat)
    requires 0 < size <= stride && i < n && n * stride <= |s| && n * stride <= |t| && s[..n * stride] == t[..n * stride]
    requires Room(|s|, n, stride, size) && Room(|t|, n, stride, size)
    ensures Block(s, n, stride, size, i) == Block(t, n, stride, size, i)
  {
    BlocksDisjoint(stride, size, i, n);
    var at, end := i * stride, n * stride;
    assert Block(s, n, stride, size, i) == s[at..at + size] && Block(t, n, stride, size, i) == t[at..at + size];
    SliceOfFront(s, end, at, size);
    SliceOfFront(t, end, at, size);
  }

  lemma SameFrontSameBlocks(s: seq<Byte>, t: seq<Byte>, n: nat, stride: nat, size: nat)
    requires 0 < size <= stride && n * stride <= |s| && n * stride <= |t| && s[..n * stride] == t[..n * stride]
    requires Room(|s|, n, stride, size) && Room(|t|, n, stride, size)
    ensures AllBlocks(s, n, stride, size) == AllBlocks(t, n, stride, size)
  {
    forall i | 0 <= i < n ensures AllBlocks(s, n, stride, size)[i] == AllBlocks(t, n, stride, size)[i] {
      SameFrontSameBlock(s, t, n, stride, size, i);
    }
  }

  lemma SliceOfFront(s: seq<Byte>, end: nat, from: nat, size: nat)
    requires from + size <= end <= |s|
    ensures s[from..from + size] == s[..end][from..from + size]
  {
  }
}
