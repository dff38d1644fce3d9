/** Strided state blocks inside one byte buffer. */
module Blocks {
  import opened Common
  import opened Bytes

  /** A buffer of this length has room for `n` blocks of `size` bytes, `stride` bytes apart. */
  predicate Room(length: nat, n: nat, stride: nat, size: nat) {
    n == 0 || size == 0 || (n - 1) * stride + size <= length
  }

  lemma RoomAt(length: nat, n: nat, stride: nat, size: nat, i: nat)
    requires Room(length, n, stride, size) && i < n && size > 0
    ensures i * stride + size <= length
  {
    MulMonotone(i, n - 1, stride);
  }

  /** The active bytes of block `i`. */
  function Block(s: seq<Byte>, n: nat, stride: nat, size: nat, i: nat): (b: seq<Byte>)
    requires Room(|s|, n, stride, size) && i < n
    ensures |b| == size
  {
    if size == 0 then []
    else
      RoomAt(|s|, n, stride, size, i);
      s[i * stride..i * stride + size]
  }

  /** Block `i` begins at `at`. */
  lemma BlockSlice(s: seq<Byte>, n: nat, stride: nat, size: nat, i: nat, at: nat)
    requires Room(|s|, n, stride, size) && i < n && size > 0 && at == i * stride
    ensures at + size <= |s| && Block(s, n, stride, size, i) == s[at..at + size]
  {
    RoomAt(|s|, n, stride, size, i);
  }

  /** Blocks of a valid layout never overlap. */
  lemma BlocksDisjoint(stride: nat, size: nat, i: nat, j: nat)
    requires i < j && size <= stride
    ensures i * stride + size <= j * stride
  {
    MulMonotone(i + 1, j, stride);
    assert (i + 1) * stride == i * stride + stride;
  }

  /** A buffer with some bytes replaced. */
  function Splice(s: seq<Byte>, at: nat, b: seq<Byte>): (t: seq<Byte>)
    requires at + |b| <= |s|
    ensures |t| == |s|
    ensures forall k | 0 <= k < |s| :: t[k] == if at <= k < at + |b| then b[k - at] else s[k]
  {
    s[..at] + b + s[at + |b|..]
  }

  lemma SpliceSlice(s: seq<Byte>, at: nat, b: seq<Byte>, from: nat)
    requires at + |b| <= |s| && from + |b| <= |s|
    requires from == at || from + |b| <= at || at + |b| <= from
    ensures Splice(s, at, b)[from..from + |b|] == if from == at then b else s[from..from + |b|]
  {
  }

  /** Writing one block replaces that block and no other. */
  lemma SpliceBlock(s: seq<Byte>, n: nat, stride: nat, size: nat, i: nat, b: seq<Byte>, j: nat)
    requires Room(|s|, n, stride, size) && i < n && j < n && |b| == size && 0 < size <= stride
    requires i * stride + size <= |s|
    ensures Block(Splice(s, i * stride, b), n, stride, size, j)
         == if i == j then b else Block(s, n, stride, size, j)
  {
    var at, from := i * stride, j * stride;
    PlacesApart(stride, size, i, j);
    BlockSlice(s, n, stride, size, j, from);
    BlockSlice(Splice(s, at, b), n, stride, size, j, from);
    SpliceSlice(s, at, b, from);
  }

  lemma PlacesApart(stride: nat, size: nat, i: nat, j: nat)
    requires size <= stride
    ensures i == j || i * stride + size <= j * stride || j * stride + size <= i * stride
  {
    if i < j {
      BlocksDisjoint(stride, size, i, j);
    } else if j < i {
      BlocksDisjoint(stride, size, j, i);
    }
  }

  /** Byte `k` belongs to block `i`. */
  predicate InBlock(k: int, i: int, stride: nat, size: nat) {
    i * stride <= k < i * stride + size
  }

  /** Byte `k` belongs to none of the first `n` blocks. */
  ghost predicate Padding(k: int, n: nat, stride: nat, size: nat) {
    forall i | 0 <= i < n :: !InBlock(k, i, stride, size)
  }

  /** The blocks of a buffer, in order. */
  function AllBlocks(s: seq<Byte>, n: nat, stride: nat, size: nat): (bs: seq<seq<Byte>>)
    requires Room(|s|, n, stride, size)
    ensures |bs| == n
  {
    seq(n, i requires 0 <= i < n => Block(s, n, stride, size, i))
  }

  /** `memcpy` of a whole block into the buffer. */
  method CopyInto(buffer: array<Byte>, at: nat, b: seq<Byte>)
    requires at + |b| <= buffer.Length
    modifies buffer
    ensures buffer[..] == Splice(old(buffer[..]), at, b)
  {
    for k := 0 to |b|
      invariant forall j | 0 <= j < buffer.Length ::
                  buffer[j] == if at <= j < at + k then b[j - at] else old(buffer[j])
    {
      buffer[at + k] := b[k];
    }
  }
}
