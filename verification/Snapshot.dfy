/** Versioned, checksummed snapshots of bulk state (src/bulk_snapshot.c). */
module Snapshot {
  import opened Common
  import opened Bytes
  import opened Blocks
  import opened Bulk
  import opened SnapshotLayout

  const HEADER_SIZE: nat := 56
  const FORMAT_VERSION: nat := 1
  const MAGIC: seq<Byte> := [67, 88, 80, 82, 66, 83, 78, 80]  // "CXPRBSNP"

  datatype SnapStatus =
    | Done | BadArgument | BadDescriptor | InvalidFormat | UnsupportedVersion | LayoutMismatch
    | ElementCountMismatch | StrideTooSmall | ChecksumMismatch

  // ----- contents -----

  /** Sizes and counts are `size_t`. */
  ghost predicate Sized(d: Descriptor, v: View) {
    d.stateSize <= SIZE_MAX && v.elementCount <= SIZE_MAX
  }

  /** Active state bytes in element order, without padding. */
  function Payload(bs: seq<seq<Byte>>): seq<Byte> {
    if bs == [] then [] else Payload(bs[..|bs| - 1]) + bs[|bs| - 1]
  }

  lemma {:induction false} PayloadSize(bs: seq<seq<Byte>>, size: nat)
    requires forall i | 0 <= i < |bs| :: |bs[i]| == size
    ensures |Payload(bs)| == |bs| * size
  {
    if bs != [] {
      PayloadSize(bs[..|bs| - 1], size);
      assert |bs| * size == (|bs| - 1) * size + size;
    }
  }

  lemma {:induction false} PayloadAt(bs: seq<seq<Byte>>, size: nat, i: nat, at: nat)
    requires i < |bs| && at == i * size && forall j | 0 <= j < |bs| :: |bs[j]| == size
    ensures at + size <= |Payload(bs)| && Payload(bs)[at..at + size] == bs[i]
  {
    var front, last := bs[..|bs| - 1], bs[|bs| - 1];
    if i < |bs| - 1 {
      PayloadAt(front, size, i, at);
      SliceOfPrefix(Payload(front), last, at, at + size);
    } else {
      PayloadSize(front, size);
      SliceOfSuffix(Payload(front), last);
    }
  }

  lemma SliceOfPrefix(a: seq<Byte>, b: seq<Byte>, lo: nat, hi: nat)
    requires lo <= hi <= |a|
    ensures (a + b)[lo..hi] == a[lo..hi]
  {
  }

  lemma SliceOfSuffix(a: seq<Byte>, b: seq<Byte>)
    ensures (a + b)[|a|..|a| + |b|] == b
  {
  }

  function Checksum(payload: seq<Byte>): U64 { Fnv(FNV_OFFSET, payload) }

  function Header(d: Descriptor, layoutId: nat, count: nat, checksum: nat): (h: seq<Byte>)
    ensures |h| == HEADER_SIZE
  {
    MAGIC + WriteLE(FORMAT_VERSION, 4) + WriteLE(HEADER_SIZE, 4) + WriteLE(d.abiVersion, 4) + WriteLE(0, 4)
      + WriteLE(LayoutHash(d, layoutId), 8) + WriteLE(d.stateSize, 8) + WriteLE(count, 8) + WriteLE(checksum, 8)
  }

  function SnapshotBytes(d: Descriptor, layoutId: nat, bs: seq<seq<Byte>>): seq<Byte> {
    Header(d, layoutId, |bs|, Checksum(Payload(bs))) + Payload(bs)
  }

  // ----- what restore checks -----

  function RestoreStatus(d: Descriptor, layoutId: nat, data: seq<Byte>, hasStates: bool, stride: nat,
                         count: nat): SnapStatus {
    if layoutId == 0 then BadArgument
    else if !d.AbiValid() then BadDescriptor
    else if |data| < HEADER_SIZE || data[..8] != MAGIC || ReadLE(data[12..16]) != HEADER_SIZE then InvalidFormat
    else if ReadLE(data[8..12]) != FORMAT_VERSION then UnsupportedVersion
    else if ReadLE(data[16..20]) != d.abiVersion || ReadLE(data[24..32]) != LayoutHash(d, layoutId) then LayoutMismatch
    else if ReadLE(data[32..40]) != d.stateSize then LayoutMismatch
    else if ReadLE(data[40..48]) != count then ElementCountMismatch
    else if d.stateSize > 0 && (!hasStates || stride < d.stateSize) then StrideTooSmall
    else if d.stateSize > 0 && count > SIZE_MAX / d.stateSize then InvalidFormat
    else if d.stateSize * count > SIZE_MAX - HEADER_SIZE || |data| != HEADER_SIZE + d.stateSize * count
    then InvalidFormat
    else if ReadLE(data[48..56]) != Checksum(data[56..]) then ChecksumMismatch
    else Done
  }

  /** The blocks in a payload, which are packed without padding. */
  ghost function PackedBlocks(payload: seq<Byte>, size: nat, count: nat): (bs: seq<seq<Byte>>)
    requires |payload| == count * size
    ensures |bs| == count && forall i | 0 <= i < count :: |bs[i]| == size
  {
    PackedRoom(|payload|, size, count);
    AllBlocks(payload, count, size, size)
  }

  lemma PackedRoom(length: nat, size: nat, count: nat)
    requires length == count * size
    ensures Room(length, count, size, size)
  {
    if count > 0 {
      assert (count - 1) * size + size == count * size;
    }
  }

  /** Unpacking undoes packing. */
  lemma PackedBack(bs: seq<seq<Byte>>, size: nat)
    requires forall i | 0 <= i < |bs| :: |bs[i]| == size
    ensures |Payload(bs)| == |bs| * size && PackedBlocks(Payload(bs), size, |bs|) == bs
  {
    PayloadSize(bs, size);
    var back := PackedBlocks(Payload(bs), size, |bs|);
    forall i | 0 <= i < |bs| ensures back[i] == bs[i] {
      PayloadAt(bs, size, i, i * size);
    }
  }

  // ----- one changed byte -----

  lemma WordChanged(data: seq<Byte>, lo: nat, hi: nat, p: nat, b: Byte)
    requires lo <= p < hi <= |data| && data[p] != b
    ensures ReadLE(data[p := b][lo..hi]) != ReadLE(data[lo..hi])
  {
    var x, y := data[p := b][lo..hi], data[lo..hi];
    assert x[p - lo] == b && y[p - lo] == data[p];
    if ReadLE(x) == ReadLE(y) {
      ReadInjective(x, y);
    }
  }

  lemma WordKept(data: seq<Byte>, lo: nat, hi: nat, p: nat, b: Byte)
    requires lo <= hi <= |data| && p < |data| && (p < lo || hi <= p)
    ensures data[p := b][lo..hi] == data[lo..hi]
  {
  }

  /**
   Changing a single byte of an accepted snapshot makes restore refuse it, unless the byte is one of
   the four reserved bytes, which restore does not look at.
   */
  lemma OneByteChangeDetected(d: Descriptor, layoutId: nat, data: seq<Byte>, hasStates: bool, stride: nat, count: nat,
                              p: nat, b: Byte)
    requires RestoreStatus(d, layoutId, data, hasStates, stride, count) == Done
    requires p < |data| && data[p] != b
    ensures RestoreStatus(d, layoutId, data[p := b], hasStates, stride, count) == Done <==> 20 <= p < 24
  {
    var data' := data[p := b];
    if 20 <= p < 24 {
      WordKept(data, 0, 8, p, b); WordKept(data, 8, 12, p, b); WordKept(data, 12, 16, p, b);
      WordKept(data, 16, 20, p, b); WordKept(data, 24, 32, p, b); WordKept(data, 32, 40, p, b);
      WordKept(data, 40, 48, p, b); WordKept(data, 48, 56, p, b); WordKept(data, 56, |data|, p, b);
    } else if p < 8 {
      assert data'[..8][p] != data[..8][p];
    } else if p < 12 {
      WordChanged(data, 8, 12, p, b);
    } else if p < 16 {
      WordChanged(data, 12, 16, p, b);
    } else if p < 20 {
      WordChanged(data, 16, 20, p, b);
    } else if p < 32 {
      WordChanged(data, 24, 32, p, b);
    } else if p < 40 {
      WordChanged(data, 32, 40, p, b);
    } else if p < 48 {
      WordChanged(data, 40, 48, p, b);
    } else if p < 56 {
      WordChanged(data, 48, 56, p, b);
      WordKept(data, 56, |data|, p, b);
    } else {
      WordKept(data, 48, 56, p, b);
      assert data'[56..] == data[56..][p - 56 := b];
      FnvSeesOneByte(FNV_OFFSET, data[56..], p - 56, b);
    }
  }

  // ----- create -----

  /** Where the fields of a header lie. */
  lemma HeaderFields(d: Descriptor, layoutId: nat, count: nat, checksum: nat)
    ensures var h := Header(d, layoutId, count, checksum);
            && h[..8] == MAGIC
            && h[8..12] == WriteLE(FORMAT_VERSION, 4) && h[12..16] == WriteLE(HEADER_SIZE, 4)
            && h[16..20] == WriteLE(d.abiVersion, 4) && h[24..32] == WriteLE(LayoutHash(d, layoutId), 8)
            && h[32..40] == WriteLE(d.stateSize, 8) && h[40..48] == WriteLE(count, 8)
            && h[48..56] == WriteLE(checksum, 8)
  {
    var a, b, c := WriteLE(FORMAT_VERSION, 4), WriteLE(HEADER_SIZE, 4), WriteLE(d.abiVersion, 4);
    var front := MAGIC + a + b + c + WriteLE(0, 4);
    FrontSlices(MAGIC, a, b, c, WriteLE(0, 4));
    BackSlices(front, WriteLE(LayoutHash(d, layoutId), 8), WriteLE(d.stateSize, 8), WriteLE(count, 8),
               WriteLE(checksum, 8));
    var h := Header(d, layoutId, count, checksum);
    assert h[..24] == front;
    SliceOfSlice(h, 24, 0, 8); SliceOfSlice(h, 24, 8, 12); SliceOfSlice(h, 24, 12, 16); SliceOfSlice(h, 24, 16, 20);
  }

  lemma SliceOfSlice(s: seq<Byte>, n: nat, lo: nat, hi: nat)
    requires lo <= hi <= n <= |s|
    ensures s[..n][lo..hi] == s[lo..hi]
  {
  }

  lemma FrontSlices(m: seq<Byte>, a: seq<Byte>, b: seq<Byte>, c: seq<Byte>, z: seq<Byte>)
    requires |m| == 8 && |a| == |b| == |c| == |z| == 4
    ensures var s := m + a + b + c + z;
            s[..8] == m && s[8..12] == a && s[12..16] == b && s[16..20] == c
  {
    SliceOfSuffix(m + a + b, c);
    SliceOfPrefix(m + a + b + c, z, 16, 20);
    SliceOfSuffix(m + a, b);
    SliceOfPrefix(m + a + b, c, 12, 16); SliceOfPrefix(m + a + b + c, z, 12, 16);
    SliceOfSuffix(m, a);
    SliceOfPrefix(m + a, b, 8, 12); SliceOfPrefix(m + a + b, c, 8, 12); SliceOfPrefix(m + a + b + c, z, 8, 12);
    SliceOfPrefix(m, a, 0, 8); SliceOfPrefix(m + a, b, 0, 8);
    SliceOfPrefix(m + a + b, c, 0, 8); SliceOfPrefix(m + a + b + c, z, 0, 8);
  }

  lemma BackSlices(front: seq<Byte>, w: seq<Byte>, x: seq<Byte>, y: seq<Byte>, z: seq<Byte>)
    requires |front| == 24 && |w| == |x| == |y| == |z| == 8
    ensures var s := front + w + x + y + z;
            s[..24] == front && s[24..32] == w && s[32..40] == x && s[40..48] == y && s[48..56] == z
  {
    SliceOfSuffix(front + w + x + y, z);
    SliceOfSuffix(front + w + x, y);
    SliceOfPrefix(front + w + x + y, z, 40, 48);
    SliceOfSuffix(front + w, x);
    SliceOfPrefix(front + w + x, y, 32, 40); SliceOfPrefix(front + w + x + y, z, 32, 40);
    SliceOfSuffix(front, w);
    SliceOfPrefix(front + w, x, 24, 32); SliceOfPrefix(front + w + x, y, 24, 32);
    SliceOfPrefix(front + w + x + y, z, 24, 32);
    SliceOfPrefix(front, w, 0, 24); SliceOfPrefix(front + w, x, 0, 24);
    SliceOfPrefix(front + w + x, y, 0, 24); SliceOfPrefix(front + w + x + y, z, 0, 24);
  }

  lemma SnapshotFields(d: Descriptor, layoutId: nat, bs: seq<seq<Byte>>)
    ensures var data, payload := SnapshotBytes(d, layoutId, bs), Payload(bs);
            && |data| == HEADER_SIZE + |payload|
            && data[..8] == MAGIC
            && data[8..12] == WriteLE(FORMAT_VERSION, 4) && data[12..16] == WriteLE(HEADER_SIZE, 4)
            && data[16..20] == WriteLE(d.abiVersion, 4) && data[24..32] == WriteLE(LayoutHash(d, layoutId), 8)
            && data[32..40] == WriteLE(d.stateSize, 8) && data[40..48] == WriteLE(|bs|, 8)
            && data[48..56] == WriteLE(Checksum(payload), 8) && data[56..] == payload
  {
    var payload := Payload(bs);
    var h := Header(d, layoutId, |bs|, Checksum(payload));
    HeaderFields(d, layoutId, |bs|, Checksum(payload));
    SliceOfPrefix(h, payload, 0, 8); SliceOfPrefix(h, payload, 8, 12); SliceOfPrefix(h, payload, 12, 16);
    SliceOfPrefix(h, payload, 16, 20); SliceOfPrefix(h, payload, 24, 32); SliceOfPrefix(h, payload, 32, 40);
    SliceOfPrefix(h, payload, 40, 48); SliceOfPrefix(h, payload, 48, 56);
    SliceOfSuffix(h, payload);
  }

  lemma WordReadsBack(n: nat, width: nat)
    requires width == 4 || width == 8
    requires n < 0x1_0000_0000 || (width == 8 && n <= SIZE_MAX)
    ensures ReadLE(WriteLE(n, width)) == n
  {
    WordSizes();
    ReadWrite(n, width);
  }

  lemma SnapshotReads(d: Descriptor, layoutId: nat, bs: seq<seq<Byte>>)
    requires d.abiVersion == ABI_VERSION && d.stateSize <= SIZE_MAX && |bs| <= SIZE_MAX
    ensures var data, payload := SnapshotBytes(d, layoutId, bs), Payload(bs);
            && |data| == HEADER_SIZE + |payload| && data[..8] == MAGIC && data[56..] == payload
            && ReadLE(data[8..12]) == FORMAT_VERSION && ReadLE(data[12..16]) == HEADER_SIZE
            && ReadLE(data[16..20]) == d.abiVersion && ReadLE(data[24..32]) == LayoutHash(d, layoutId)
            && ReadLE(data[32..40]) == d.stateSize && ReadLE(data[40..48]) == |bs|
            && ReadLE(data[48..56]) == Checksum(payload)
  {
    SnapshotFields(d, layoutId, bs);
    WordReadsBack(FORMAT_VERSION, 4); WordReadsBack(HEADER_SIZE, 4); WordReadsBack(d.abiVersion, 4);
    WordReadsBack(LayoutHash(d, layoutId), 8); WordReadsBack(d.stateSize, 8); WordReadsBack(|bs|, 8);
    WordReadsBack(Checksum(Payload(bs)), 8);
  }

  /** Every snapshot is accepted by a view of the same element count, whatever its stride. */
  lemma SnapshotAccepted(d: Descriptor, layoutId: nat, bs: seq<seq<Byte>>, hasStates: bool, stride: nat)
    requires d.AbiValid() && layoutId != 0 && d.stateSize <= SIZE_MAX && |bs| <= SIZE_MAX
    requires forall i | 0 <= i < |bs| :: |bs[i]| == d.stateSize
    requires |bs| * d.stateSize <= SIZE_MAX - HEADER_SIZE
    requires d.stateSize > 0 ==> hasStates && d.stateSize <= stride
    ensures var data := SnapshotBytes(d, layoutId, bs);
            && RestoreStatus(d, layoutId, data, hasStates, stride, |bs|) == Done
            && |data| == HEADER_SIZE + |bs| * d.stateSize
            && PackedBlocks(data[HEADER_SIZE..], d.stateSize, |bs|) == bs
  {
    SnapshotReads(d, layoutId, bs);
    PackedBack(bs, d.stateSize);
    assert d.stateSize * |bs| == |bs| * d.stateSize;
    if d.stateSize > 0 {
      CountFits(|bs|, d.stateSize);
    }
  }

  lemma CountFits(count: nat, size: nat)
    requires size > 0 && count * size <= SIZE_MAX
    ensures count <= SIZE_MAX / size
  {
    assert SIZE_MAX == SIZE_MAX / size * size + SIZE_MAX % size;
    if count > SIZE_MAX / size {
      MulMonotone(SIZE_MAX / size + 1, count, size);
    }
  }

  /** Write header fields one after the other. */
  method PutField(data: array<Byte>, at: nat, field: seq<Byte>, ghost done: seq<Byte>, ghost tail: seq<Byte>)
    requires at == |done| && at + |field| <= HEADER_SIZE <= data.Length
    requires data[..at] == done && data[HEADER_SIZE..] == tail
    modifies data
    ensures data[..at + |field|] == done + field && data[HEADER_SIZE..] == tail
  {
    CopyInto(data, at, field);
  }

  method PutHeader(d: Descriptor, layoutId: nat, count: nat, checksum: nat, data: array<Byte>)
    requires HEADER_SIZE <= data.Length
    modifies data
    ensures data[..] == Header(d, layoutId, count, checksum) + old(data[HEADER_SIZE..])
  {
    ghost var tail := data[HEADER_SIZE..];
    var version, size := WriteLE(FORMAT_VERSION, 4), WriteLE(HEADER_SIZE, 4);
    var abi, reserved := WriteLE(d.abiVersion, 4), WriteLE(0, 4);
    PutField(data, 0, MAGIC, [], tail);
    PutField(data, 8, version, MAGIC, tail);
    PutField(data, 12, size, MAGIC + version, tail);
    PutField(data, 16, abi, MAGIC + version + size, tail);
    PutField(data, 20, reserved, MAGIC + version + size + abi, tail);
    PutRest(d, layoutId, count, checksum, data, MAGIC + version + size + abi + reserved, tail);
    assert data[..] == data[..HEADER_SIZE] + data[HEADER_SIZE..];
  }

  method PutRest(d: Descriptor, layoutId: nat, count: nat, checksum: nat, data: array<Byte>,
                 ghost done: seq<Byte>, ghost tail: seq<Byte>)
    requires |done| == 24 && HEADER_SIZE <= data.Length && data[..24] == done && data[HEADER_SIZE..] == tail
    modifies data
    ensures data[..HEADER_SIZE] == done + WriteLE(LayoutHash(d, layoutId), 8) + WriteLE(d.stateSize, 8)
                                   + WriteLE(count, 8) + WriteLE(checksum, 8)
    ensures data[HEADER_SIZE..] == tail
  {
    var hash := DescriptorLayoutHash(d, layoutId);
    var word, size, n := WriteLE(hash, 8), WriteLE(d.stateSize, 8), WriteLE(count, 8);
    PutField(data, 24, word, done, tail);
    PutField(data, 32, size, done + word, tail);
    PutField(data, 40, n, done + word + size, tail);
    PutField(data, 48, WriteLE(checksum, 8), done + word + size + n, tail);
  }

  /** `cxpr_bulk_snapshot_create`; allocation always succeeds here. */
  method Create(d: Descriptor, layoutId: nat, v: View) returns (status: SnapStatus, data: array?<Byte>)
    requires Sized(d, v) && RoomForStates(d, v)
    ensures status == Done <==>
              && layoutId != 0 && d.AbiValid() && HasStates(d, v)
              && v.elementCount * d.stateSize <= SIZE_MAX - HEADER_SIZE
    ensures status == Done <==> data != null
    ensures data != null ==> fresh(data) && data[..] == SnapshotBytes(d, layoutId, States(d, v))
    ensures status == if layoutId == 0 then BadArgument
                      else if !d.AbiValid() then BadDescriptor
                      else if d.stateSize > 0 && (v.states == null || v.stateStride < d.stateSize) then StrideTooSmall
                      else if v.elementCount * d.stateSize > SIZE_MAX - 56 then BadArgument
                      else Done
  {
    data := null;
    if layoutId == 0 {
      return BadArgument, null;
    }
    if !d.AbiValid() {
      return BadDescriptor, null;
    }
    if d.stateSize > 0 && (v.states == null || v.stateStride < d.stateSize) {
      return StrideTooSmall, null;
    }
    if d.stateSize > 0 && v.elementCount > SIZE_MAX / d.stateSize {
      TooMany(v.elementCount, d.stateSize);
      return BadArgument, null;
    }
    var payloadSize := v.elementCount * d.stateSize;
    if payloadSize > SIZE_MAX - HEADER_SIZE {
      return BadArgument, null;
    }
    data := WriteSnapshot(d, layoutId, v, payloadSize);
    status := Done;
  }

  /** Fill a new buffer: payload, checksum, header. */
  method WriteSnapshot(d: Descriptor, layoutId: nat, v: View, payloadSize: nat) returns (data: array<Byte>)
    requires HasStates(d, v) && RoomForStates(d, v) && payloadSize == v.elementCount * d.stateSize
    ensures fresh(data) && data[..] == SnapshotBytes(d, layoutId, States(d, v))
  {
    data := new Byte[HEADER_SIZE + payloadSize](_ => 0);
    PackStates(d, v, data);
    var checksum := HashBytes(FNV_OFFSET, data[HEADER_SIZE..]);
    PutHeader(d, layoutId, v.elementCount, checksum, data);
  }

  lemma TooMany(count: nat, size: nat)
    requires size > 0 && count > SIZE_MAX / size
    ensures count * size > SIZE_MAX
  {
    MulMonotone(SIZE_MAX / size + 1, count, size);
    assert SIZE_MAX == SIZE_MAX / size * size + SIZE_MAX % size;
    assert (SIZE_MAX / size + 1) * size == SIZE_MAX / size * size + size;
  }

  /** A buffer whose payload holds the first `n` blocks, ending at `at`. */
  ghost predicate Packed(now: seq<Byte>, bs: seq<seq<Byte>>, n: nat, at: nat) {
    n <= |bs| && HEADER_SIZE <= at <= |now| && now[HEADER_SIZE..at] == Payload(bs[..n])
  }

  lemma PackStep(now: seq<Byte>, bs: seq<seq<Byte>>, n: nat, at: nat)
    requires Packed(now, bs, n, at) && n < |bs| && at + |bs[n]| <= |now|
    ensures Packed(Splice(now, at, bs[n]), bs, n + 1, at + |bs[n]|)
  {
    SpliceAppends(now, HEADER_SIZE, at, bs[n]);
    assert bs[..n + 1][..n] == bs[..n];
  }

  lemma PackPlace(count: nat, size: nat, i: nat)
    requires i < count
    ensures (i + 1) * size == i * size + size <= count * size
  {
    MulMonotone(i + 1, count, size);
  }

  /** The copy loop of create. */
  method PackStates(d: Descriptor, v: View, data: array<Byte>)
    requires HasStates(d, v) && RoomForStates(d, v) && data != v.states
    requires data.Length == HEADER_SIZE + v.elementCount * d.stateSize
    modifies data
    ensures data[HEADER_SIZE..] == Payload(States(d, v))
  {
    ghost var bs := States(d, v);
    PayloadSize(bs, d.stateSize);
    if d.stateSize > 0 {
      for i := 0 to v.elementCount
        invariant Packed(data[..], bs, i, HEADER_SIZE + i * d.stateSize)
      {
        PackBlock(d, v, data, i, bs);
      }
      assert bs[..v.elementCount] == bs;
      assert data[HEADER_SIZE..] == data[..][HEADER_SIZE..data.Length];
    } else {
      assert Payload(bs) == data[HEADER_SIZE..];
    }
  }

  /** One round of the copy loop. */
  method PackBlock(d: Descriptor, v: View, data: array<Byte>, i: nat, ghost bs: seq<seq<Byte>>)
    requires HasStates(d, v) && RoomForStates(d, v) && data != v.states && d.stateSize > 0 && i < v.elementCount
    requires data.Length == HEADER_SIZE + v.elementCount * d.stateSize && bs == States(d, v)
    requires Packed(data[..], bs, i, HEADER_SIZE + i * d.stateSize)
    modifies data
    ensures Packed(data[..], bs, i + 1, HEADER_SIZE + (i + 1) * d.stateSize)
  {
    PackPlace(v.elementCount, d.stateSize, i);
    var at := HEADER_SIZE + i * d.stateSize;
    var block := ReadBlock(d, v, i);
    PackStep(data[..], bs, i, at);
    CopyInto(data, at, block);
  }

  method ReadBlock(d: Descriptor, v: View, i: nat) returns (block: seq<Byte>)
    requires HasStates(d, v) && RoomForStates(d, v) && d.stateSize > 0 && i < v.elementCount
    ensures block == States(d, v)[i]
  {
    RoomAt(v.states.Length, v.elementCount, v.stateStride, d.stateSize, i);
    var from := i * v.stateStride;
    block := v.states[from..from + d.stateSize];
    assert block == v.states[..][from..from + d.stateSize];
  }

  lemma SpliceAppends(s: seq<Byte>, lo: nat, at: nat, b: seq<Byte>)
    requires lo <= at && at + |b| <= |s|
    ensures Splice(s, at, b)[lo..at + |b|] == s[lo..at] + b
  {
  }

  // ----- restore -----

  /** `cxpr_bulk_snapshot_restore` writes the active state bytes only, and nothing unless it accepts. */
  method Restore(d: Descriptor, layoutId: nat, data: seq<Byte>, v: View) returns (status: SnapStatus)
    requires Sized(d, v) && RoomForStates(d, v)
    modifies v.states
    ensures status == RestoreStatus(d, layoutId, data, v.states != null, v.stateStride, v.elementCount)
    ensures status == Done ==>
              && HasStates(d, v) && |data| == HEADER_SIZE + v.elementCount * d.stateSize
              && States(d, v) == PackedBlocks(data[HEADER_SIZE..], d.stateSize, v.elementCount)
              && SamePadding(d, v, old(Raw(v)), Raw(v))
    ensures status != Done ==> Raw(v) == old(Raw(v))
  {
    status := RestoreStatus(d, layoutId, data, v.states != null, v.stateStride, v.elementCount);
    if status != Done {
      return;
    }
    assert v.elementCount * d.stateSize == d.stateSize * v.elementCount;
    if d.stateSize > 0 {
      Unpack(d, v, data[HEADER_SIZE..]);
    } else {
      assert States(d, v) == PackedBlocks(data[HEADER_SIZE..], d.stateSize, v.elementCount);
    }
  }

  /** A buffer whose blocks before `n` come from the payload, and whose padding is as before. */
  ghost predicate Unpacked(d: Descriptor, v: View, packed: seq<seq<Byte>>, raw: seq<Byte>, now: seq<Byte>, n: nat)
    requires |packed| == v.elementCount && Room(|now|, v.elementCount, v.stateStride, d.stateSize)
    requires n <= v.elementCount
  {
    && AllBlocks(now, v.elementCount, v.stateStride, d.stateSize)[..n] == packed[..n]
    && SamePadding(d, v, raw, now)
  }

  lemma UnpackStep(d: Descriptor, v: View, packed: seq<seq<Byte>>, raw: seq<Byte>, now: seq<Byte>, i: nat)
    requires 0 < d.stateSize <= v.stateStride && i < v.elementCount == |packed|
    requires Room(|now|, v.elementCount, v.stateStride, d.stateSize)
    requires |packed[i]| == d.stateSize && Unpacked(d, v, packed, raw, now, i)
    ensures i * v.stateStride + d.stateSize <= |now|
    ensures Unpacked(d, v, packed, raw, Splice(now, i * v.stateStride, packed[i]), i + 1)
  {
    StatesAfterSplice(d, v, now, i, packed[i]);
    var bs := AllBlocks(now, v.elementCount, v.stateStride, d.stateSize);
    var now' := Splice(now, i * v.stateStride, packed[i]);
    assert bs[i := packed[i]][..i + 1] == bs[..i] + [packed[i]];
    assert packed[..i + 1] == packed[..i] + [packed[i]];
    forall k | 0 <= k < |now| && Padding(k, v.elementCount, v.stateStride, d.stateSize) ensures now'[k] == raw[k] {
      assert !InBlock(k, i, v.stateStride, d.stateSize);
    }
  }

  /** The copy loop of restore. */
  method Unpack(d: Descriptor, v: View, payload: seq<Byte>)
    requires d.stateSize > 0 && HasStates(d, v) && RoomForStates(d, v)
    requires |payload| == v.elementCount * d.stateSize
    modifies v.states
    ensures States(d, v) == PackedBlocks(payload, d.stateSize, v.elementCount)
    ensures SamePadding(d, v, old(Raw(v)), Raw(v))
  {
    ghost var packed, raw := PackedBlocks(payload, d.stateSize, v.elementCount), Raw(v);
    for i := 0 to v.elementCount
      invariant Unpacked(d, v, packed, raw, v.states[..], i)
    {
      UnpackStep(d, v, packed, raw, v.states[..], i);
      var block := PackedBlock(payload, d.stateSize, v.elementCount, i);
      CopyInto(v.states, i * v.stateStride, block);
    }
    assert packed[..v.elementCount] == packed;
  }

  method PackedBlock(payload: seq<Byte>, size: nat, count: nat, i: nat) returns (block: seq<Byte>)
    requires size > 0 && |payload| == count * size && i < count
    ensures block == PackedBlocks(payload, size, count)[i]
  {
    PackedRoom(|payload|, size, count);
    RoomAt(|payload|, count, size, size, i);
    block := payload[i * size..i * size + size];
  }
}
