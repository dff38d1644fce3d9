/** What restore says of a damaged or foreign snapshot, and what a snapshot looks like byte by byte. */
module SnapshotFaults {
  import opened Common
  import opened Bytes
  import opened FnvValues
  import opened Bulk
  import opened SnapshotLayout
  import opened Snapshot

  // ----- one changed byte -----

  /** Which status a changed byte at place `p` must give. */
  function FaultAt(p: nat): SnapStatus {
    if p < 8 then InvalidFormat
    else if p < 12 then UnsupportedVersion
    else if p < 16 then InvalidFormat
    else if p < 20 then LayoutMismatch
    else if p < 24 then Done
    else if p < 40 then LayoutMismatch
    else if p < 48 then ElementCountMismatch
    else ChecksumMismatch
  }

  /** The words of `data'` that end at `n` or before are those of `data`. */
  ghost predicate SameWords(data: seq<Byte>, data': seq<Byte>, n: nat) {
    && |data| == |data'| >= 56 && (n >= 8 ==> data'[..8] == data[..8])
    && (n >= 12 ==> data'[8..12] == data[8..12]) && (n >= 16 ==> data'[12..16] == data[12..16])
    && (n >= 20 ==> data'[16..20] == data[16..20]) && (n >= 32 ==> data'[24..32] == data[24..32])
    && (n >= 40 ==> data'[32..40] == data[32..40]) && (n >= 48 ==> data'[40..48] == data[40..48])
    && (n >= 56 ==> data'[48..56] == data[48..56])
  }

  lemma WordsBefore(data: seq<Byte>, p: nat, b: Byte, n: nat)
    requires n <= p < |data| && |data| >= 56
    ensures SameWords(data, data[p := b], n)
  {
    var data' := data[p := b];
    if n >= 8 { WordKept(data, 0, 8, p, b); }
    if n >= 12 { WordKept(data, 8, 12, p, b); }
    if n >= 16 { WordKept(data, 12, 16, p, b); }
    if n >= 20 { WordKept(data, 16, 20, p, b); }
    if n >= 32 { WordKept(data, 24, 32, p, b); }
    if n >= 40 { WordKept(data, 32, 40, p, b); }
    if n >= 48 { WordKept(data, 40, 48, p, b); }
    if n >= 56 { WordKept(data, 48, 56, p, b); }
  }

  /** Restore names the part of an accepted snapshot in which a byte was changed. */
  lemma OneByteChangeNamed(d: Descriptor, layoutId: nat, data: seq<Byte>, hasStates: bool, stride: nat, count: nat,
                           p: nat, b: Byte)
    requires RestoreStatus(d, layoutId, data, hasStates, stride, count) == Done
    requires p < |data| && data[p] != b
    ensures RestoreStatus(d, layoutId, data[p := b], hasStates, stride, count) == FaultAt(p)
  {
    var data' := data[p := b];
    if p < 8 {
      assert data'[..8][p] != data[..8][p];
    } else if p < 12 {
      WordChanged(data, 8, 12, p, b);
      WordsBefore(data, p, b, 8);
      WordKept(data, 12, 16, p, b);
    } else if p < 16 {
      WordChanged(data, 12, 16, p, b);
    } else if p < 20 {
      WordChanged(data, 16, 20, p, b);
      WordsBefore(data, p, b, 16);
    } else if p < 24 {
      OneByteChangeDetected(d, layoutId, data, hasStates, stride, count, p, b);
    } else if p < 32 {
      WordChanged(data, 24, 32, p, b);
      WordsBefore(data, p, b, 20);
    } else if p < 40 {
      WordChanged(data, 32, 40, p, b);
      WordsBefore(data, p, b, 32);
    } else if p < 48 {
      WordChanged(data, 40, 48, p, b);
      WordsBefore(data, p, b, 40);
    } else if p < 56 {
      WordChanged(data, 48, 56, p, b);
      WordsBefore(data, p, b, 48);
      WordKept(data, 56, |data|, p, b);
    } else {
      WordsBefore(data, p, b, 56);
      assert data'[56..] == data[56..][p - 56 := b];
      FnvSeesOneByte(FNV_OFFSET, data[56..], p - 56, b);
    }
  }

  // ----- the wrong view, model or length -----

  /** A snapshot that is cut short or too long is malformed. */
  lemma WrongLength(d: Descriptor, layoutId: nat, data: seq<Byte>, hasStates: bool, stride: nat, count: nat, n: nat,
                    more: seq<Byte>)
    requires RestoreStatus(d, layoutId, data, hasStates, stride, count) == Done
    ensures n < |data| ==> RestoreStatus(d, layoutId, data[..n], hasStates, stride, count) == InvalidFormat
    ensures more != [] ==> RestoreStatus(d, layoutId, data + more, hasStates, stride, count) == InvalidFormat
  {
    if 56 <= n < |data| {
      SameStart(data, data[..n]);
    }
    SameStart(data, data + more);
  }

  lemma SameStart(data: seq<Byte>, data': seq<Byte>)
    requires |data| >= 56 && |data'| >= 56 && forall i | 0 <= i < 56 :: data'[i] == data[i]
    ensures data'[..8] == data[..8] && data'[8..12] == data[8..12] && data'[12..16] == data[12..16]
    ensures data'[16..20] == data[16..20] && data'[24..32] == data[24..32] && data'[32..40] == data[32..40]
    ensures data'[40..48] == data[40..48] && data'[48..56] == data[48..56]
  {
  }

  /** What restore says of a snapshot of one population to another view or model. */
  lemma WrongTarget(d: Descriptor, layoutId: nat, bs: seq<seq<Byte>>, e: Descriptor, layoutId': nat, hasStates: bool,
                    stride: nat, count: nat)
    requires d.AbiValid() && d.stateSize <= SIZE_MAX && |bs| <= SIZE_MAX
    requires |bs| * d.stateSize <= SIZE_MAX - 56 && forall i | 0 <= i < |bs| :: |bs[i]| == d.stateSize
    ensures var status := RestoreStatus(e, layoutId', SnapshotBytes(d, layoutId, bs), hasStates, stride, count);
            status == if layoutId' == 0 then BadArgument
                      else if !e.AbiValid() then BadDescriptor
                      else if LayoutHash(e, layoutId') != LayoutHash(d, layoutId) || e.stateSize != d.stateSize
                      then LayoutMismatch
                      else if count != |bs| then ElementCountMismatch
                      else if d.stateSize > 0 && (!hasStates || stride < d.stateSize) then StrideTooSmall
                      else Done
  {
    SnapshotReads(d, layoutId, bs);
    PayloadSize(bs, d.stateSize);
    assert d.stateSize * |bs| == |bs| * d.stateSize;
    if d.stateSize > 0 {
      CountFits(|bs|, d.stateSize);
    }
  }

  // ----- the bytes themselves -----

  /** A small number as a word. */
  lemma SmallWord(n: nat)
    requires n < 256
    ensures WriteLE(n, 4) == [n, 0, 0, 0] && WriteLE(n, 8) == [n, 0, 0, 0, 0, 0, 0, 0]
  {
    assert n / 256 == 0 && n % 256 == n;
    assert WriteLE(0, 1) == [0] && WriteLE(0, 2) == [0, 0] && WriteLE(0, 3) == [0, 0, 0];
    assert WriteLE(0, 4) == [0, 0, 0, 0] && WriteLE(0, 5) == [0, 0, 0, 0, 0] && WriteLE(0, 6) == [0, 0, 0, 0, 0, 0];
    assert WriteLE(0, 7) == [0, 0, 0, 0, 0, 0, 0];
  }

  /** The bytes of every snapshot: "CXPRBSNP", format 1, header size 56, ABI 5, and what depends on the population. */
  lemma SnapshotSpelled(d: Descriptor, layoutId: nat, bs: seq<seq<Byte>>)
    requires d.abiVersion == 5
    ensures var data := SnapshotBytes(d, layoutId, bs);
            && |data| == 56 + |Payload(bs)| && data[56..] == Payload(bs)
            && data[..8] == [0x43, 0x58, 0x50, 0x52, 0x42, 0x53, 0x4e, 0x50]
            && data[8..12] == [1, 0, 0, 0] && data[12..16] == [56, 0, 0, 0] && data[16..20] == [5, 0, 0, 0]
            && data[24..32] == WriteLE(LayoutHash(d, layoutId), 8)
            && data[32..40] == WriteLE(d.stateSize, 8) && data[40..48] == WriteLE(|bs|, 8)
            && data[48..56] == WriteLE(Fnv(0xcbf29ce484222325, Payload(bs)), 8)
  {
    SnapshotFields(d, layoutId, bs);
    SmallWord(1);
    SmallWord(56);
    SmallWord(5);
  }

  lemma ChecksumOfA()
    ensures WriteLE(Fnv(0xcbf29ce484222325, [0x61]), 8) == [0x8c, 0xec, 0x01, 0x86, 0x4c, 0xdc, 0x63, 0xaf]
  {
    PublishedHashes();
    var bytes: seq<Byte> := [0x8c, 0xec, 0x01, 0x86, 0x4c, 0xdc, 0x63, 0xaf];
    ReadsAs(0x8c, 0xec, 0x01, 0x86, 0x4c, 0xdc, 0x63, 0xaf);
    WriteRead(bytes);
  }

  /** Eight bytes as a word, the least significant first. */
  lemma ReadsAs(a: Byte, b: Byte, c: Byte, d: Byte, e: Byte, f: Byte, g: Byte, h: Byte)
    ensures ReadLE([a, b, c, d, e, f, g, h])
         == a + 0x100 * b + 0x1_0000 * c + 0x100_0000 * d + 0x1_0000_0000 * e + 0x100_0000_0000 * f
            + 0x1_0000_0000_0000 * g + 0x100_0000_0000_0000 * h
  {
    ReadsFirst(h, []);
    ReadsFirst(g, [h]);
    ReadsFirst(f, [g, h]);
    ReadsFirst(e, [f, g, h]);
    ReadsFirst(d, [e, f, g, h]);
    ReadsFirst(c, [d, e, f, g, h]);
    ReadsFirst(b, [c, d, e, f, g, h]);
    ReadsFirst(a, [b, c, d, e, f, g, h]);
  }

  lemma ReadsFirst(b: Byte, rest: seq<Byte>)
    ensures ReadLE([b] + rest) == b + 256 * ReadLE(rest)
  {
    assert ([b] + rest)[1..] == rest;
  }

  /** The snapshot of one element whose state is the byte 0x61. */
  lemma SnapshotOfA(d: Descriptor, layoutId: nat)
    requires d.abiVersion == 5 && d.stateSize == 1
    ensures var data := SnapshotBytes(d, layoutId, [[0x61]]);
            && data[32..40] == [1, 0, 0, 0, 0, 0, 0, 0] && data[40..48] == [1, 0, 0, 0, 0, 0, 0, 0]
            && data[48..56] == [0x8c, 0xec, 0x01, 0x86, 0x4c, 0xdc, 0x63, 0xaf] && data[56..] == [0x61]
  {
    var bs: seq<seq<Byte>> := [[0x61]];
    assert bs[..0] == [] && Payload(bs[..0]) == [] && Payload(bs) == [] + [0x61] == [0x61];
    SnapshotSpelled(d, layoutId, bs);
    ChecksumOfA();
    SmallWord(1);
  }

  // ----- the bytes of the layout hash -----

  function Word(n: Byte): seq<Byte> { [n, 0, 0, 0, 0, 0, 0, 0] }

  lemma OneField(f: Field, letter: Byte, kind: Byte)
    requires f == Field([letter], kind)
    ensures ListBytes([f]) == Word(1) + Word(1) + [letter] + Word(kind)
  {
    SmallWord(1);
    SmallWord(kind);
    assert [f][1..] == [] && AllFieldBytes([f][1..]) == [];
    assert AllFieldBytes([f]) == FieldBytes(f);
    Regroup(Word(1), Word(1) + [letter], Word(kind));
  }

  /** What is hashed for a model `m` with an input `x`, an output `y` and a parameter `p`. */
  lemma LayoutSpelled(d: Descriptor, layoutId: Byte, size: Byte)
    requires d.name == ['m' as nat] && d.abiVersion == 5 && d.stateSize == size
    requires d.inputs == [Field(['x' as nat], 1)] && d.outputs == [Field(['y' as nat], 2)]
    requires d.params == [Field(['p' as nat], 3)]
    ensures LayoutBytes(d, layoutId)
         == Word(1) + ['m' as nat] + Word(layoutId) + Word(5) + Word(size)
            + (Word(1) + Word(1) + ['x' as nat] + Word(1))
            + (Word(1) + Word(1) + ['y' as nat] + Word(2))
            + (Word(1) + Word(1) + ['p' as nat] + Word(3))
  {
    SmallWord(1);
    SmallWord(layoutId);
    SmallWord(5);
    SmallWord(size);
    OneField(d.inputs[0], 'x' as nat, 1);
    OneField(d.outputs[0], 'y' as nat, 2);
    OneField(d.params[0], 'p' as nat, 3);
    assert d.inputs == [d.inputs[0]] && d.outputs == [d.outputs[0]] && d.params == [d.params[0]];
    Joined(NameBytes(d.name), Word(layoutId), Word(5), Word(size), ListBytes(d.inputs), ListBytes(d.outputs),
           ListBytes(d.params));
  }

  lemma Joined(a: seq<Byte>, b: seq<Byte>, c: seq<Byte>, d: seq<Byte>, e: seq<Byte>, f: seq<Byte>, g: seq<Byte>)
    ensures a + (b + (c + (d + (e + (f + g))))) == a + b + c + d + e + f + g
  {
  }
}
