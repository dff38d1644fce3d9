/** The layout hash of src/bulk_snapshot.c: which bytes it hashes, and that they tell layouts apart. */
module SnapshotLayout {
  import opened Bytes
  import opened Bulk

  /** `hash_name` hashes the length and then the characters. */
  function NameBytes(name: seq<Byte>): seq<Byte> {
    WriteLE(|name|, 8) + name
  }

  function FieldBytes(f: Field): seq<Byte> {
    NameBytes(f.name) + WriteLE(f.kind, 8)
  }

  function AllFieldBytes(fs: seq<Field>): seq<Byte> {
    if fs == [] then [] else FieldBytes(fs[0]) + AllFieldBytes(fs[1..])
  }

  function ListBytes(fs: seq<Field>): seq<Byte> {
    WriteLE(|fs|, 8) + AllFieldBytes(fs)
  }

  /** Everything `descriptor_layout_hash` feeds to the hash, in order. */
  function LayoutBytes(d: Descriptor, layoutId: nat): seq<Byte> {
    NameBytes(d.name) + (WriteLE(layoutId, 8) + (WriteLE(d.abiVersion, 8) + (WriteLE(d.stateSize, 8)
      + (ListBytes(d.inputs) + (ListBytes(d.outputs) + ListBytes(d.params))))))
  }

  function LayoutHash(d: Descriptor, layoutId: nat): U64 {
    Fnv(FNV_OFFSET, LayoutBytes(d, layoutId))
  }

  /** What fits the C types: 64-bit lengths, ids and sizes. */
  ghost predicate FieldFits(f: Field) { |f.name| < U64_LIMIT && f.kind < U64_LIMIT }

  ghost predicate ListFits(fs: seq<Field>) {
    |fs| < U64_LIMIT && forall i | 0 <= i < |fs| :: FieldFits(fs[i])
  }

  ghost predicate LayoutFits(d: Descriptor, layoutId: nat) {
    && |d.name| < U64_LIMIT && layoutId < U64_LIMIT && d.abiVersion < U64_LIMIT && d.stateSize < U64_LIMIT
    && ListFits(d.inputs) && ListFits(d.outputs) && ListFits(d.params)
  }

  lemma SplitPrefix(a: seq<Byte>, b: seq<Byte>, r: seq<Byte>, s: seq<Byte>)
    requires |a| == |b| && a + r == b + s
    ensures a == b && r == s
  {
    assert a == (a + r)[..|a|] && b == (b + s)[..|b|];
    assert r == (a + r)[|a|..] && s == (b + s)[|b|..];
  }

  lemma WordPrefix(m: nat, n: nat, r: seq<Byte>, s: seq<Byte>)
    requires m < U64_LIMIT && n < U64_LIMIT && WriteLE(m, 8) + r == WriteLE(n, 8) + s
    ensures m == n && r == s
  {
    SplitPrefix(WriteLE(m, 8), WriteLE(n, 8), r, s);
    WordSizes();
    ReadWrite(m, 8);
    ReadWrite(n, 8);
  }

  lemma Regroup(a: seq<Byte>, b: seq<Byte>, c: seq<Byte>)
    ensures a + b + c == a + (b + c)
  {
  }

  lemma NamePrefix(a: seq<Byte>, b: seq<Byte>, r: seq<Byte>, s: seq<Byte>)
    requires |a| < U64_LIMIT && |b| < U64_LIMIT && NameBytes(a) + r == NameBytes(b) + s
    ensures a == b && r == s
  {
    Regroup(WriteLE(|a|, 8), a, r);
    Regroup(WriteLE(|b|, 8), b, s);
    WordPrefix(|a|, |b|, a + r, b + s);
    SplitPrefix(a, b, r, s);
  }

  lemma FieldPrefix(f: Field, g: Field, r: seq<Byte>, s: seq<Byte>)
    requires FieldFits(f) && FieldFits(g) && FieldBytes(f) + r == FieldBytes(g) + s
    ensures f == g && r == s
  {
    Regroup(NameBytes(f.name), WriteLE(f.kind, 8), r);
    Regroup(NameBytes(g.name), WriteLE(g.kind, 8), s);
    NamePrefix(f.name, g.name, WriteLE(f.kind, 8) + r, WriteLE(g.kind, 8) + s);
    WordPrefix(f.kind, g.kind, r, s);
  }

  lemma SplitFields(fs: seq<Field>, r: seq<Byte>)
    requires fs != []
    ensures AllFieldBytes(fs) + r == FieldBytes(fs[0]) + (AllFieldBytes(fs[1..]) + r)
  {
    Regroup(FieldBytes(fs[0]), AllFieldBytes(fs[1..]), r);
  }

  lemma {:induction false} FieldsPrefix(fs: seq<Field>, gs: seq<Field>, r: seq<Byte>, s: seq<Byte>)
    requires |fs| == |gs| && ListFits(fs) && ListFits(gs) && AllFieldBytes(fs) + r == AllFieldBytes(gs) + s
    ensures fs == gs && r == s
  {
    if fs == [] {
      assert [] + r == r && [] + s == s;
    } else {
      SplitFields(fs, r);
      SplitFields(gs, s);
      FieldPrefix(fs[0], gs[0], AllFieldBytes(fs[1..]) + r, AllFieldBytes(gs[1..]) + s);
      FieldsPrefix(fs[1..], gs[1..], r, s);
      assert fs == [fs[0]] + fs[1..] && gs == [gs[0]] + gs[1..];
    }
  }

  lemma ListPrefix(fs: seq<Field>, gs: seq<Field>, r: seq<Byte>, s: seq<Byte>)
    requires ListFits(fs) && ListFits(gs) && ListBytes(fs) + r == ListBytes(gs) + s
    ensures fs == gs && r == s
  {
    Regroup(WriteLE(|fs|, 8), AllFieldBytes(fs), r);
    Regroup(WriteLE(|gs|, 8), AllFieldBytes(gs), s);
    WordPrefix(|fs|, |gs|, AllFieldBytes(fs) + r, AllFieldBytes(gs) + s);
    FieldsPrefix(fs, gs, r, s);
  }

  /**
   The hashed bytes determine model name, layout id, ABI version, state size and all three typed
   name lists: no two different layouts feed the hash the same bytes.
   */
  lemma LayoutBytesInjective(d: Descriptor, id: nat, e: Descriptor, id': nat)
    requires LayoutFits(d, id) && LayoutFits(e, id') && LayoutBytes(d, id) == LayoutBytes(e, id')
    ensures d.name == e.name && id == id' && d.abiVersion == e.abiVersion && d.stateSize == e.stateSize
    ensures d.inputs == e.inputs && d.outputs == e.outputs && d.params == e.params
  {
    var d5, e5 := ListBytes(d.outputs) + ListBytes(d.params), ListBytes(e.outputs) + ListBytes(e.params);
    var d4, e4 := ListBytes(d.inputs) + d5, ListBytes(e.inputs) + e5;
    var d3, e3 := WriteLE(d.stateSize, 8) + d4, WriteLE(e.stateSize, 8) + e4;
    var d2, e2 := WriteLE(d.abiVersion, 8) + d3, WriteLE(e.abiVersion, 8) + e3;
    NamePrefix(d.name, e.name, WriteLE(id, 8) + d2, WriteLE(id', 8) + e2);
    WordPrefix(id, id', d2, e2);
    WordPrefix(d.abiVersion, e.abiVersion, d3, e3);
    WordPrefix(d.stateSize, e.stateSize, d4, e4);
    ListPrefix(d.inputs, e.inputs, d5, e5);
    ListPrefix(d.outputs, e.outputs, ListBytes(d.params), ListBytes(e.params));
    assert ListBytes(d.params) + [] == ListBytes(d.params) && ListBytes(e.params) + [] == ListBytes(e.params);
    ListPrefix(d.params, e.params, [], []);
  }

  // ----- the hashing loops -----

  method HashName(seed: U64, name: seq<Byte>) returns (hash: U64)
    ensures hash == Fnv(seed, NameBytes(name))
  {
    hash := HashBytes(seed, WriteLE(|name|, 8));
    hash := HashBytes(hash, name);
    FnvConcat(seed, WriteLE(|name|, 8), name);
  }

  lemma {:induction false} AllFieldBytesSnoc(fs: seq<Field>, f: Field)
    ensures AllFieldBytes(fs + [f]) == AllFieldBytes(fs) + FieldBytes(f)
  {
    if fs == [] {
      assert fs + [f] == [f] && [f][1..] == [];
    } else {
      assert (fs + [f])[1..] == fs[1..] + [f];
      AllFieldBytesSnoc(fs[1..], f);
    }
  }

  method HashList(seed: U64, fs: seq<Field>) returns (hash: U64)
    ensures hash == Fnv(seed, ListBytes(fs))
  {
    hash := HashBytes(seed, WriteLE(|fs|, 8));
    ghost var start := hash;
    for i := 0 to |fs|
      invariant hash == Fnv(start, AllFieldBytes(fs[..i]))
    {
      ghost var before := hash;
      hash := HashName(hash, fs[i].name);
      hash := HashBytes(hash, WriteLE(fs[i].kind, 8));
      FnvConcat(before, NameBytes(fs[i].name), WriteLE(fs[i].kind, 8));
      assert fs[..i + 1] == fs[..i] + [fs[i]];
      AllFieldBytesSnoc(fs[..i], fs[i]);
      FnvConcat(start, AllFieldBytes(fs[..i]), FieldBytes(fs[i]));
    }
    assert fs[..|fs|] == fs;
    FnvConcat(seed, WriteLE(|fs|, 8), AllFieldBytes(fs));
  }

  /** `descriptor_layout_hash`, piece by piece, is the hash of the whole layout. */
  method DescriptorLayoutHash(d: Descriptor, layoutId: nat) returns (hash: U64)
    ensures hash == LayoutHash(d, layoutId)
  {
    ghost var b6 := ListBytes(d.params);
    ghost var b5 := ListBytes(d.outputs) + b6;
    ghost var b4 := ListBytes(d.inputs) + b5;
    ghost var b3 := WriteLE(d.stateSize, 8) + b4;
    ghost var b2 := WriteLE(d.abiVersion, 8) + b3;
    ghost var b1 := WriteLE(layoutId, 8) + b2;
    FnvConcat(FNV_OFFSET, NameBytes(d.name), b1);
    hash := HashName(FNV_OFFSET, d.name);
    FnvConcat(hash, WriteLE(layoutId, 8), b2);
    hash := HashBytes(hash, WriteLE(layoutId, 8));
    FnvConcat(hash, WriteLE(d.abiVersion, 8), b3);
    hash := HashBytes(hash, WriteLE(d.abiVersion, 8));
    FnvConcat(hash, WriteLE(d.stateSize, 8), b4);
    hash := HashBytes(hash, WriteLE(d.stateSize, 8));
    FnvConcat(hash, ListBytes(d.inputs), b5);
    hash := HashList(hash, d.inputs);
    FnvConcat(hash, ListBytes(d.outputs), b6);
    hash := HashList(hash, d.outputs);
    hash := HashList(hash, d.params);
  }
}
