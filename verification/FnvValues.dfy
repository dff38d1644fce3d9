/** Published values of the hash that protects snapshots. */
module FnvValues {
  import opened Bytes

  lemma HashesOne(h: U64, b: Byte)
    ensures Fnv(h, [b]) == Step(h, b)
  {
    assert [b][1..] == [];
  }

  /** One step, with the parts of its computation given. */
  lemma StepGives(h: U64, b: Byte, high: nat, low: Byte, k: nat, r: U64)
    requires h / 256 == high && Xor(h % 256, b) == low && (high * 256 + low) * FNV_PRIME == k * U64_LIMIT + r
    ensures Step(h, b) == r
  {
    RemainderUnique((high * 256 + low) * FNV_PRIME, k, r);
  }

  lemma FirstSteps()
    ensures Step(0xcbf29ce484222325, 0x61) == 0xaf63dc4c8601ec8c
    ensures Step(0xcbf29ce484222325, 0x66) == 0xaf63db4c8601ead9
    ensures Step(0xaf63db4c8601ead9, 0x6f) == 0x08985907b541d342
    ensures Step(0x08985907b541d342, 0x6f) == 0xdcb27518fed9d577
  {
    StepGives(0xcbf29ce484222325, 0x61, 0xcbf29ce4842223, 0x44, 875948729822, 0xaf63dc4c8601ec8c);
    StepGives(0xcbf29ce484222325, 0x66, 0xcbf29ce4842223, 0x43, 875948729822, 0xaf63db4c8601ead9);
    StepGives(0xaf63db4c8601ead9, 0x6f, 0xaf63db4c8601ea, 0xb6, 753294593456, 0x08985907b541d342);
    StepGives(0x08985907b541d342, 0x6f, 0x08985907b541d3, 0x2d, 36915709891, 0xdcb27518fed9d577);
  }

  lemma LastSteps()
    ensures Step(0xdcb27518fed9d577, 0x62) == 0xdd120e790c2512af
    ensures Step(0xdd120e790c2512af, 0x61) == 0xcac165afa2fef40a
    ensures Step(0xcac165afa2fef40a, 0x72) == 0x85944171f73967e8
  {
    StepGives(0xdcb27518fed9d577, 0x62, 0xdcb27518fed9d5, 0x15, 947886824053, 0xdd120e790c2512af);
    StepGives(0xdd120e790c2512af, 0x61, 0xdd120e790c2512, 0xce, 949490711171, 0xcac165afa2fef40a);
    StepGives(0xcac165afa2fef40a, 0x72, 0xcac165afa2fef4, 0x78, 870828060923, 0x85944171f73967e8);
  }

  /** The hashes that draft-eastlake-fnv publishes for the empty string, "a" and "foobar". */
  lemma PublishedHashes()
    ensures Fnv(FNV_OFFSET, []) == 0xcbf29ce484222325
    ensures Fnv(FNV_OFFSET, [0x61]) == 0xaf63dc4c8601ec8c
    ensures Fnv(FNV_OFFSET, [0x66, 0x6f, 0x6f, 0x62, 0x61, 0x72]) == 0x85944171f73967e8
  {
    FirstSteps();
    LastSteps();
    HashesOne(FNV_OFFSET, 0x61);
    var s: seq<Byte> := [0x66, 0x6f, 0x6f, 0x62, 0x61, 0x72];
    assert s[1..] == [0x6f, 0x6f, 0x62, 0x61, 0x72] && s[1..][1..] == [0x6f, 0x62, 0x61, 0x72];
    assert s[1..][1..][1..] == [0x62, 0x61, 0x72] && s[1..][1..][1..][1..] == [0x61, 0x72];
    assert s[1..][1..][1..][1..][1..] == [0x72];
    HashesOne(0xcac165afa2fef40a, 0x72);
  }
}
