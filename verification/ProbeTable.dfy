/**
 The open-addressing name tables of src/struct.c: linear probing, doubling, cloning, and
 deletion by re-inserting the rest of the cluster.  The struct map and the array map are the
 same code, so the table is generic in its value.

 Walks around the slot array are described by `On`, a half-open interval on the circle of slots.
 */
module ProbeTable {
  import opened Common

  type Hash = string -> nat

  datatype Slot<V> = Free | Used(name: string, value: V)

  /** The first capacity of a table and the load factor, as a fraction; src/hashmap/internal.h has 32 and 3/4. */
  datatype Policy = Policy(initial: nat, fill: nat, outOf: nat) {
    /** Any capacity of at least one slot and any load factor strictly between 0 and 1. */
    predicate Sound() { initial >= 1 && 0 < fill < outOf }
  }

  /** `(double)(count + 1) / capacity > load factor`, without the division. */
  predicate Overloaded(p: Policy, count: nat, capacity: nat) {
    p.outOf * (count + 1) > p.fill * capacity
  }

  /** So many keys that a table of them may have more than half of `SIZE_MAX` slots. */
  predicate Crowded(p: Policy, keys: nat) {
    p.outOf * keys > p.fill * (SIZE_MAX / 2)
  }

  lemma RoomLeft(p: Policy, count: nat, capacity: nat)
    requires p.Sound() && capacity > 0 && !Overloaded(p, count, capacity)
    ensures count + 1 < capacity
  {
    MulMonotone(p.fill + 1, p.outOf, capacity);
    assert (p.fill + 1) * capacity == p.fill * capacity + capacity;
    FewerTimes(count + 1, capacity, p.outOf);
  }

  lemma FewerTimes(a: nat, b: nat, m: nat)
    requires m * a < m * b
    ensures a < b
  {
    if b <= a {
      MulMonotone(b, a, m);
    }
  }

  lemma CrowdedByMore(p: Policy, keys: nat, more: nat)
    requires Crowded(p, keys) && keys <= more
    ensures Crowded(p, more)
  {
    MulMonotone(keys, more, p.outOf);
  }

  lemma CrowdedWhenRefused(p: Policy, count: nat, capacity: nat, keys: nat)
    requires Overloaded(p, count, capacity) && capacity > SIZE_MAX / 2 && count < keys
    ensures Crowded(p, keys)
  {
    MulMonotone(SIZE_MAX / 2, capacity, p.fill);
    MulMonotone(count + 1, keys, p.outOf);
  }

  /** The home slot of every name in a table of the given capacity. */
  function Homes(hash: Hash, capacity: nat): (home: Hash)
    requires capacity > 0
    ensures forall name :: home(name) < capacity
  {
    (name: string) => hash(name) % capacity
  }

  /** `(i + 1) % capacity` */
  function Next(i: nat, capacity: nat): (j: nat)
    requires i < capacity
    ensures j < capacity
    ensures j == (i + 1) % capacity
  {
    if i + 1 == capacity then 0 else i + 1
  }

  /** Slot `j` is on the walk that starts at `a` and stops just before `b`. */
  predicate On(a: int, j: int, b: int) {
    if a <= b then a <= j < b else a <= j || j < b
  }

  ghost predicate Unique<V>(s: seq<Slot<V>>) {
    forall i, j | 0 <= i < j < |s| && s[i].Used? && s[j].Used? :: s[i].name != s[j].name
  }

  /** Slot `j` is free although it lies between the home of the entry at `p` and `p` itself. */
  ghost predicate Gap<V>(s: seq<Slot<V>>, home: Hash, p: int, j: int) {
    && 0 <= p < |s| && 0 <= j < |s| && s[p].Used? && s[j].Free?
    && On(home(s[p].name), j, p)
  }

  ghost predicate Represents<V>(s: seq<Slot<V>>, m: map<string, V>) {
    && (forall i | 0 <= i < |s| && s[i].Used? :: s[i].name in m && m[s[i].name] == s[i].value)
    && (forall n | n in m :: exists i | 0 <= i < |s| :: s[i] == Used(n, m[n]))
  }

  /** The table invariant. */
  ghost predicate Good<V>(s: seq<Slot<V>>, home: Hash, m: map<string, V>) {
    && (forall name :: home(name) < |s|)
    && Unique(s)
    && Represents(s, m)
    && (forall p, j :: !Gap(s, home, p, j))
  }

  /** Where probing for `name` stops: at the entry with that name, or at the first free slot. */
  ghost predicate IsProbe<V>(s: seq<Slot<V>>, home: Hash, name: string, r: nat) {
    && r < |s|
    && (s[r].Used? ==> s[r].name == name)
    && (forall j | 0 <= j < |s| && On(home(name), j, r) :: s[j].Used? && s[j].name != name)
  }

  /** A probe decides membership: it finds the entry exactly when the map has the name. */
  lemma ProbeDecides<V>(s: seq<Slot<V>>, home: Hash, m: map<string, V>, name: string, r: nat)
    requires Good(s, home, m) && IsProbe(s, home, name, r)
    ensures s[r].Used? <==> name in m
    ensures s[r].Used? ==> s[r] == Used(name, m[name])
  {
    if name in m {
      var i :| 0 <= i < |s| && s[i] == Used(name, m[name]);
      assert !Gap(s, home, i, r);
    }
  }

  /** The names of the first `n` slots, all of them in use, are `n` different keys. */
  lemma {:induction false} FullPrefixNames<V>(s: seq<Slot<V>>, m: map<string, V>, n: nat)
    returns (names: set<string>)
    requires n <= |s| && Unique(s) && Represents(s, m)
    requires forall i | 0 <= i < n :: s[i].Used?
    ensures |names| == n && names <= m.Keys
    ensures forall x | x in names :: exists i | 0 <= i < n :: s[i].Used? && s[i].name == x
  {
    if n == 0 {
      names := {};
    } else {
      var before := FullPrefixNames(s, m, n - 1);
      names := before + {s[n - 1].name};
    }
  }

  /** A table with fewer keys than slots has a free slot, so every probe stops. */
  lemma HasFree<V>(s: seq<Slot<V>>, m: map<string, V>) returns (free: nat)
    requires Unique(s) && Represents(s, m) && |m| < |s|
    ensures free < |s| && s[free].Free?
  {
    if forall i | 0 <= i < |s| :: s[i].Used? {
      var names := FullPrefixNames(s, m, |s|);
      CardinalityMonotone(names, m.Keys);
      assert false;
    }
    free :| free < |s| && s[free].Free?;
  }

  /** Putting a new name into the free slot its probe found keeps the invariant. */
  lemma PlaceKeeps<V>(s: seq<Slot<V>>, home: Hash, m: map<string, V>, name: string, value: V, r: nat)
    requires Good(s, home, m) && IsProbe(s, home, name, r) && s[r].Free?
    ensures Good(s[r := Used(name, value)], home, m[name := value])
    ensures name !in m
  {
    ProbeDecides(s, home, m, name, r);
    var t := s[r := Used(name, value)];
    var m' := m[name := value];
    forall n | n in m' ensures exists i | 0 <= i < |t| :: t[i] == Used(n, m'[n]) {
      if n == name {
        assert t[r] == Used(n, m'[n]);
      } else {
        var i :| 0 <= i < |s| && s[i] == Used(n, m[n]);
        assert t[i] == Used(n, m'[n]);
      }
    }
    forall p, j ensures !Gap(t, home, p, j) {
      assert !Gap(s, home, p, j);
    }
  }

  /** Overwriting the value of the entry a probe found keeps the invariant. */
  lemma OverwriteKeeps<V>(s: seq<Slot<V>>, home: Hash, m: map<string, V>, name: string, value: V, r: nat)
    requires Good(s, home, m) && IsProbe(s, home, name, r) && s[r].Used?
    ensures Good(s[r := Used(name, value)], home, m[name := value])
    ensures name in m
  {
    ProbeDecides(s, home, m, name, r);
    var t := s[r := Used(name, value)];
    var m' := m[name := value];
    forall n | n in m' ensures exists i | 0 <= i < |t| :: t[i] == Used(n, m'[n]) {
      if n == name {
        assert t[r] == Used(n, m'[n]);
      } else {
        var i :| 0 <= i < |s| && s[i] == Used(n, m[n]);
        assert t[i] == Used(n, m'[n]);
      }
    }
    forall p, j ensures !Gap(t, home, p, j) {
      assert !Gap(s, home, p, j);
    }
  }

  // ----- deletion -----

  /**
   The state of the deletion loop.  `hole` is the slot that was cleared, `end` the free slot
   that closes its cluster, and `i` the next entry to re-insert.  Entries from `i` up to `end`
   may miss slots of their chain, but only slots between `hole` and `i`; all others are chained.
   */
  ghost predicate Repairing<V>(s: seq<Slot<V>>, home: Hash, hole: nat, i: nat, end: nat) {
    && (forall name :: home(name) < |s|)
    && hole < |s| && i < |s| && end < |s| && s[end].Free? && hole != end && i != hole
    && (i == end || On(hole, i, end))
    && (forall j | 0 <= j < |s| && On(i, j, end) :: s[j].Used?)
    && (forall p, j | Gap(s, home, p, j) :: On(i, p, end) && On(hole, j, i))
  }

  /** Clearing the entry at `r` opens a hole that only entries later in its cluster can see. */
  lemma ClearOpensHole<V>(s: seq<Slot<V>>, home: Hash, m: map<string, V>, r: nat, end: nat)
    requires Good(s, home, m) && r < |s| && s[r].Used? && end < |s| && s[end].Free?
    requires forall j | 0 <= j < |s| && On(r, j, end) :: s[j].Used?
    ensures var t := s[r := Free]; Unique(t) && Represents(t, m - {s[r].name})
    ensures Repairing(s[r := Free], home, r, Next(r, |s|), end)
    ensures |m - {s[r].name}| == |m| - 1
  {
    RemoveRepresents(s, m, r);
    ClearRepairing(s, home, r, end);
  }

  lemma ClearRepairing<V>(s: seq<Slot<V>>, home: Hash, r: nat, end: nat)
    requires (forall name :: home(name) < |s|) && forall p, j :: !Gap(s, home, p, j)
    requires r < |s| && s[r].Used? && end < |s| && s[end].Free?
    requires forall j | 0 <= j < |s| && On(r, j, end) :: s[j].Used?
    ensures Repairing(s[r := Free], home, r, Next(r, |s|), end)
  {
    var t := s[r := Free];
    forall p, j | Gap(t, home, p, j) ensures On(Next(r, |s|), p, end) && On(r, j, Next(r, |s|)) {
      ClearGap(s, home, r, end, p, j);
    }
  }

  /** A gap that clearing opens is at the cleared slot, in the chain of a later entry of the cluster. */
  lemma ClearGap<V>(s: seq<Slot<V>>, home: Hash, r: nat, end: nat, p: int, j: int)
    requires r < |s| && s[r].Used? && end < |s| && s[end].Free? && Gap(s[r := Free], home, p, j)
    requires home(s[p].name) < |s| && !Gap(s, home, p, j) && !Gap(s, home, p, end)
    ensures On(Next(r, |s|), p, end) && On(r, j, Next(r, |s|))
  {
    assert s[p].Used? && j == r;
  }

  lemma RemoveRepresents<V>(s: seq<Slot<V>>, m: map<string, V>, r: nat)
    requires Unique(s) && Represents(s, m) && r < |s| && s[r].Used?
    ensures var t := s[r := Free]; Unique(t) && Represents(t, m - {s[r].name})
    ensures |m - {s[r].name}| == |m| - 1
  {
    var t, m' := s[r := Free], m - {s[r].name};
    assert m'.Keys == m.Keys - {s[r].name};
    forall n | n in m' ensures exists i | 0 <= i < |t| :: t[i] == Used(n, m'[n]) {
      var i :| 0 <= i < |s| && s[i] == Used(n, m[n]);
      assert t[i] == Used(n, m'[n]);
    }
  }

  /** A displaced entry is put back at its own slot or at a hole before it, never past it. */
  lemma ReinsertLandsInCluster<V>(s: seq<Slot<V>>, home: Hash, hole: nat, i: nat, end: nat, t: nat)
    requires Unique(s) && Repairing(s, home, hole, i, end) && s[i].Used?
    requires IsProbe(s[i := Free], home, s[i].name, t)
    ensures s[i := Free][t].Free?
    ensures t == i || On(hole, t, i)
  {
    var u := s[i := Free];
    assert u[t].Used? ==> s[t].name == s[i].name;
    if t != i {
      assert u[i].Free?;
      assert Gap(s, home, i, t);
    }
  }

  /** Moving an entry to a free slot changes nothing about what the table represents. */
  lemma MoveRepresents<V>(s: seq<Slot<V>>, m: map<string, V>, i: nat, t: nat)
    requires Unique(s) && Represents(s, m) && i < |s| && t < |s| && s[i].Used?
    requires t == i || s[t].Free?
    ensures var s' := s[i := Free][t := s[i]]; Unique(s') && Represents(s', m)
  {
    var s' := s[i := Free][t := s[i]];
    MoveUnique(s, i, t);
    forall k | 0 <= k < |s'| && s'[k].Used? ensures s'[k].name in m && m[s'[k].name] == s'[k].value {
      assert s'[k] == if k == t then s[i] else s[k];
    }
    forall n | n in m ensures exists k | 0 <= k < |s'| :: s'[k] == Used(n, m[n]) {
      var k :| 0 <= k < |s| && s[k] == Used(n, m[n]);
      var k' := if k == i then t else k;
      assert s'[k'] == Used(n, m[n]);
    }
  }

  lemma MoveUnique<V>(s: seq<Slot<V>>, i: nat, t: nat)
    requires Unique(s) && i < |s| && t < |s| && s[i].Used? && (t == i || s[t].Free?)
    ensures Unique(s[i := Free][t := s[i]])
  {
  }

  /** One round of the deletion loop: take out the entry at `i`, put it where its probe stops. */
  lemma ReinsertRepairs<V>(s: seq<Slot<V>>, home: Hash, hole: nat, i: nat, end: nat, t: nat)
    requires Unique(s) && Repairing(s, home, hole, i, end) && s[i].Used?
    requires IsProbe(s[i := Free], home, s[i].name, t)
    ensures t == i || s[t].Free?
    ensures Repairing(s[i := Free][t := s[i]], home, hole, Next(i, |s|), end)
  {
    ReinsertLandsInCluster(s, home, hole, i, end, t);
    var s', i' := s[i := Free][t := s[i]], Next(i, |s|);
    assert s'[end].Free?;
    forall p, j | Gap(s', home, p, j) ensures On(i', p, end) && On(hole, j, i') {
      ReinsertGap(s, home, hole, i, end, t, p, j);
    }
  }

  lemma ReinsertGap<V>(s: seq<Slot<V>>, home: Hash, hole: nat, i: nat, end: nat, t: nat, p: int, j: int)
    requires Repairing(s, home, hole, i, end) && s[i].Used?
    requires IsProbe(s[i := Free], home, s[i].name, t) && (t == i || On(hole, t, i))
    requires Gap(s[i := Free][t := s[i]], home, p, j)
    ensures On(Next(i, |s|), p, end) && On(hole, j, Next(i, |s|))
  {
    var u := s[i := Free];
    assert p != t by {
      assert u[j].Used? || !On(home(s[i].name), j, t);
    }
    assert s[p].Used?;
    if j == i {
      assert !Gap(s, home, p, end);  // no chain crosses the end of the cluster
    } else {
      assert Gap(s, home, p, j);
    }
  }

  /** When the loop reaches the end of the cluster, every chain is whole again. */
  lemma RepairDone<V>(s: seq<Slot<V>>, home: Hash, m: map<string, V>, hole: nat, end: nat)
    requires Unique(s) && Represents(s, m) && Repairing(s, home, hole, end, end)
    ensures Good(s, home, m)
  {
  }

  /** Follow the cluster from `r` to the free slot that closes it. */
  lemma ClusterEnd<V>(s: seq<Slot<V>>, r: nat, free: nat) returns (end: nat)
    requires r < |s| && free < |s| && s[r].Used? && s[free].Free?
    ensures end < |s| && s[end].Free? && end != r
    ensures forall j | 0 <= j < |s| && On(r, j, end) :: s[j].Used?
  {
    end := r;
    while s[end].Used?
      invariant end < |s|
      invariant s[end].Used? || end != r
      invariant end == r || On(r, end, free) || end == free
      invariant forall j | 0 <= j < |s| && On(r, j, end) :: s[j].Used?
      decreases if end <= free then free - end else free + |s| - end
    {
      end := Next(end, |s|);
    }
  }

  // ----- loops over the slot array -----

  /** The probe loop of `cxpr_struct_map_find_slot`. */
  method FindSlot<V>(hash: Hash, entries: array<Slot<V>>, name: string, ghost free: nat) returns (r: nat)
    requires free < entries.Length && entries[free].Free?
    ensures IsProbe(entries[..], Homes(hash, entries.Length), name, r)
  {
    ghost var home := Homes(hash, entries.Length);
    r := hash(name) % entries.Length;
    while entries[r].Used? && entries[r].name != name
      invariant r < entries.Length
      invariant r == home(name) || On(home(name), r, free) || r == free
      invariant forall j | 0 <= j < entries.Length && On(home(name), j, r) ::
                  entries[j].Used? && entries[j].name != name
      decreases if r <= free then free - r else free + entries.Length - r
    {
      r := Next(r, entries.Length);
    }
  }

  /** The probe loop of the doubling, which stops at the first free slot without comparing names. */
  method FirstFree<V>(hash: Hash, entries: array<Slot<V>>, name: string, ghost free: nat) returns (r: nat)
    requires free < entries.Length && entries[free].Free?
    requires forall j | 0 <= j < entries.Length && entries[j].Used? :: entries[j].name != name
    ensures IsProbe(entries[..], Homes(hash, entries.Length), name, r) && entries[r].Free?
  {
    ghost var home := Homes(hash, entries.Length);
    r := hash(name) % entries.Length;
    while entries[r].Used?
      invariant r < entries.Length
      invariant r == home(name) || On(home(name), r, free) || r == free
      invariant forall j | 0 <= j < entries.Length && On(home(name), j, r) :: entries[j].Used?
      decreases if r <= free then free - r else free + entries.Length - r
    {
      r := Next(r, entries.Length);
    }
  }

  /** Probe for `name` and write the entry; `isNew` says that a free slot was taken. */
  method Put<V>(hash: Hash, entries: array<Slot<V>>, ghost m: map<string, V>, name: string, value: V)
    returns (isNew: bool)
    requires |m| < entries.Length && Good(entries[..], Homes(hash, entries.Length), m)
    modifies entries
    ensures Good(entries[..], Homes(hash, entries.Length), m[name := value])
    ensures isNew <==> name !in m
  {
    ghost var free := HasFree(entries[..], m);
    var r := FindSlot(hash, entries, name, free);
    ghost var was, home := entries[..], Homes(hash, entries.Length);
    isNew := entries[r].Free?;
    if isNew {
      PlaceKeeps(was, home, m, name, value, r);
    } else {
      OverwriteKeeps(was, home, m, name, value, r);
    }
    entries[r] := Used(name, value);
    assert entries[..] == was[r := Used(name, value)];
  }

  /** The names in the first `n` slots. */
  ghost function NamesIn<V>(s: seq<Slot<V>>, n: nat): set<string>
    requires n <= |s|
  {
    set i | 0 <= i < n && s[i].Used? :: s[i].name
  }

  lemma NamesStep<V>(s: seq<Slot<V>>, n: nat)
    requires n < |s|
    ensures NamesIn(s, n + 1) == NamesIn(s, n) + if s[n].Used? then {s[n].name} else {}
  {
  }

  lemma NewName<V>(s: seq<Slot<V>>, n: nat)
    requires n < |s| && Unique(s) && s[n].Used?
    ensures s[n].name !in NamesIn(s, n)
  {
  }

  lemma AllNames<V>(s: seq<Slot<V>>, m: map<string, V>)
    requires Represents(s, m)
    ensures NamesIn(s, |s|) == m.Keys
  {
    forall x | x in m ensures x in NamesIn(s, |s|) {
      var i :| 0 <= i < |s| && s[i] == Used(x, m[x]);
      assert s[i].name == x;
    }
  }

  /** The part of the map that lives in the first `n` slots. */
  ghost predicate Prefix<V>(s: seq<Slot<V>>, n: nat, m: map<string, V>, part: map<string, V>)
    requires n <= |s|
  {
    part.Keys == NamesIn(s, n) && forall x | x in part :: x in m && part[x] == m[x]
  }

  lemma PrefixStep<V>(s: seq<Slot<V>>, n: nat, m: map<string, V>, part: map<string, V>)
    requires n < |s| && Unique(s) && Represents(s, m) && Prefix(s, n, m, part)
    ensures s[n].Used? ==> s[n].name !in part && Prefix(s, n + 1, m, part[s[n].name := s[n].value])
    ensures s[n].Free? ==> Prefix(s, n + 1, m, part)
  {
    NamesStep(s, n);
    if s[n].Used? {
      NewName(s, n);
      assert part[s[n].name := s[n].value].Keys == part.Keys + {s[n].name};
    }
  }

  lemma PrefixSmaller<V>(s: seq<Slot<V>>, n: nat, m: map<string, V>, part: map<string, V>)
    requires n < |s| && Unique(s) && Represents(s, m) && Prefix(s, n, m, part) && s[n].Used?
    ensures |part| < |m|
  {
    var name := s[n].name;
    NewName(s, n);
    assert part.Keys <= m.Keys - {name};
    CardinalityMonotone(part.Keys, m.Keys - {name});
  }

  lemma PrefixAll<V>(s: seq<Slot<V>>, m: map<string, V>, part: map<string, V>)
    requires Represents(s, m) && Prefix(s, |s|, m, part)
    ensures part == m
  {
    AllNames(s, m);
  }

  /** Put a name the table does not have into the first free slot of its probe. */
  method PlaceNew<V>(hash: Hash, to: array<Slot<V>>, ghost part: map<string, V>, name: string, value: V)
    requires |part| < to.Length && Good(to[..], Homes(hash, to.Length), part) && name !in part
    modifies to
    ensures Good(to[..], Homes(hash, to.Length), part[name := value])
  {
    ghost var free := HasFree(to[..], part);
    forall j | 0 <= j < to.Length && to[j].Used? ensures to[j].name != name {
      assert to[..][j].name in part;
    }
    var r := FirstFree(hash, to, name, free);
    ghost var was := to[..];
    PlaceKeeps(was, Homes(hash, to.Length), part, name, value, r);
    to[r] := Used(name, value);
    assert to[..] == was[r := Used(name, value)];
  }

  /** One round of the copying loop. */
  method RehashSlot<V>(hash: Hash, slot: Slot<V>, to: array<Slot<V>>, ghost src: seq<Slot<V>>, ghost i: nat,
                       ghost m: map<string, V>, ghost part: map<string, V>)
    returns (ghost part': map<string, V>)
    requires i < |src| < to.Length && slot == src[i] && Unique(src) && Represents(src, m)
    requires Prefix(src, i, m, part) && |part| <= i && Good(to[..], Homes(hash, to.Length), part)
    modifies to
    ensures Prefix(src, i + 1, m, part') && |part'| <= i + 1 && Good(to[..], Homes(hash, to.Length), part')
  {
    PrefixStep(src, i, m, part);
    part' := part;
    if slot.Used? {
      PlaceNew(hash, to, part, slot.name, slot.value);
      part' := part[slot.name := slot.value];
    }
  }

  lemma AllFreeIsGood<V>(s: seq<Slot<V>>, home: Hash)
    requires (forall name :: home(name) < |s|) && forall j | 0 <= j < |s| :: s[j].Free?
    ensures Good(s, home, map[])
  {
  }

  /** The copying loop of `cxpr_struct_map_grow`. */
  method Rehash<V>(hash: Hash, from: array<Slot<V>>, ghost m: map<string, V>, to: array<Slot<V>>)
    requires from != to && from.Length < to.Length
    requires Unique(from[..]) && Represents(from[..], m)
    requires forall j | 0 <= j < to.Length :: to[j].Free?
    modifies to
    ensures Good(to[..], Homes(hash, to.Length), m)
  {
    ghost var part: map<string, V>, src := map[], from[..];
    AllFreeIsGood<V>(to[..], Homes(hash, to.Length));
    for i := 0 to from.Length
      invariant from[..] == src && Good(to[..], Homes(hash, to.Length), part) && |part| <= i
      invariant Prefix(src, i, m, part)
    {
      part := RehashSlot(hash, from[i], to, src, i, m, part);
    }
    PrefixAll(src, m, part);
  }

  /** Where the re-insertion loop stands, and that no slot of `before` except the hole was filled. */
  ghost predicate Closing<V>(before: seq<Slot<V>>, s: seq<Slot<V>>, home: Hash, m: map<string, V>,
                             hole: nat, i: nat, end: nat) {
    && |before| == |s|
    && Unique(s) && Represents(s, m) && Repairing(s, home, hole, i, end)
    && (forall j | 0 <= j < |s| && before[j].Free? && j != hole :: s[j].Free?)
    && (forall j | 0 <= j < |s| && On(hole, j, end) && j != hole :: before[j].Used?)
  }

  /** The re-insertion loop of `cxpr_context_remove_struct`, from the slot after the cleared one. */
  method CloseHole<V>(hash: Hash, entries: array<Slot<V>>, ghost m: map<string, V>, hole: nat, ghost end: nat)
    requires hole < entries.Length
    requires Unique(entries[..]) && Represents(entries[..], m)
    requires Repairing(entries[..], Homes(hash, entries.Length), hole, Next(hole, entries.Length), end)
    modifies entries
    ensures Good(entries[..], Homes(hash, entries.Length), m)
    ensures forall j | 0 <= j < entries.Length && j != hole && old(entries[j]).Free? :: entries[j].Free?
  {
    ghost var home, before := Homes(hash, entries.Length), entries[..];
    var i := Next(hole, entries.Length);
    while entries[i].Used?
      invariant 0 <= i < entries.Length && Closing(before, entries[..], home, m, hole, i, end)
      decreases if i <= end then end - i else end + entries.Length - i
    {
      i := ReinsertOne(hash, entries, before, m, hole, i, end);
    }
    ClosingDone(before, entries[..], home, m, hole, i, end);
  }

  lemma ClosingDone<V>(before: seq<Slot<V>>, s: seq<Slot<V>>, home: Hash, m: map<string, V>,
                       hole: nat, i: nat, end: nat)
    requires Closing(before, s, home, m, hole, i, end) && s[i].Free?
    ensures Good(s, home, m)
  {
    assert i == end;
    RepairDone(s, home, m, hole, end);
  }

  method ReinsertOne<V>(hash: Hash, entries: array<Slot<V>>, ghost before: seq<Slot<V>>,
                        ghost m: map<string, V>, ghost hole: nat, i: nat, ghost end: nat)
    returns (next: nat)
    requires i < entries.Length && entries[i].Used?
    requires Closing(before, entries[..], Homes(hash, entries.Length), m, hole, i, end)
    modifies entries
    ensures next == Next(i, entries.Length) && i != end
    ensures Closing(before, entries[..], Homes(hash, entries.Length), m, hole, next, end)
  {
    ghost var was, home := entries[..], Homes(hash, entries.Length);
    var displaced := entries[i];
    entries[i] := Free;
    assert entries[..] == was[i := Free];
    var t := FindSlot(hash, entries, displaced.name, i);
    ReinsertKeepsClosing(before, was, home, m, hole, i, end, t);
    entries[t] := displaced;
    assert entries[..] == was[i := Free][t := was[i]];
    next := Next(i, entries.Length);
  }

  lemma ReinsertKeepsClosing<V>(before: seq<Slot<V>>, s: seq<Slot<V>>, home: Hash, m: map<string, V>,
                                hole: nat, i: nat, end: nat, t: nat)
    requires Closing(before, s, home, m, hole, i, end) && s[i].Used?
    requires IsProbe(s[i := Free], home, s[i].name, t)
    ensures Closing(before, s[i := Free][t := s[i]], home, m, hole, Next(i, |s|), end)
  {
    ReinsertLandsInCluster(s, home, hole, i, end, t);
    ReinsertRepairs(s, home, hole, i, end, t);
    MoveRepresents(s, m, i, t);
    ReinsertFillsUsed(before, s, hole, i, end, t);
  }

  /** The slot a displaced entry lands in was in use before the deletion. */
  lemma ReinsertFillsUsed<V>(before: seq<Slot<V>>, s: seq<Slot<V>>, hole: nat, i: nat, end: nat, t: nat)
    requires |before| == |s| && i < |s| && t < |s| && hole < |s| && end < |s|
    requires t == i || On(hole, t, i)
    requires i != end && On(hole, i, end)
    requires forall j | 0 <= j < |s| && before[j].Free? && j != hole :: s[j].Free?
    requires forall j | 0 <= j < |s| && On(hole, j, end) && j != hole :: before[j].Used?
    ensures forall j | 0 <= j < |s| && before[j].Free? && j != hole :: s[i := Free][t := s[i]][j].Free?
  {
    assert On(hole, t, end);
  }

  /** Clear slot `r` and repair its cluster, which `end` closes. */
  method ClearAndClose<V>(hash: Hash, entries: array<Slot<V>>, ghost m: map<string, V>, r: nat, ghost end: nat)
    requires r < entries.Length && end < entries.Length && entries[r].Used? && entries[end].Free?
    requires Good(entries[..], Homes(hash, entries.Length), m)
    requires forall j | 0 <= j < entries.Length && On(r, j, end) :: entries[j].Used?
    modifies entries
    ensures Good(entries[..], Homes(hash, entries.Length), m - {old(entries[r]).name})
    ensures |m - {old(entries[r]).name}| == |m| - 1
    ensures forall j | 0 <= j < entries.Length && old(entries[j]).Free? :: entries[j].Free?
  {
    ghost var m' := m - {entries[r].name};
    ClearSlot(hash, entries, m, r, end);
    CloseHole(hash, entries, m', r, end);
  }

  method ClearSlot<V>(hash: Hash, entries: array<Slot<V>>, ghost m: map<string, V>, r: nat, ghost end: nat)
    requires r < entries.Length && end < entries.Length && entries[r].Used? && entries[end].Free?
    requires Good(entries[..], Homes(hash, entries.Length), m)
    requires forall j | 0 <= j < entries.Length && On(r, j, end) :: entries[j].Used?
    modifies entries
    ensures Unique(entries[..]) && Represents(entries[..], m - {old(entries[r]).name})
    ensures Repairing(entries[..], Homes(hash, entries.Length), r, Next(r, entries.Length), end)
    ensures |m - {old(entries[r]).name}| == |m| - 1
    ensures forall j | 0 <= j < entries.Length && j != r :: entries[j] == old(entries[j])
  {
    ghost var before := entries[..];
    ClearOpensHole(before, Homes(hash, entries.Length), m, r, end);
    entries[r] := Free;
    assert entries[..] == before[r := Free];
  }

  // ----- the table object -----

  class Table<V> {
    const hash: Hash
    const policy: Policy
    var entries: array?<Slot<V>>
    var capacity: nat
    var count: nat
    /** The finite map this table stands for. */
    ghost var contents: map<string, V>

    ghost predicate Valid()
      reads this, entries
    {
      && policy.Sound() && count == |contents|
      && (entries == null ==> capacity == 0 && contents == map[])
      && (entries != null ==>
            && 0 < capacity == entries.Length
            && count < capacity
            && Good(entries[..], Homes(hash, capacity), contents))
    }

    /** The next store needs a doubling that `size_t` cannot express. */
    ghost predicate Refuses()
      reads this
    {
      var slots := if entries == null then policy.initial else capacity;
      Overloaded(policy, count, slots) && slots > SIZE_MAX / 2
    }

    /** `cxpr_struct_map_init` */
    constructor (hash: Hash, policy: Policy)
      requires policy.Sound()
      ensures Valid() && this.hash == hash && this.policy == policy && entries == null && contents == map[]
    {
      this.hash, this.policy := hash, policy;
      entries, capacity, count := null, 0, 0;
      contents := map[];
    }

    /** `cxpr_struct_map_grow`: every entry moves to a fresh array twice as long. */
    method Grow() returns (ok: bool)
      requires Valid() && entries != null
      modifies this
      ensures Valid() && contents == old(contents) && count == old(count) && entries != null
      ensures ok <==> old(capacity) <= SIZE_MAX / 2
      ensures if ok then fresh(entries) && capacity == 2 * old(capacity)
              else entries == old(entries) && capacity == old(capacity)
    {
      if capacity > SIZE_MAX / 2 {
        return false;
      }
      var newEntries := new Slot<V>[capacity * 2](_ => Free);
      Rehash(hash, entries, contents, newEntries);
      entries, capacity := newEntries, capacity * 2;
      ok := true;
    }

    /** `cxpr_context_store_struct`; a store is dropped only when a needed doubling is refused. */
    method Store(name: string, value: V)
      requires Valid()
      modifies this, entries
      ensures Valid()
      ensures contents == if old(Refuses()) then old(contents) else old(contents)[name := value]
      ensures count <= old(count) + 1
      ensures entries != null && (entries == old(entries) || fresh(entries))
      ensures var slots := if old(entries) == null then policy.initial else old(capacity);
              capacity == if policy.outOf * (old(count) + 1) > policy.fill * slots && slots <= SIZE_MAX / 2
                          then 2 * slots else slots
    {
      if entries == null {
        Allocate();
      }
      var room := TryStore(name, value);
    }

    /** The first slot array. */
    method Allocate()
      requires Valid() && entries == null
      modifies this
      ensures Valid() && entries != null && fresh(entries) && capacity == policy.initial
      ensures contents == map[] && count == 0
    {
      capacity := policy.initial;
      entries := new Slot<V>[capacity](_ => Free);
    }

    /** Make room if needed, then store. */
    method TryStore(name: string, value: V) returns (ok: bool)
      requires Valid() && entries != null
      modifies this, entries
      ensures Valid() && entries != null && (entries == old(entries) || fresh(entries))
      ensures ok <==> !old(Refuses())
      ensures contents == if ok then old(contents)[name := value] else old(contents)
      ensures count <= old(count) + 1
      ensures capacity == if Overloaded(policy, old(count), old(capacity)) && ok
                          then 2 * old(capacity) else old(capacity)
    {
      ok := MakeRoom();
      if ok {
        Insert(name, value);
      }
    }

    /** Double when the next entry would exceed the load factor. */
    method MakeRoom() returns (ok: bool)
      requires Valid() && entries != null
      modifies this
      ensures Valid() && contents == old(contents) && count == old(count) && entries != null
      ensures ok <==> !old(Refuses())
      ensures entries == old(entries) || fresh(entries)
      ensures ok ==> count + 1 < capacity
      ensures capacity == if Overloaded(policy, count, old(capacity)) && ok then 2 * old(capacity) else old(capacity)
    {
      ok := true;
      if Overloaded(policy, count, capacity) {
        ok := Grow();
      } else {
        RoomLeft(policy, count, capacity);
      }
    }

    method Insert(name: string, value: V)
      requires Valid() && entries != null && count + 1 < capacity
      modifies this, entries
      ensures Valid() && entries == old(entries) && contents == old(contents)[name := value]
      ensures count <= old(count) + 1 && capacity == old(capacity)
    {
      var isNew := Put(hash, entries, contents, name, value);
      if isNew {
        count := count + 1;
      } else {
        assert contents[name := value].Keys == contents.Keys;
      }
      contents := contents[name := value];
    }

    /** `cxpr_context_lookup_struct_map` */
    method Lookup(name: string) returns (found: Option<V>)
      requires Valid()
      ensures found == if name in contents then Some(contents[name]) else None
    {
      if entries == null {
        return None;
      }
      ghost var free := HasFree(entries[..], contents);
      var r := FindSlot(hash, entries, name, free);
      ProbeDecides(entries[..], Homes(hash, capacity), contents, name, r);
      found := if entries[r].Used? then Some(entries[r].value) else None;
    }

    /**
     `cxpr_context_remove_struct`: clear the slot, then take every later entry of the cluster out
     and put it back where its own probe now stops.  No slot that was free becomes used.
     */
    method Remove(name: string)
      requires Valid()
      modifies this, entries
      ensures Valid() && entries == old(entries) && capacity == old(capacity)
      ensures contents == old(contents) - {name} && count <= old(count)
      ensures entries != null ==>
                forall j | 0 <= j < capacity && old(entries[j]).Free? :: entries[j].Free?
    {
      if entries == null {
        return;
      }
      ghost var home := Homes(hash, capacity);
      ghost var free := HasFree(entries[..], contents);
      var r := FindSlot(hash, entries, name, free);
      ProbeDecides(entries[..], home, contents, name, r);
      if entries[r].Free? {
        assert contents - {name} == contents;
        return;
      }
      ghost var end := ClusterEnd(entries[..], r, free);
      RemoveAt(r, end);
    }

    /** Clear slot `r` and repair its cluster, which `end` closes. */
    method RemoveAt(r: nat, ghost end: nat)
      requires Valid() && entries != null && r < capacity && entries[r].Used?
      requires end < capacity && entries[end].Free?
      requires forall j | 0 <= j < capacity && On(r, j, end) :: entries[j].Used?
      modifies this, entries
      ensures Valid() && entries == old(entries) && capacity == old(capacity)
      ensures contents == old(contents) - {old(entries[r]).name}
      ensures forall j | 0 <= j < capacity && old(entries[j]).Free? :: entries[j].Free?
    {
      contents := contents - {entries[r].name};
      ClearAndClose(hash, entries, old(contents), r, end);
      if count > 0 {
        count := count - 1;
      }
    }

    /** `cxpr_struct_map_clear` keeps the slot array and frees every slot. */
    method Clear()
      requires Valid()
      modifies this, entries
      ensures Valid() && contents == map[] && entries == old(entries) && capacity == old(capacity)
    {
      for i := 0 to capacity
        invariant forall k | 0 <= k < i :: entries[k].Free?
        modifies entries
      {
        entries[i] := Free;
      }
      count, contents := 0, map[];
    }

    /** Copy the entry, if any, in slot `i` of `src`. */
    method CloneSlot(src: Table<V>, i: nat) returns (ok: bool)
      requires src != this && src.Valid() && src.entries != null && i < src.capacity
      requires Valid() && entries != null && entries != src.entries
      requires Prefix(src.entries[..], i, src.contents, contents)
      modifies this, entries
      ensures Valid() && entries != null && (entries == old(entries) || fresh(entries))
      ensures ok ==> Prefix(src.entries[..], i + 1, src.contents, contents)
      ensures !ok ==> Crowded(policy, |src.contents|)
    {
      PrefixStep(src.entries[..], i, src.contents, contents);
      ok := true;
      if src.entries[i].Used? {
        PrefixSmaller(src.entries[..], i, src.contents, contents);
        if Refuses() {
          CrowdedWhenRefused(policy, count, capacity, |src.contents|);
        }
        ok := TryStore(src.entries[i].name, src.entries[i].value);
      }
    }

    /** `cxpr_struct_map_clone` into a table that was just initialised. */
    method CloneFrom(src: Table<V>) returns (ok: bool)
      requires src.Valid() && Valid() && entries == null && src != this
      modifies this
      ensures Valid() && (entries == null || fresh(entries))
      ensures ok ==> contents == src.contents
      ensures !ok ==> Crowded(policy, |src.contents|)
    {
      if src.entries == null || src.count == 0 {
        return true;
      }
      Allocate();
      for i := 0 to src.capacity
        invariant Valid() && entries != null && fresh(entries)
        invariant Prefix(src.entries[..], i, src.contents, contents)
      {
        ok := CloneSlot(src, i);
        if !ok {
          return;
        }
      }
      PrefixAll(src.entries[..], src.contents, contents);
      ok := true;
    }
  }

  // ----- whole histories -----

  datatype Op<V> = Store(name: string, value: V) | Remove(name: string) | Clear | Clone | Lookup(name: string)

  /** What an operation does to a plain finite map. */
  function PlainStep<V>(m: map<string, V>, op: Op<V>): map<string, V> {
    match op
    case Store(name, value) => m[name := value]
    case Remove(name) => m - {name}
    case Clear => map[]
    case Clone => m
    case Lookup(_) => m
  }

  function PlainMap<V>(ops: seq<Op<V>>): map<string, V> {
    if ops == [] then map[] else PlainStep(PlainMap(ops[..|ops| - 1]), ops[|ops| - 1])
  }

  /** The answers a plain finite map gives to the lookups of a history. */
  function PlainAnswers<V>(ops: seq<Op<V>>): seq<Option<V>> {
    if ops == [] then [] else
      var before, op := ops[..|ops| - 1], ops[|ops| - 1];
      PlainAnswers(before) + PlainAnswer(PlainMap(before), op)
  }

  /** What a lookup in a plain finite map answers; other operations answer nothing. */
  function PlainAnswer<V>(m: map<string, V>, op: Op<V>): seq<Option<V>> {
    if op.Lookup? then [if op.name in m then Some(m[op.name]) else None] else []
  }

  /** Contents and answers are those of a plain map after `i` operations. */
  ghost predicate Replayed<V>(ops: seq<Op<V>>, i: nat, m: map<string, V>, answers: seq<Option<V>>) {
    i <= |ops| && m == PlainMap(ops[..i]) && answers == PlainAnswers(ops[..i])
  }

  lemma ReplayedNext<V>(ops: seq<Op<V>>, i: nat, m: map<string, V>, answers: seq<Option<V>>)
    requires i < |ops| && Replayed(ops, i, m, answers)
    ensures Replayed(ops, i + 1, PlainStep(m, ops[i]), answers + PlainAnswer(m, ops[i]))
  {
    assert ops[..i + 1][..i] == ops[..i];
  }

  /**
   What an operation `op` makes of a map with `keys` keys, unless it is refused, which takes more keys
   than fit half of `SIZE_MAX`.
   */
  ghost predicate Performed<V>(p: Policy, m: map<string, V>, keys: nat, op: Op<V>,
                               m': map<string, V>, keys': nat, answer: seq<Option<V>>, refused: bool) {
    if refused then Crowded(p, keys + 1)
    else m' == PlainStep(m, op) && keys' <= keys + 1 && answer == PlainAnswer(m, op)
  }

  /** A store that says whether it was dropped. */
  method PerformStore<V>(table: Table<V>, name: string, value: V) returns (refused: bool)
    requires table.Valid()
    modifies table, table.entries
    ensures table.Valid() && (table.entries == old(table.entries) || fresh(table.entries))
    ensures Performed(table.policy, old(table.contents), old(table.count), Op.Store(name, value),
                      table.contents, table.count, [], refused)
  {
    var slots := if table.entries == null then table.policy.initial else table.capacity;
    refused := Overloaded(table.policy, table.count, slots) && slots > SIZE_MAX / 2;
    if refused {
      CrowdedWhenRefused(table.policy, table.count, slots, table.count + 1);
    }
    table.Store(name, value);
  }

  method PerformRemove<V>(table: Table<V>, name: string)
    requires table.Valid()
    modifies table, table.entries
    ensures table.Valid() && table.entries == old(table.entries)
    ensures Performed(table.policy, old(table.contents), old(table.count), Op.Remove(name),
                      table.contents, table.count, [], false)
  {
    table.Remove(name);
  }

  method PerformClear<V>(table: Table<V>)
    requires table.Valid()
    modifies table, table.entries
    ensures table.Valid() && table.entries == old(table.entries)
    ensures Performed(table.policy, old(table.contents), old(table.count), Op.Clear,
                      table.contents, table.count, [], false)
  {
    table.Clear();
  }

  method PerformLookup<V>(table: Table<V>, name: string) returns (answer: seq<Option<V>>)
    requires table.Valid()
    ensures Performed(table.policy, table.contents, table.count, Op.Lookup(name),
                      table.contents, table.count, answer, false)
  {
    var found := table.Lookup(name);
    answer := [found];
  }

  /** A copy in a new table. */
  method PerformClone<V>(table: Table<V>) returns (after: Table<V>, refused: bool)
    requires table.Valid()
    ensures fresh(after) && after.Valid() && after.policy == table.policy
    ensures after.entries == null || fresh(after.entries)
    ensures Performed(table.policy, table.contents, table.count, Op.Clone,
                      after.contents, after.count, [], refused)
  {
    after := new Table<V>(table.hash, table.policy);
    var ok := after.CloneFrom(table);
    refused := !ok;
    if refused {
      CrowdedByMore(table.policy, table.count, table.count + 1);
    }
  }

  /** One operation of a history; cloning continues with the copy. */
  method Perform<V>(table: Table<V>, op: Op<V>) returns (after: Table<V>, answer: seq<Option<V>>, refused: bool)
    requires table.Valid()
    modifies table, table.entries
    ensures after.Valid() && after.policy == table.policy && (after == table || fresh(after))
    ensures after.entries == null || after.entries == old(table.entries) || fresh(after.entries)
    ensures Performed(table.policy, old(table.contents), old(table.count), op,
                      after.contents, after.count, answer, refused)
  {
    after, answer, refused := table, [], false;
    match op {
      case Store(name, value) =>
        refused := PerformStore(table, name, value);
      case Remove(name) =>
        PerformRemove(table, name);
      case Clear =>
        PerformClear(table);
      case Clone =>
        after, refused := PerformClone(table);
      case Lookup(name) =>
        answer := PerformLookup(table, name);
    }
  }

  /** Performing operation `i` replays one more operation. */
  lemma ReplayedPerformed<V>(p: Policy, ops: seq<Op<V>>, i: nat, m: map<string, V>, keys: nat, answers: seq<Option<V>>,
                             m': map<string, V>, keys': nat, answer: seq<Option<V>>, refused: bool)
    requires i < |ops| && keys <= i && Replayed(ops, i, m, answers)
    requires Performed(p, m, keys, ops[i], m', keys', answer, refused)
    ensures !refused ==> Replayed(ops, i + 1, m', answers + answer) && keys' <= i + 1
    ensures refused ==> Crowded(p, |ops|)
  {
    ReplayedNext(ops, i, m, answers);
    if refused {
      CrowdedByMore(p, keys + 1, |ops|);
    }
  }

  /** Operation `i` of a history. */
  method ReplayOne<V>(table: Table<V>, ops: seq<Op<V>>, i: nat, answers: seq<Option<V>>)
    returns (after: Table<V>, answers': seq<Option<V>>, refused: bool)
    requires table.Valid() && i < |ops| && Replayed(ops, i, table.contents, answers) && table.count <= i
    modifies table, table.entries
    ensures after.Valid() && after.policy == table.policy && (after == table || fresh(after))
    ensures after.entries == null || after.entries == old(table.entries) || fresh(after.entries)
    ensures !refused ==> Replayed(ops, i + 1, after.contents, answers') && after.count <= i + 1
    ensures refused ==> Crowded(table.policy, |ops|)
  {
    ghost var m, keys := table.contents, table.count;
    var answer;
    after, answer, refused := Perform(table, ops[i]);
    answers' := answers + answer;
    ReplayedPerformed(table.policy, ops, i, m, keys, answers, after.contents, after.count, answer, refused);
  }

  /**
   Every history of stores, overwrites, removals, clears, clones and lookups gets the answers of a
   plain finite map, for any hash function, first capacity and load factor.  A history can only be cut
   short by a doubling beyond
   `size_t`, which takes more operations than a 64-bit machine has bytes to hold the keys.
   */
  method Replay<V>(hash: Hash, policy: Policy, ops: seq<Op<V>>) returns (answers: seq<Option<V>>, refused: bool)
    requires policy.Sound()
    ensures !refused ==> answers == PlainAnswers(ops)
    ensures refused ==> Crowded(policy, |ops|)
  {
    var table: Table<V> := new Table<V>(hash, policy);
    answers, refused := [], false;
    for i := 0 to |ops|
      invariant fresh(table) && table.Valid() && table.policy == policy
      invariant table.entries == null || fresh(table.entries)
      invariant Replayed(ops, i, table.contents, answers) && table.count <= i
    {
      table, answers, refused := ReplayOne(table, ops, i, answers);
      if refused {
        return;
      }
    }
    assert ops[..|ops|] == ops;
  }
}
