/**
 Whole runs of a population: agents join and leave, all live agents are run together, and the
 population is checkpointed and rolled back through snapshots, which hold no agent ids.
 */
module AgentHistories {
  import opened Common
  import opened Bytes
  import opened Bulk
  import opened StateStore

  /** A run feeds each live agent its own row of inputs. */
  datatype Op =
    | Join(id: nat)
    | Leave(id: nat)
    | Run(feed: nat -> seq<Value>, params: seq<Value>)
    | Checkpoint
    | Rollback

  // ----- ids in order -----

  ghost function Greatest(s: set<nat>): (x: nat)
    requires s != {}
    ensures x in s && forall y | y in s :: y <= x
    decreases |s|
  {
    var y :| y in s;
    if s == {y} then y
    else
      var rest := s - {y};
      assert s == rest + {y};
      var z := Greatest(rest);
      if y < z then z else y
  }

  ghost function InOrder(s: set<nat>): (ids: seq<nat>)
    ensures Ascending(ids) && forall x :: x in ids <==> x in s
    decreases |s|
  {
    if s == {} then []
    else
      var x := Greatest(s);
      InOrder(s - {x}) + [x]
  }

  ghost function Count(s: set<nat>): nat { |InOrder(s)| }

  /** The ids of `s` that are smaller than `id`. */
  ghost function Smaller(s: set<nat>, id: nat): set<nat> {
    set x | x in s && x < id
  }

  ghost function Firsts(ids: seq<nat>, n: nat): set<nat>
    requires n <= |ids|
  {
    set i | 0 <= i < n :: ids[i]
  }

  lemma {:induction false} FirstsCounted(ids: seq<nat>, n: nat)
    requires Ascending(ids) && n <= |ids|
    ensures |Firsts(ids, n)| == n
  {
    if n > 0 {
      FirstsCounted(ids, n - 1);
      assert Firsts(ids, n) == Firsts(ids, n - 1) + {ids[n - 1]};
      assert ids[n - 1] !in Firsts(ids, n - 1);
    }
  }

  /** The rank of an id is the number of smaller ids. */
  lemma RankCounts(s: set<nat>, id: nat)
    requires id in s
    ensures Rank(InOrder(s), id) == |Smaller(s, id)|
  {
    var ids := InOrder(s);
    var r := Rank(ids, id);
    FirstsCounted(ids, r);
    forall x | x in Smaller(s, id) ensures x in Firsts(ids, r) {
      assert x in ids && ids[Rank(ids, x)] == x;
    }
    forall x | x in Firsts(ids, r) ensures x in Smaller(s, id) {
      var i :| 0 <= i < r && ids[i] == x;
      assert ids[i] in ids;
    }
    assert Smaller(s, id) == Firsts(ids, r);
  }

  lemma RankUnique(ids: seq<nat>, i: nat)
    requires Ascending(ids) && i < |ids|
    ensures Rank(ids, ids[i]) == i
  {
  }

  // ----- handing saved blocks out -----

  /** The saved id of the same rank. */
  ghost function Counterpart(live: set<nat>, saved: set<nat>, id: nat): (other: nat)
    requires Count(live) == Count(saved) && id in live
    ensures other in saved
  {
    assert InOrder(saved)[Rank(InOrder(live), id)] in InOrder(saved);
    InOrder(saved)[Rank(InOrder(live), id)]
  }

  /**
   A snapshot holds no ids, so a rollback hands what was saved out by rank: the agent with the
   i-th smallest id gets what the agent with the i-th smallest id had.
   */
  ghost function Dealt<T>(live: set<nat>, saved: map<nat, T>): (m: map<nat, T>)
    requires Count(live) == Count(saved.Keys)
    ensures m.Keys == live
  {
    map id | id in live :: saved[Counterpart(live, saved.Keys, id)]
  }

  /** An agent is its own counterpart exactly when as many smaller ids are live as were saved. */
  lemma CounterpartIsSelf(live: set<nat>, saved: set<nat>, id: nat)
    requires Count(live) == Count(saved) && id in live && id in saved
    ensures Counterpart(live, saved, id) == id <==> |Smaller(live, id)| == |Smaller(saved, id)|
  {
    RankCounts(live, id);
    RankCounts(saved, id);
    var r := Rank(InOrder(live), id);
    RankUnique(InOrder(saved), r);
  }

  /**
   An agent that was saved and is live gets its own state back, whatever was saved, if and only if as
   many agents with smaller ids are live now as were then.
   */
  lemma RollbackRestoresAgentExactly(live: set<nat>, earlier: set<nat>, id: nat, size: nat)
    requires Count(live) == Count(earlier) && id in live && id in earlier && size > 0
    ensures (forall saved: map<nat, seq<Byte>> | saved.Keys == earlier && AllOfSize(saved, size) ::
               Dealt(live, saved)[id] == saved[id])
            <==> |Smaller(live, id)| == |Smaller(earlier, id)|
  {
    CounterpartIsSelf(live, earlier, id);
    var other := Counterpart(live, earlier, id);
    if other != id {
      var saved := Marked(earlier, id, size);
      assert Zeros(size)[0] != Ones(size)[0];
      DealtAt(live, saved, id);
    } else {
      forall saved: map<nat, seq<Byte>> | saved.Keys == earlier && AllOfSize(saved, size)
        ensures Dealt(live, saved)[id] == saved[id]
      {
        DealtAt(live, saved, id);
      }
    }
  }

  /** Saved blocks of which only that of `id` is zero. */
  ghost function Marked(ids: set<nat>, id: nat, size: nat): (m: map<nat, seq<Byte>>)
    ensures m.Keys == ids && AllOfSize(m, size)
    ensures forall x | x in ids :: m[x] == if x == id then Zeros(size) else Ones(size)
  {
    map x | x in ids :: if x == id then Zeros(size) else Ones(size)
  }

  ghost predicate AllOfSize(m: map<nat, seq<Byte>>, size: nat) {
    forall x | x in m :: |m[x]| == size
  }

  function Ones(n: nat): (z: seq<Byte>)
    ensures |z| == n
  {
    seq(n, _ => 1)
  }

  lemma Alone(id: nat)
    ensures InOrder({id}) == [id]
  {
    var s := {id};
    assert s - {Greatest(s)} == {};
    assert InOrder(s) == InOrder({}) + [Greatest(s)];
  }

  /** Of two lone agents, each is the other's counterpart. */
  lemma TwoAlone(gone: nat, newcomer: nat)
    ensures Count({newcomer}) == Count({gone}) && Counterpart({newcomer}, {gone}, newcomer) == gone
  {
    Alone(gone);
    Alone(newcomer);
  }

  /** One agent leaving and another arriving since the checkpoint: the newcomer gets the old state. */
  lemma NewcomerTakesSavedState<T>(saved: map<nat, T>, b: T, gone: nat, newcomer: nat)
    requires saved == map[gone := b]
    ensures Count({newcomer}) == Count(saved.Keys)
    ensures Dealt({newcomer}, saved) == map[newcomer := b]
  {
    assert saved.Keys == {gone};
    TwoAlone(gone, newcomer);
    DealtAt({newcomer}, saved, newcomer);
    SameMaps({newcomer}, Dealt({newcomer}, saved), map[newcomer := b]);
  }

  // ----- what each operation does -----

  /** What is kept for each live agent, and for each agent of the last checkpoint. */
  datatype World<T> = World(live: map<nat, T>, saved: Option<map<nat, T>>)

  /** What a new agent starts from and what a run does to it. */
  datatype Kind<!T> = Kind(start: T, step: (T, seq<Value>, seq<Value>) -> T)

  ghost predicate CanReturn<T>(w: World<T>) {
    w.saved.Some? && Count(w.saved.value.Keys) == Count(w.live.Keys)
  }

  ghost function Ran<T>(kind: Kind<T>, live: map<nat, T>, feed: nat -> seq<Value>, params: seq<Value>): map<nat, T> {
    map id | id in live :: kind.step(live[id], feed(id), params)
  }

  ghost function Apply<T>(kind: Kind<T>, w: World<T>, op: Op, ok: bool): World<T> {
    if !ok then w
    else match op
      case Join(id) => w.(live := w.live[id := kind.start])
      case Leave(id) => w.(live := w.live - {id})
      case Run(feed, params) => w.(live := Ran(kind, w.live, feed, params))
      case Checkpoint => w.(saved := Some(w.live))
      case Rollback => if CanReturn(w) then w.(live := Dealt(w.live.Keys, w.saved.value)) else w
  }

  /** After a trace: operations and whether each succeeded. */
  ghost function After<T>(kind: Kind<T>, ops: seq<Op>, oks: seq<bool>): World<T>
    requires |ops| == |oks|
    decreases |ops|
  {
    if ops == [] then World(map[], None)
    else
      var n := |ops| - 1;
      Apply(kind, After(kind, ops[..n], oks[..n]), ops[n], oks[n])
  }

  /** The state bytes of agents. */
  function StateKind(d: Descriptor): Kind<seq<Byte>> {
    Kind(FreshBlock(d), (s: seq<Byte>, row: seq<Value>, params: seq<Value>) => d.tick(s, row, params).0)
  }

  /** The inputs of one run. */
  datatype Tick = Tick(row: seq<Value>, params: seq<Value>)

  /**
   The runs each agent's state stems from: its own since it was added, or those of the agent it was
   rolled back to.
   */
  function Histories(): Kind<seq<Tick>> {
    Kind([], (h: seq<Tick>, row: seq<Value>, params: seq<Value>) => h + [Tick(row, params)])
  }

  // ----- states are histories, run through the model -----

  /** The fold of the model's tick over a history. */
  ghost function Grown(d: Descriptor, h: seq<Tick>): seq<Byte> {
    if h == [] then FreshBlock(d)
    else
      var n := |h| - 1;
      d.tick(Grown(d, h[..n]), h[n].row, h[n].params).0
  }

  ghost function AllGrown(d: Descriptor, hs: map<nat, seq<Tick>>): (m: map<nat, seq<Byte>>)
    ensures m.Keys == hs.Keys
  {
    map id | id in hs :: Grown(d, hs[id])
  }

  ghost predicate Grows(d: Descriptor, h: World<seq<Tick>>, w: World<seq<Byte>>) {
    && w.live == AllGrown(d, h.live)
    && (w.saved.Some? <==> h.saved.Some?)
    && (w.saved.Some? ==> w.saved.value == AllGrown(d, h.saved.value))
  }

  lemma DealtGrows(d: Descriptor, live: set<nat>, saved: map<nat, seq<Tick>>)
    requires Count(live) == Count(saved.Keys)
    ensures Dealt(live, AllGrown(d, saved)) == AllGrown(d, Dealt(live, saved))
  {
    forall id | id in live ensures Dealt(live, AllGrown(d, saved))[id] == AllGrown(d, Dealt(live, saved))[id] {
      DealtGrownAt(d, live, saved, id);
    }
    SameMaps(live, Dealt(live, AllGrown(d, saved)), AllGrown(d, Dealt(live, saved)));
  }

  lemma SameMaps<T>(ids: set<nat>, l: map<nat, T>, r: map<nat, T>)
    requires l.Keys == ids && r.Keys == ids && forall id | id in ids :: l[id] == r[id]
    ensures l == r
  {
  }

  lemma DealtGrownAt(d: Descriptor, live: set<nat>, saved: map<nat, seq<Tick>>, id: nat)
    requires Count(live) == Count(saved.Keys) && id in live
    ensures Dealt(live, AllGrown(d, saved))[id] == Grown(d, Dealt(live, saved)[id])
  {
    DealtAt(live, AllGrown(d, saved), id);
    DealtAt(live, saved, id);
  }

  lemma DealtAt<T>(live: set<nat>, saved: map<nat, T>, id: nat)
    requires Count(live) == Count(saved.Keys) && id in live
    ensures Dealt(live, saved)[id] == saved[Counterpart(live, saved.Keys, id)]
  {
  }

  lemma RanGrows(d: Descriptor, hs: map<nat, seq<Tick>>, feed: nat -> seq<Value>, params: seq<Value>)
    ensures Ran(StateKind(d), AllGrown(d, hs), feed, params) == AllGrown(d, Ran(Histories(), hs, feed, params))
  {
    var l, r := Ran(StateKind(d), AllGrown(d, hs), feed, params), AllGrown(d, Ran(Histories(), hs, feed, params));
    forall id | id in hs ensures l[id] == r[id] {
      GrownOnce(d, hs[id], Tick(feed(id), params));
    }
    assert l == r;
  }

  lemma GrownOnce(d: Descriptor, h: seq<Tick>, tick: Tick)
    ensures Grown(d, h + [tick]) == d.tick(Grown(d, h), tick.row, tick.params).0
  {
    assert (h + [tick])[..|h|] == h;
  }

  lemma StepGrows(d: Descriptor, h: World<seq<Tick>>, w: World<seq<Byte>>, op: Op, ok: bool)
    requires Grows(d, h, w)
    ensures Grows(d, Apply(Histories(), h, op, ok), Apply(StateKind(d), w, op, ok))
  {
    if ok {
      match op
      case Join(id) => assert AllGrown(d, h.live[id := []]) == AllGrown(d, h.live)[id := FreshBlock(d)];
      case Leave(id) => assert AllGrown(d, h.live - {id}) == AllGrown(d, h.live) - {id};
      case Run(feed, params) => RanGrows(d, h.live, feed, params);
      case Checkpoint =>
      case Rollback =>
        if CanReturn(h) {
          DealtGrows(d, h.live.Keys, h.saved.value);
        }
    }
  }

  /**
   After every trace of arrivals, departures, runs, checkpoints and rollbacks, the state of each agent
   is the fold of tick over its history.
   */
  lemma {:induction false} StateIsHistory(d: Descriptor, ops: seq<Op>, oks: seq<bool>)
    requires |ops| == |oks|
    ensures Grows(d, After(Histories(), ops, oks), After(StateKind(d), ops, oks))
    decreases |ops|
  {
    if ops != [] {
      var n := |ops| - 1;
      StateIsHistory(d, ops[..n], oks[..n]);
      StepGrows(d, After(Histories(), ops[..n], oks[..n]), After(StateKind(d), ops[..n], oks[..n]), ops[n], oks[n]);
    }
  }

  // ----- one agent's own history -----

  /** What an operation means to one agent. */
  datatype Deed = Arrive | Depart | Step(tick: Tick) | Keep | Return

  function DeedOf(id: nat, op: Op, ok: bool): Option<Deed> {
    if !ok then None
    else match op
      case Join(x) => if x == id then Some(Arrive) else None
      case Leave(x) => if x == id then Some(Depart) else None
      case Run(feed, params) => Some(Step(Tick(feed(id), params)))
      case Checkpoint => Some(Keep)
      case Rollback => Some(Return)
  }

  function Deeds(id: nat, ops: seq<Op>, oks: seq<bool>): seq<Deed>
    requires |ops| == |oks|
  {
    if ops == [] then []
    else
      var n := |ops| - 1;
      var front, deed := Deeds(id, ops[..n], oks[..n]), DeedOf(id, ops[n], oks[n]);
      if deed.Some? then front + [deed.value] else front
  }

  /** The runs since an agent arrived, now and as of the last checkpoint; none while it is not live. */
  datatype Life = Life(now: Option<seq<Tick>>, kept: Option<seq<Tick>>)

  function Lived(life: Life, deed: Deed): Life {
    match deed
    case Arrive => life.(now := Some([]))
    case Depart => life.(now := None)
    case Step(tick) => if life.now.Some? then life.(now := Some(life.now.value + [tick])) else life
    case Keep => life.(kept := life.now)
    case Return => life.(now := life.kept)
  }

  function LifeOf(deeds: seq<Deed>): Life {
    if deeds == [] then Life(None, None) else Lived(LifeOf(deeds[..|deeds| - 1]), deeds[|deeds| - 1])
  }

  /** A rollback finds the agent in its old place: as many smaller ids, or absent both times. */
  ghost predicate InPlace<T>(w: World<T>, id: nat) {
    && CanReturn(w) && (id in w.live <==> id in w.saved.value)
    && (id in w.live ==> |Smaller(w.live.Keys, id)| == |Smaller(w.saved.value.Keys, id)|)
  }

  /** Every rollback of a trace finds the agent in its old place. */
  ghost predicate KeepsPlace(ops: seq<Op>, oks: seq<bool>, id: nat)
    requires |ops| == |oks|
  {
    forall n | 0 <= n < |ops| && ops[n].Rollback? && oks[n] :: InPlace(After(Histories(), ops[..n], oks[..n]), id)
  }

  ghost predicate HasLife(m: map<nat, seq<Tick>>, id: nat, ticks: Option<seq<Tick>>) {
    (id in m <==> ticks.Some?) && (id in m ==> m[id] == ticks.value)
  }

  ghost predicate Lives(w: World<seq<Tick>>, id: nat, life: Life) {
    HasLife(w.live, id, life.now) && (if w.saved.Some? then HasLife(w.saved.value, id, life.kept) else life.kept.None?)
  }

  lemma ReturnLives(w: World<seq<Tick>>, id: nat, life: Life)
    requires Lives(w, id, life) && InPlace(w, id)
    ensures Lives(w.(live := Dealt(w.live.Keys, w.saved.value)), id, Lived(life, Return))
  {
    if id in w.live {
      CounterpartIsSelf(w.live.Keys, w.saved.value.Keys, id);
    }
  }

  lemma RunLives(w: World<seq<Tick>>, feed: nat -> seq<Value>, params: seq<Value>, id: nat, life: Life)
    requires Lives(w, id, life)
    ensures Lives(w.(live := Ran(Histories(), w.live, feed, params)), id, Lived(life, Step(Tick(feed(id), params))))
  {
    var live := Ran(Histories(), w.live, feed, params);
    assert id in live <==> id in w.live;
    assert id in live ==> live[id] == w.live[id] + [Tick(feed(id), params)];
  }

  lemma JoinLives(w: World<seq<Tick>>, x: nat, id: nat, life: Life)
    requires Lives(w, id, life)
    ensures Lives(w.(live := w.live[x := []]), id, if x == id then Lived(life, Arrive) else life)
  {
  }

  lemma LeaveLives(w: World<seq<Tick>>, x: nat, id: nat, life: Life)
    requires Lives(w, id, life)
    ensures Lives(w.(live := w.live - {x}), id, if x == id then Lived(life, Depart) else life)
  {
  }

  lemma StepLives(w: World<seq<Tick>>, op: Op, ok: bool, id: nat, life: Life)
    requires Lives(w, id, life) && (op.Rollback? && ok ==> InPlace(w, id))
    ensures var deed := DeedOf(id, op, ok);
            Lives(Apply(Histories(), w, op, ok), id, if deed.Some? then Lived(life, deed.value) else life)
  {
    if ok {
      match op
      case Join(x) => JoinLives(w, x, id, life);
      case Leave(x) => LeaveLives(w, x, id, life);
      case Run(feed, params) => RunLives(w, feed, params, id, life);
      case Checkpoint =>
      case Rollback => ReturnLives(w, id, life);
    }
  }

  /** An agent that keeps its place at every rollback has the history of its own deeds. */
  lemma {:induction false} HistoryIsOwn(ops: seq<Op>, oks: seq<bool>, id: nat)
    requires |ops| == |oks| && KeepsPlace(ops, oks, id)
    ensures Lives(After(Histories(), ops, oks), id, LifeOf(Deeds(id, ops, oks)))
    decreases |ops|
  {
    if ops != [] {
      var n := |ops| - 1;
      forall i | 0 <= i < n ensures ops[..n][i] == ops[i] && ops[..n][..i] == ops[..i] && oks[..n][..i] == oks[..i] {
      }
      HistoryIsOwn(ops[..n], oks[..n], id);
      var front, deed := Deeds(id, ops[..n], oks[..n]), DeedOf(id, ops[n], oks[n]);
      if deed.Some? {
        assert (front + [deed.value])[..|front|] == front;
      }
      StepLives(After(Histories(), ops[..n], oks[..n]), ops[n], oks[n], id, LifeOf(front));
    }
  }

  /** Then other agents never matter: equal deeds give equal states. */
  lemma OthersDoNotMatter(d: Descriptor, ops: seq<Op>, oks: seq<bool>, ops': seq<Op>, oks': seq<bool>, id: nat)
    requires |ops| == |oks| && KeepsPlace(ops, oks, id) && |ops'| == |oks'| && KeepsPlace(ops', oks', id)
    requires Deeds(id, ops, oks) == Deeds(id, ops', oks')
    ensures var m, m' := After(StateKind(d), ops, oks).live, After(StateKind(d), ops', oks').live;
            (id in m <==> id in m') && (id in m ==> m[id] == m'[id])
  {
    HistoryIsOwn(ops, oks, id);
    HistoryIsOwn(ops', oks', id);
    StateIsHistory(d, ops, oks);
    StateIsHistory(d, ops', oks');
  }
}
