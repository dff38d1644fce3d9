/** Which parameter each argument of a call reaches (src/call/args.c, and `within` in src/registry/defaults.c). */
module CallBinding {
  import opened Common

  const MAX_CALL_ARGS: nat := 32
  const MAX_PARAM_NAMES: nat := 64

  type Tags = seq<Option<string>>

  /** The name an argument was given, if any. */
  function TagAt(tags: Tags, i: nat): Option<string> {
    if i < |tags| then tags[i] else None
  }

  predicate AnyNamed(tags: Tags, argc: nat) {
    exists i :: 0 <= i < argc && TagAt(tags, i).Some?
  }

  /** `cxpr_call_param_name_matches` */
  predicate NameMatches(param: string, name: string) {
    || param == name
    || (param == "value" && name == "condition")
    || (param == "mult" && name == "multiplier")
    || (param == "multiplier" && name == "mult")
    || (param == "samples" && name == "bars")
  }

  /** The first parameter that goes by a name. */
  function ParamPlace(params: seq<string>, name: string): (r: Option<nat>)
    ensures r.None? <==> forall j | 0 <= j < |params| :: !NameMatches(params[j], name)
    ensures r.Some? ==> r.value < |params| && NameMatches(params[r.value], name)
    ensures r.Some? ==> forall j | 0 <= j < r.value :: !NameMatches(params[j], name)
  {
    if params == [] then None
    else if NameMatches(params[0], name) then Some(0)
    else
      var rest := ParamPlace(params[1..], name);
      assert forall j | 1 <= j < |params| :: params[j] == params[1..][j - 1];
      if rest.None? then None else Some(rest.value + 1)
  }

  // ----- placing arguments one by one -----

  /** The argument in each slot, whether a name was seen, and how many arguments came by position. */
  datatype Binding = Binding(slots: seq<Option<nat>>, named: bool, positional: nat) | Refused

  type Places = string -> Option<nat>

  function Empty(room: nat): Binding { Binding(seq(room, _ => None), false, 0) }

  /** Argument `i` goes to the next slot, or to the slot of its name; both must be free. */
  function Place(place: Places, b: Binding, tag: Option<string>, i: nat): (r: Binding)
    ensures r.Binding? ==> b.Binding? && |r.slots| == |b.slots|
  {
    if b.Refused? then Refused
    else match tag
      case None =>
        if b.named || b.positional >= |b.slots| then Refused
        else Binding(b.slots[b.positional := Some(i)], false, b.positional + 1)
      case Some(name) =>
        var p := place(name);
        if p.None? || p.value >= |b.slots| || b.slots[p.value].Some? then Refused
        else Binding(b.slots[p.value := Some(i)], true, b.positional)
  }

  /** The first `n` arguments placed in `room` slots. */
  function Placed(place: Places, room: nat, tags: Tags, n: nat): (b: Binding)
    ensures b.Binding? ==> |b.slots| == room
  {
    if n == 0 then Empty(room) else Place(place, Placed(place, room, tags, n - 1), TagAt(tags, n - 1), n - 1)
  }

  /** Slot `s` holds argument `i`. */
  predicate Fills(slots: seq<Option<nat>>, s: nat, i: nat) {
    s < |slots| && slots[s] == Some(i)
  }

  ghost predicate HasSlot(slots: seq<Option<nat>>, i: nat) {
    exists s: nat :: Fills(slots, s, i)
  }

  /** Where argument `i` belongs: its name's slot, or its own position. */
  predicate Belongs(place: Places, tags: Tags, s: nat, i: nat) {
    match TagAt(tags, i)
    case None => s == i
    case Some(name) => place(name) == Some(s)
  }

  /** Every argument placed is in one slot, where it belongs, and slots hold nothing else. */
  ghost predicate WellPlaced(place: Places, tags: Tags, slots: seq<Option<nat>>, n: nat) {
    && (forall s: nat | s < |slots| && slots[s].Some? :: slots[s].value < n && Belongs(place, tags, s, slots[s].value))
    && (forall i: nat | i < n :: HasSlot(slots, i))
    && (forall s: nat, s': nat | s < s' < |slots| && slots[s].Some? :: slots[s] != slots[s'])
  }

  lemma PlaceStep(place: Places, tags: Tags, b: Binding, n: nat)
    requires b.Binding? && WellPlaced(place, tags, b.slots, n) && (!b.named ==> b.positional == n)
    requires !b.named ==> forall s: nat | n <= s < |b.slots| :: b.slots[s].None?
    ensures var r := Place(place, b, TagAt(tags, n), n);
            r.Binding? ==>
              && WellPlaced(place, tags, r.slots, n + 1) && (!r.named ==> r.positional == n + 1)
              && (!r.named ==> forall s: nat | n + 1 <= s < |r.slots| :: r.slots[s].None?)
  {
    var r := Place(place, b, TagAt(tags, n), n);
    if r.Binding? {
      var at := if TagAt(tags, n).None? then b.positional else place(TagAt(tags, n).value).value;
      assert r.slots == b.slots[at := Some(n)] && b.slots[at].None?;
      forall i: nat | i < n + 1 ensures HasSlot(r.slots, i) {
        if i == n {
          assert Fills(r.slots, at, i);
        } else {
          assert HasSlot(b.slots, i);
          var s: nat :| Fills(b.slots, s, i);
          assert Fills(r.slots, s, i);
        }
      }
    }
  }

  lemma {:induction false} PlacedWell(place: Places, room: nat, tags: Tags, n: nat)
    ensures var b := Placed(place, room, tags, n);
            b.Binding? ==>
              && WellPlaced(place, tags, b.slots, n) && (!b.named ==> b.positional == n)
              && (!b.named ==> forall s: nat | n <= s < |b.slots| :: b.slots[s].None?)
  {
    if n > 0 {
      PlacedWell(place, room, tags, n - 1);
      var b := Placed(place, room, tags, n - 1);
      if b.Binding? {
        PlaceStep(place, tags, b, n - 1);
      }
    }
  }

  /** The binding loop. */
  method PlaceAll(place: Places, room: nat, tags: Tags, argc: nat) returns (b: Binding)
    ensures b == Placed(place, room, tags, argc)
  {
    b := Empty(room);
    for i := 0 to argc
      invariant b == Placed(place, room, tags, i) && b.Binding?
    {
      b := Place(place, b, TagAt(tags, i), i);
      if b.Refused? {
        StaysRefused(place, room, tags, i + 1, argc);
        return;
      }
    }
  }

  lemma {:induction false} StaysRefused(place: Places, room: nat, tags: Tags, i: nat, n: nat)
    requires i <= n && Placed(place, room, tags, i).Refused?
    ensures Placed(place, room, tags, n).Refused?
  {
    if i < n {
      StaysRefused(place, room, tags, i, n - 1);
    }
  }

  // ----- cxpr_call_bind_args -----

  /** The first `argc` slots are all filled. */
  predicate Filled(b: Binding, argc: nat) {
    b.Binding? && argc <= |b.slots| && forall s | 0 <= s < argc :: b.slots[s].Some?
  }

  function WindowPlaces(params: seq<string>, start: nat, argc: nat): Places
    requires start + argc <= |params|
  {
    (name: string) => ParamPlace(params[start..start + argc], name)
  }

  /** `cxpr_call_bind_named_window` from one starting parameter. */
  function Window(params: seq<string>, start: nat, argc: nat, tags: Tags): Option<seq<Option<nat>>>
    requires start + argc <= |params|
  {
    var b := Placed(WindowPlaces(params, start, argc), argc, tags, argc);
    if Filled(b, argc) then Some(b.slots) else None
  }

  /** The first window from `start` on that takes all arguments. */
  function FirstWindow(params: seq<string>, start: nat, argc: nat, tags: Tags): Option<seq<Option<nat>>>
    decreases |params| - start
  {
    if start + argc > |params| then None
    else if Window(params, start, argc, tags).Some? then Window(params, start, argc, tags)
    else if start == |params| then None
    else FirstWindow(params, start + 1, argc, tags)
  }

  function AllPlaces(params: seq<string>): Places {
    (name: string) => ParamPlace(params, name)
  }

  /** The second attempt, over all parameters at once. */
  function Prefixed(params: seq<string>, argc: nat, tags: Tags): Option<seq<Option<nat>>> {
    var b := Placed(AllPlaces(params), |params|, tags, argc);
    if Filled(b, argc) then Some(b.slots[..argc]) else None
  }

  function Identity(n: nat): (slots: seq<Option<nat>>)
    ensures |slots| == n
  {
    seq(n, i => Some(i))
  }

  /** Which argument each of the first `argc` parameters receives. */
  function BindArgs(params: seq<string>, argc: nat, tags: Tags): (r: Option<seq<Option<nat>>>)
    ensures r.Some? ==> |r.value| == argc
  {
    if argc > MAX_CALL_ARGS then None
    else if !AnyNamed(tags, argc) then Some(Identity(argc))
    else if params == [] || |params| > MAX_PARAM_NAMES then None
    else
      var w := FirstWindow(params, 0, argc, tags);
      WindowSize(params, 0, argc, tags);
      if w.Some? then w else Prefixed(params, argc, tags)
  }

  lemma {:induction false} WindowSize(params: seq<string>, start: nat, argc: nat, tags: Tags)
    ensures FirstWindow(params, start, argc, tags).Some? ==> |FirstWindow(params, start, argc, tags).value| == argc
    decreases |params| - start
  {
    if start + argc <= |params| && start < |params| {
      WindowSize(params, start + 1, argc, tags);
    }
  }

  /** The loop over windows. */
  method FindWindow(params: seq<string>, argc: nat, tags: Tags) returns (w: Option<seq<Option<nat>>>)
    ensures w == FirstWindow(params, 0, argc, tags)
  {
    var start := 0;
    while start + argc <= |params|
      invariant start <= |params| + 1
      invariant start <= |params| ==> FirstWindow(params, 0, argc, tags) == FirstWindow(params, start, argc, tags)
      invariant start > |params| ==> FirstWindow(params, 0, argc, tags).None?
      decreases |params| - start
    {
      var b := PlaceAll(WindowPlaces(params, start, argc), argc, tags, argc);
      if Filled(b, argc) {
        return Some(b.slots);
      }
      start := start + 1;
    }
    w := None;
  }

  /**
   `cxpr_call_bind_args`: with names, some window of parameters or all parameters take the arguments, each
   in one place, where its name or its position puts it.
   */
  method Bind(params: seq<string>, argc: nat, tags: Tags) returns (r: Option<seq<Option<nat>>>)
    ensures r == BindArgs(params, argc, tags)
    ensures r.Some? ==> IsArrangement(r.value, argc)
  {
    BindArgsArranges(params, argc, tags);
    if argc > MAX_CALL_ARGS {
      return None;
    }
    if !AnyNamed(tags, argc) {
      return Some(Identity(argc));
    }
    if params == [] || |params| > MAX_PARAM_NAMES {
      return None;
    }
    r := FindWindow(params, argc, tags);
    if r.None? {
      var b := PlaceAll(AllPlaces(params), |params|, tags, argc);
      r := if Filled(b, argc) then Some(b.slots[..argc]) else None;
    }
  }

  // ----- what binding achieves -----

  /** Every slot holds an argument, and every argument is in one slot. */
  ghost predicate IsArrangement(slots: seq<Option<nat>>, argc: nat) {
    && |slots| == argc && (forall s | 0 <= s < |slots| :: slots[s].Some? && slots[s].value < argc)
    && Distinct(slots)
  }

  lemma {:induction false} WindowArranges(params: seq<string>, start: nat, argc: nat, tags: Tags)
    ensures var w := FirstWindow(params, start, argc, tags); w.Some? ==> IsArrangement(w.value, argc)
    decreases |params| - start
  {
    if start + argc <= |params| {
      PlacedWell(WindowPlaces(params, start, argc), argc, tags, argc);
      if start < |params| {
        WindowArranges(params, start + 1, argc, tags);
      }
    }
  }

  /** A bound call hands every argument to exactly one parameter. */
  lemma BindArgsArranges(params: seq<string>, argc: nat, tags: Tags)
    ensures var r := BindArgs(params, argc, tags); r.Some? ==> IsArrangement(r.value, argc)
  {
    WindowArranges(params, 0, argc, tags);
    PlacedWell(AllPlaces(params), |params|, tags, argc);
  }

  /** Without names the arguments keep their places; a call has at most 32, and named ones at most 64 parameters. */
  lemma UnnamedKeepPlaces(params: seq<string>, argc: nat, tags: Tags)
    ensures argc <= 32 && !AnyNamed(tags, argc) ==> BindArgs(params, argc, tags) == Some(Identity(argc))
    ensures argc > 32 || (AnyNamed(tags, argc) && (params == [] || |params| > 64)) ==>
              BindArgs(params, argc, tags).None?
  {
  }

  /** Parameters that go by a second name. */
  ghost const ALIASES: set<(string, string)> := {
    ("value", "condition"), ("samples", "bars"), ("mult", "multiplier"), ("multiplier", "mult")}

  /** A lone argument reaches a lone parameter by its name or by an alias, and by nothing else. */
  lemma AliasesExactly(param: string, name: string)
    ensures BindArgs([param], 1, [Some(name)])
         == if name == param || (param, name) in ALIASES then Some([Some(0)]) else None
  {
    var params, tags: Tags := [param], [Some(name)];
    assert TagAt(tags, 0) == Some(name) && AnyNamed(tags, 1);
    assert params[0..0 + 1] == params;
    assert ParamPlace(params, name) == if NameMatches(param, name) then Some(0) else None;
    var place := WindowPlaces(params, 0, 1);
    var b := Placed(place, 1, tags, 1);
    assert Placed(place, 1, tags, 0) == Empty(1);
    if NameMatches(param, name) {
      assert b == Binding([Some(0)], true, 0);
      assert Window(params, 0, 1, tags) == Some([Some(0)]);
    } else {
      assert b == Refused;
      assert Window(params, 0, 1, tags).None? && FirstWindow(params, 1, 1, tags).None?;
      SecondAttemptFails(params, 1, tags);
    }
  }

  // ----- the second attempt never helps -----

  ghost function Below(n: nat): (r: set<nat>)
    ensures |r| == n && forall i: nat :: i in r <==> i < n
  {
    if n == 0 then {} else Below(n - 1) + {n - 1}
  }

  ghost function Taken(slots: seq<Option<nat>>, n: nat): set<nat>
    requires n <= |slots|
  {
    set s | 0 <= s < n && slots[s].Some? :: slots[s].value
  }

  lemma {:induction false} TakenCounted(slots: seq<Option<nat>>, n: nat)
    requires n <= |slots| && (forall s | 0 <= s < n :: slots[s].Some?)
    requires forall s: nat, s': nat | s < s' < |slots| && slots[s].Some? :: slots[s] != slots[s']
    ensures |Taken(slots, n)| == n
  {
    if n > 0 {
      TakenCounted(slots, n - 1);
      TakenNext(slots, n - 1);
      BeyondIsNew(slots, n - 1, n - 1);
    }
  }

  lemma TakenNext(slots: seq<Option<nat>>, n: nat)
    requires n < |slots| && slots[n].Some?
    ensures Taken(slots, n + 1) == Taken(slots, n) + {slots[n].value}
  {
  }

  /** If the first `argc` slots hold all `argc` arguments, no other slot holds any. */
  lemma NothingBeyond(place: Places, tags: Tags, slots: seq<Option<nat>>, argc: nat, s: nat)
    requires WellPlaced(place, tags, slots, argc) && argc <= s < |slots|
    requires forall s | 0 <= s < argc :: slots[s].Some?
    ensures slots[s].None?
  {
    TakenCounted(slots, argc);
    assert Taken(slots, argc) <= Below(argc);
    SameSize(Taken(slots, argc), Below(argc));
    if slots[s].Some? {
      BeyondIsNew(slots, argc, s);
    }
  }

  lemma BeyondIsNew(slots: seq<Option<nat>>, n: nat, s: nat)
    requires n <= s < |slots| && slots[s].Some?
    requires forall s: nat, s': nat | s < s' < |slots| && slots[s].Some? :: slots[s] != slots[s']
    ensures slots[s].value !in Taken(slots, n)
  {
  }

  lemma SameSize(xs: set<nat>, ys: set<nat>)
    requires xs <= ys && |xs| == |ys|
    ensures xs == ys
  {
    if y :| y in ys && y !in xs {
      CardinalityMonotone(xs, ys - {y});
    }
  }

  /** Slots only ever gain arguments. */
  lemma {:induction false} SlotsGrow(place: Places, room: nat, tags: Tags, m: nat, n: nat, s: nat)
    requires m <= n && s < room && Placed(place, room, tags, n).Binding?
    ensures Placed(place, room, tags, m).Binding?
    ensures Placed(place, room, tags, m).slots[s].Some? ==> Placed(place, room, tags, n).slots[s].Some?
  {
    if m < n {
      SlotsGrow(place, room, tags, m, n - 1, s);
    }
  }

  /** While only the first `argc` slots are used, placing among all parameters is placing in the first window. */
  lemma {:induction false} FirstWindowFollows(params: seq<string>, argc: nat, tags: Tags, n: nat)
    requires argc <= |params| && Placed(AllPlaces(params), |params|, tags, n).Binding?
    requires forall s: nat | argc <= s < |params| :: Placed(AllPlaces(params), |params|, tags, n).slots[s].None?
    ensures var all := Placed(AllPlaces(params), |params|, tags, n);
            Placed(WindowPlaces(params, 0, argc), argc, tags, n)
            == Binding(all.slots[..argc], all.named, all.positional)
  {
    if n == 0 {
      assert Empty(|params|).slots[..argc] == Empty(argc).slots;
    } else {
      var before := Placed(AllPlaces(params), |params|, tags, n - 1);
      forall s: nat | argc <= s < |params| ensures before.slots[s].None? {
        SlotsGrow(AllPlaces(params), |params|, tags, n - 1, n, s);
      }
      FirstWindowFollows(params, argc, tags, n - 1);
      FollowStep(params, argc, before, TagAt(tags, n - 1), n - 1);
    }
  }

  lemma FollowStep(params: seq<string>, argc: nat, b: Binding, tag: Option<string>, i: nat)
    requires argc <= |params| && b.Binding? && |b.slots| == |params| && Place(AllPlaces(params), b, tag, i).Binding?
    requires forall s: nat | argc <= s < |params| :: Place(AllPlaces(params), b, tag, i).slots[s].None?
    ensures var all := Place(AllPlaces(params), b, tag, i);
            Place(WindowPlaces(params, 0, argc), Binding(b.slots[..argc], b.named, b.positional), tag, i)
            == Binding(all.slots[..argc], all.named, all.positional)
  {
    var all := Place(AllPlaces(params), b, tag, i);
    if tag.Some? {
      var p := ParamPlace(params, tag.value).value;
      assert p < argc by {
        assert all.slots[p] == Some(i);
      }
      PlaceInFront(params, argc, tag.value, p);
    } else {
      assert all.slots[b.positional] == Some(i);
    }
  }

  lemma PlaceInFront(params: seq<string>, argc: nat, name: string, p: nat)
    requires p < argc <= |params| && ParamPlace(params, name) == Some(p)
    ensures ParamPlace(params[0..0 + argc], name) == Some(p)
  {
    var front := params[0..0 + argc];
    forall j | 0 <= j < p ensures !NameMatches(front[j], name) {
      assert front[j] == params[j];
    }
    PlaceIs(front, name, p);
  }

  lemma PlaceIs(params: seq<string>, name: string, p: nat)
    requires p < |params| && NameMatches(params[p], name) && forall j | 0 <= j < p :: !NameMatches(params[j], name)
    ensures ParamPlace(params, name) == Some(p)
  {
  }

  /** What the attempt over all parameters takes, the first window takes. */
  lemma PrefixedIsWindow(params: seq<string>, argc: nat, tags: Tags)
    requires Prefixed(params, argc, tags).Some?
    ensures argc <= |params| && Window(params, 0, argc, tags) == Prefixed(params, argc, tags)
  {
    var b := Placed(AllPlaces(params), |params|, tags, argc);
    PlacedWell(AllPlaces(params), |params|, tags, argc);
    forall s: nat | argc <= s < |params| ensures b.slots[s].None? {
      NothingBeyond(AllPlaces(params), tags, b.slots, argc, s);
    }
    FirstWindowFollows(params, argc, tags, argc);
  }

  /** So when no window takes the arguments, that attempt fails too. */
  lemma SecondAttemptFails(params: seq<string>, argc: nat, tags: Tags)
    requires FirstWindow(params, 0, argc, tags).None?
    ensures Prefixed(params, argc, tags).None?
  {
    if Prefixed(params, argc, tags).Some? {
      PrefixedIsWindow(params, argc, tags);
    }
  }

  // ----- within -----

  /** `cxpr_within_param_index` */
  function WithinPlace(name: string): Option<nat> {
    if name == "source" || name == "value" then Some(0)
    else if name == "min" || name == "lo" then Some(1)
    else if name == "max" || name == "hi" then Some(2)
    else if name == "include_min" then Some(3)
    else if name == "include_max" then Some(4)
    else None
  }

  /** The slots of `within` up to the last one filled; a flag that is not given is left open. */
  function BindWithin(argc: nat, tags: Tags): (r: Option<seq<Option<nat>>>)
    ensures r.Some? ==> 3 <= |r.value| <= 5
  {
    var b := Placed(WithinPlace, 5, tags, argc);
    if !(3 <= argc <= 5) || !Filled(b, 3) then None
    else if b.slots[4].Some? then Some(b.slots)
    else if b.slots[3].Some? then Some(b.slots[..4])
    else Some(b.slots[..3])
  }

  /** Slots that hold arguments only. */
  ghost predicate InRange(slots: seq<Option<nat>>, argc: nat) {
    forall s | 0 <= s < |slots| && slots[s].Some? :: slots[s].value < argc
  }

  lemma BindWithinInRange(argc: nat, tags: Tags)
    ensures BindWithin(argc, tags).Some? ==> InRange(BindWithin(argc, tags).value, argc)
  {
    PlacedWell(WithinPlace, 5, tags, argc);
  }

  lemma {:induction false} PlacedByPosition(place: Places, room: nat, tags: Tags, n: nat)
    requires n <= room && !AnyNamed(tags, n)
    ensures Placed(place, room, tags, n) == Binding(Identity(n) + seq(room - n, _ => None), false, n)
  {
    if n == 0 {
      assert Empty(room).slots == Identity(0) + seq(room, _ => None);
    } else {
      assert !AnyNamed(tags, n - 1);
      PlacedByPosition(place, room, tags, n - 1);
      var before := Identity(n - 1) + seq(room - (n - 1), _ => None);
      assert before[n - 1 := Some(n - 1)] == Identity(n) + seq(room - n, _ => None);
    }
  }

  lemma TrimmedIdentity(slots: seq<Option<nat>>, n: nat)
    requires n <= |slots| == 5 && slots == Identity(n) + seq(5 - n, _ => None)
    ensures slots[..n] == Identity(n) && (n == 5 ==> slots == Identity(n))
  {
  }

  lemma UnnamedWithin(argc: nat, tags: Tags)
    requires 3 <= argc <= 5 && !AnyNamed(tags, argc)
    ensures BindWithin(argc, tags) == Some(Identity(argc))
  {
    PlacedByPosition(WithinPlace, 5, tags, argc);
    var slots := Identity(argc) + seq(5 - argc, _ => None);
    assert slots[3] == (if argc > 3 then Some(3) else None) && slots[4] == (if argc > 4 then Some(4) else None);
    TrimmedIdentity(slots, argc);
  }

  // ----- arranging -----

  /** The slots of a call: `within` has a binder of its own. */
  function Slots(params: seq<string>, within: bool, argc: nat, tags: Tags): (r: Option<seq<Option<nat>>>)
    ensures r.Some? ==> InRange(r.value, argc)
    ensures r.Some? && !within ==> |r.value| == argc
    ensures r.Some? && within ==> 3 <= |r.value| <= 5
  {
    BindWithinInRange(argc, tags);
    BindArgsArranges(params, argc, tags);
    if within then BindWithin(argc, tags) else BindArgs(params, argc, tags)
  }

  /** What each slot receives; an open slot gets the default. */
  function Arranged<T>(xs: seq<T>, slots: seq<Option<nat>>, default: T): (r: seq<T>)
    requires InRange(slots, |xs|)
    ensures |r| == |slots|
  {
    seq(|slots|, s requires 0 <= s < |slots| => if slots[s].Some? then xs[slots[s].value] else default)
  }

  lemma ArrangedInPlace<T>(xs: seq<T>, default: T)
    ensures InRange(Identity(|xs|), |xs|) && Arranged(xs, Identity(|xs|), default) == xs
  {
  }
}
