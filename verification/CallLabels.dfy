/**
 Labelled arguments of all other calls: the evaluator hands them to the parameters they name, the
 emitter prints them as they are listed (src/codegen.c, src/call/args.c, src/registry/defaults.c).
 */
module CallLabels {
  import opened Common
  import opened CSyntax
  import opened Codegen
  import opened CallBinding
  import opened Meaning
  import opened CodegenMeaning
  import opened SeriesOffsets

  /** The arguments in the order of the parameters they reach; a flag of `within` that is not given is true. */
  function Positional(args: seq<Expr>, slots: seq<Option<nat>>): (ps: seq<Expr>)
    requires InRange(slots, |args|)
    ensures |ps| == |slots|
  {
    Arranged(args, slots, Boolean(true))
  }

  // ----- every argument reaches a parameter -----

  ghost predicate Covers(slots: seq<Option<nat>>, argc: nat) {
    forall i: nat | i < argc :: HasSlot(slots, i)
  }

  lemma IdentityCovers(n: nat)
    ensures Covers(Identity(n), n)
  {
    forall i: nat | i < n ensures HasSlot(Identity(n), i) {
      assert Fills(Identity(n), i, i);
    }
  }

  lemma {:induction false} WindowCovers(params: seq<string>, start: nat, argc: nat, tags: Tags)
    ensures var w := FirstWindow(params, start, argc, tags); w.Some? ==> Covers(w.value, argc)
    decreases |params| - start
  {
    if start + argc <= |params| {
      PlacedWell(WindowPlaces(params, start, argc), argc, tags, argc);
      if start < |params| {
        WindowCovers(params, start + 1, argc, tags);
      }
    }
  }

  lemma BindArgsCovers(params: seq<string>, argc: nat, tags: Tags)
    ensures var r := BindArgs(params, argc, tags); r.Some? ==> Covers(r.value, argc)
  {
    IdentityCovers(argc);
    WindowCovers(params, 0, argc, tags);
    if FirstWindow(params, 0, argc, tags).None? {
      SecondAttemptFails(params, argc, tags);
    }
  }

  lemma BindWithinCovers(argc: nat, tags: Tags)
    ensures var r := BindWithin(argc, tags); r.Some? ==> Covers(r.value, argc)
  {
    PlacedWell(WithinPlace, 5, tags, argc);
    var b, r := Placed(WithinPlace, 5, tags, argc), BindWithin(argc, tags);
    if r.Some? {
      forall i: nat | i < argc ensures HasSlot(r.value, i) {
        assert HasSlot(b.slots, i);
        var s: nat :| Fills(b.slots, s, i);
        assert Fills(r.value, s, i);
      }
    }
  }

  lemma SlotsCover<N>(A: Arith<N>, fn: string, argc: nat, tags: Tags)
    ensures var r := ArgSlots(A, fn, argc, tags); r.Some? ==> Covers(r.value, argc)
  {
    BindArgsCovers(A.paramNames(fn), argc, tags);
    BindWithinCovers(argc, tags);
  }

  // ----- arguments one by one -----

  lemma {:induction false} ValueAt<N>(A: Arith<N>, env: Leaves<N>, args: seq<Expr>, k: nat, i: nat)
    requires i < |args|
    ensures ArgValues(A, env, args, k).Some? ==> Eval(A, env, args[i], k) == Some(ArgValues(A, env, args, k).value[i])
    ensures Eval(A, env, args[i], k).None? ==> ArgValues(A, env, args, k).None?
  {
    if i > 0 {
      ValueAt(A, env, args[1..], k, i - 1);
      assert args[1..][i - 1] == args[i];
    }
  }

  lemma {:induction false} ValuesFrom<N>(A: Arith<N>, env: Leaves<N>, args: seq<Expr>, k: nat, vs: seq<Val<N>>)
    requires |vs| == |args| && forall i | 0 <= i < |args| :: Eval(A, env, args[i], k) == Some(vs[i])
    ensures ArgValues(A, env, args, k) == Some(vs)
  {
    if args != [] {
      assert forall i | 0 <= i < |args| - 1 :: args[1..][i] == args[i + 1] && vs[1..][i] == vs[i + 1];
      ValuesFrom(A, env, args[1..], k, vs[1..]);
      assert vs == [vs[0]] + vs[1..];
    }
  }

  lemma {:induction false} SomeFails<N>(A: Arith<N>, env: Leaves<N>, args: seq<Expr>, k: nat) returns (i: nat)
    requires ArgValues(A, env, args, k).None?
    ensures i < |args| && Eval(A, env, args[i], k).None?
  {
    if Eval(A, env, args[0], k).None? {
      i := 0;
    } else {
      i := SomeFails(A, env, args[1..], k);
      i := i + 1;
    }
  }

  /** The values of the arranged arguments are the arranged values. */
  lemma ArrangedValues<N>(A: Arith<N>, env: Leaves<N>, args: seq<Expr>, slots: seq<Option<nat>>, k: nat)
    requires InRange(slots, |args|) && Covers(slots, |args|)
    ensures var vs, ws := ArgValues(A, env, args, k), ArgValues(A, env, Positional(args, slots), k);
            && (vs.Some? <==> ws.Some?)
            && (vs.Some? ==> ws.value == Arranged(vs.value, slots, VBool(true)))
  {
    var vs, ps := ArgValues(A, env, args, k), Positional(args, slots);
    if vs.Some? {
      var ws: seq<Val<N>> := Arranged(vs.value, slots, VBool(true));
      forall s | 0 <= s < |ps| ensures Eval(A, env, ps[s], k) == Some(ws[s]) {
        if slots[s].Some? {
          ValueAt(A, env, args, k, slots[s].value);
        }
      }
      ValuesFrom(A, env, ps, k, ws);
    } else {
      var i := SomeFails(A, env, args, k);
      assert HasSlot(slots, i);
      var s: nat :| Fills(slots, s, i);
      assert ps[s] == args[i];
      ValueAt(A, env, ps, k, s);
    }
  }

  /** An unlabelled call keeps its arguments in place. */
  lemma UnlabelledInPlace<N>(A: Arith<N>, fn: string, argc: nat)
    requires argc <= MAX_CALL_ARGS
    ensures ArgSlots(A, fn, argc, []) == Some(Identity(argc))
  {
    if IsWithin(fn, argc) {
      UnnamedWithin(argc, []);
    } else {
      UnnamedKeepPlaces(A.paramNames(fn), argc, []);
    }
  }

  lemma SlotsFew<N>(A: Arith<N>, fn: string, argc: nat, tags: Tags)
    requires ArgSlots(A, fn, argc, tags).Some?
    ensures |ArgSlots(A, fn, argc, tags).value| <= MAX_CALL_ARGS
  {
  }

  lemma PlainStays(fn: string, m: nat, n: nat)
    requires IsPlain(fn, m) && (m == n || IsWithin(fn, m))
    ensures IsPlain(fn, n)
  {
  }

  /** A labelled call has the value of the unlabelled call on the arguments its parameters receive. */
  lemma EvaluatorFollowsLabels<N>(A: Arith<N>, env: Leaves<N>, fn: string, args: seq<Expr>, tags: Tags, k: nat)
    requires IsPlain(fn, |args|)
    ensures var slots := ArgSlots(A, fn, |args|, tags);
            Eval(A, env, Expr.Call(fn, args, tags), k)
            == if slots.None? then None else Eval(A, env, Expr.Call(fn, Positional(args, slots.value), []), k)
  {
    var slots := ArgSlots(A, fn, |args|, tags);
    if slots.Some? {
      var ps := Positional(args, slots.value);
      SlotsCover(A, fn, |args|, tags);
      ArrangedValues(A, env, args, slots.value, k);
      SlotsFew(A, fn, |args|, tags);
      UnlabelledInPlace(A, fn, |ps|);
      PlainStays(fn, |args|, |ps|);
      if ArgValues(A, env, ps, k).Some? {
        ArrangedInPlace(ArgValues(A, env, ps, k).value, VBool(true));
      }
    }
  }

  // ----- exactly when the emitted call is the call that was meant -----

  /** The emitter prints a call as it is listed. */
  lemma EmitterIgnoresLabels(t: Target, fn: string, args: seq<Expr>, tags: Tags, k: nat)
    requires IsPlain(fn, |args|)
    ensures Plan(Expr.Call(fn, args, tags), k, t) == Plan(Expr.Call(fn, args, []), k, t)
  {
  }

  lemma {:induction false} PlanAt(t: Target, args: seq<Expr>, k: nat, i: nat)
    requires i < |args| && ArgPlans(args, k, t).Some?
    ensures Plan(args[i], k, t) == Some(ArgPlans(args, k, t).value[i])
  {
    if i > 0 {
      PlanAt(t, args[1..], k, i - 1);
      assert args[1..][i - 1] == args[i];
    }
  }

  lemma {:induction false} PlansFrom(t: Target, args: seq<Expr>, k: nat, ps: seq<Layout>)
    requires |ps| == |args| && forall i | 0 <= i < |args| :: Plan(args[i], k, t) == Some(ps[i])
    ensures ArgPlans(args, k, t) == Some(ps)
  {
    if args != [] {
      assert forall i | 0 <= i < |args| - 1 :: args[1..][i] == args[i + 1] && ps[1..][i] == ps[i + 1];
      PlansFrom(t, args[1..], k, ps[1..]);
      assert ps == [ps[0]] + ps[1..];
    }
  }

  const TRUE: Layout := Leaf(Bool(true))

  lemma ArrangedPlans(t: Target, args: seq<Expr>, slots: seq<Option<nat>>, k: nat)
    requires InRange(slots, |args|) && ArgPlans(args, k, t).Some?
    ensures ArgPlans(Positional(args, slots), k, t) == Some(Arranged(ArgPlans(args, k, t).value, slots, TRUE))
  {
    var ps, qs := Positional(args, slots), Arranged(ArgPlans(args, k, t).value, slots, TRUE);
    forall s | 0 <= s < |ps| ensures Plan(ps[s], k, t) == Some(qs[s]) {
      if slots[s].Some? {
        PlanAt(t, args, k, slots[s].value);
      }
    }
    PlansFrom(t, ps, k, qs);
  }

  lemma BoundInjective(ps: seq<Layout>, qs: seq<Layout>, bound: nat, flag: nat, inclusive: BinOp, exclusive: BinOp)
    requires 0 < bound < |ps| && bound < |qs|
    requires BoundLayout(ps, bound, flag, inclusive, exclusive) == BoundLayout(qs, bound, flag, inclusive, exclusive)
    ensures ps[0] == qs[0] && ps[bound] == qs[bound] && (flag < |ps| <==> flag < |qs|)
    ensures flag < |ps| ==> ps[flag] == qs[flag]
  {
  }

  lemma WithinInjective(ps: seq<Layout>, qs: seq<Layout>)
    requires 3 <= |ps| <= 5 && 3 <= |qs| <= 5 && WithinLayout(ps) == WithinLayout(qs)
    ensures ps == qs
  {
    BoundInjective(ps, qs, 1, 3, Ge, Gt);
    BoundInjective(ps, qs, 2, 4, Le, Lt);
    assert |ps| == |qs|;
    forall i | 0 <= i < |ps| ensures ps[i] == qs[i] {
      assert i == 0 || i == 1 || i == 2 || i == 3 || i == 4;
    }
  }

  lemma {:induction false} ExtremeInjective(fn: string, ps: seq<Layout>, qs: seq<Layout>)
    requires |ps| == |qs| > 0 && ExtremeLayout(fn, ps) == ExtremeLayout(fn, qs)
    ensures ps == qs
  {
    var n := |ps| - 1;
    if n == 0 {
      assert ps[0] == qs[0];
    } else {
      var l, r := [ExtremeLayout(fn, ps[..n]), ps[n]], [ExtremeLayout(fn, qs[..n]), qs[n]];
      assert l == r && l[0] == r[0] && l[1] == r[1];
      ExtremeInjective(fn, ps[..n], qs[..n]);
      assert ps == ps[..n] + [ps[n]] && qs == qs[..n] + [qs[n]];
    }
  }

  lemma LayoutInjective(t: Target, fn: string, ps: seq<Layout>, qs: seq<Layout>)
    requires PlainLayout(t, fn, ps).Some? && PlainLayout(t, fn, ps) == PlainLayout(t, fn, qs)
    requires |ps| == |qs| || (IsWithin(fn, |ps|) && IsWithin(fn, |qs|))
    ensures ps == qs
  {
    if IsWithin(fn, |ps|) {
      WithinInjective(ps, qs);
    } else if IsExtreme(fn, |ps|) {
      ExtremeInjective(if fn == "min" then "fmin" else "fmax", ps, qs);
    }
  }

  lemma ArrangedSame<T>(xs: seq<T>, slots: seq<Option<nat>>, default: T)
    requires InRange(slots, |xs|) && Distinct(xs) && default !in xs
    ensures Arranged(xs, slots, default) == xs <==> slots == Identity(|xs|)
  {
    var r := Arranged(xs, slots, default);
    if r == xs {
      forall s | 0 <= s < |slots| ensures slots[s] == Some(s) {
        assert r[s] == xs[s] && xs[s] in xs;
      }
      assert slots == Identity(|xs|);
    } else if slots == Identity(|xs|) {
      ArrangedInPlace(xs, default);
    }
  }

  lemma PlainPlanned(t: Target, fn: string, args: seq<Expr>, k: nat)
    requires IsPlain(fn, |args|) && !(fn == "nan" && |args| == 0) && ArgPlans(args, k, t).Some?
    ensures Plan(Expr.Call(fn, args, []), k, t) == PlainLayout(t, fn, ArgPlans(args, k, t).value)
  {
  }

  /**
   The emitted call is the call on the arguments its parameters receive if and only if the labels leave
   every argument in place, for arguments that are emitted differently from each other.
   */
  lemma LabelsExactly<N>(A: Arith<N>, t: Target, fn: string, args: seq<Expr>, tags: Tags, k: nat)
    requires IsPlain(fn, |args|) && !(fn == "nan" && |args| == 0) && ArgSlots(A, fn, |args|, tags).Some?
    requires ArgPlans(args, k, t).Some? && PlainLayout(t, fn, ArgPlans(args, k, t).value).Some?
    requires Distinct(ArgPlans(args, k, t).value) && TRUE !in ArgPlans(args, k, t).value
    ensures var slots := ArgSlots(A, fn, |args|, tags).value;
            Plan(Expr.Call(fn, args, tags), k, t) == Plan(Expr.Call(fn, Positional(args, slots), []), k, t)
            <==> slots == Identity(|args|)
  {
    var slots, ps := ArgSlots(A, fn, |args|, tags).value, ArgPlans(args, k, t).value;
    var qs := Arranged(ps, slots, TRUE);
    EmitterIgnoresLabels(t, fn, args, tags, k);
    PlainPlanned(t, fn, args, k);
    ArrangedPlans(t, args, slots, k);
    PlainStays(fn, |args|, |slots|);
    PlainPlanned(t, fn, Positional(args, slots), k);
    ArrangedSame(ps, slots, TRUE);
    if PlainLayout(t, fn, ps) == PlainLayout(t, fn, qs) {
      LayoutInjective(t, fn, ps, qs);
    }
  }

  // ----- an instance -----

  /** `within(x, max = 3, min = 1)` */
  function MovedWithin(x: Expr): Expr {
    Expr.Call("within", [x, Number(Finite(false, 3.0)), Number(Finite(false, 1.0))],
              [None, Some("max"), Some("min")])
  }

  function ListedWithin(x: Expr, lo: real, hi: real): Expr {
    Expr.Call("within", [x, Number(Finite(false, lo)), Number(Finite(false, hi))], [])
  }

  lemma MovedSlots()
    ensures BindWithin(3, [None, Some("max"), Some("min")]) == Some([Some(0), Some(2), Some(1)])
  {
    var tags: Tags := [None, Some("max"), Some("min")];
    assert Placed(WithinPlace, 5, tags, 0).slots == [None, None, None, None, None];
    assert Placed(WithinPlace, 5, tags, 1).slots == [Some(0), None, None, None, None];
    assert Placed(WithinPlace, 5, tags, 2).slots == [Some(0), None, Some(1), None, None];
    assert Placed(WithinPlace, 5, tags, 3).slots == [Some(0), Some(2), Some(1), None, None];
    assert [Some(0), Some(2), Some(1), None, None][..3] == [Some(0), Some(2), Some(1)];
  }

  /** Either name of the value and of each bound, and the names of the flags, in the reverse order. */
  lemma WithinNames(value: string, lo: string, hi: string)
    requires value == "source" || value == "value"
    requires (lo == "min" || lo == "lo") && (hi == "max" || hi == "hi")
    ensures BindWithin(5, [Some("include_max"), Some("include_min"), Some(hi), Some(lo), Some(value)])
         == Some([Some(4), Some(3), Some(2), Some(1), Some(0)])
  {
    var tags: Tags := [Some("include_max"), Some("include_min"), Some(hi), Some(lo), Some(value)];
    assert Placed(WithinPlace, 5, tags, 0).slots == [None, None, None, None, None];
    assert Placed(WithinPlace, 5, tags, 1).slots == [None, None, None, None, Some(0)];
    assert Placed(WithinPlace, 5, tags, 2).slots == [None, None, None, Some(1), Some(0)];
    assert Placed(WithinPlace, 5, tags, 3).slots == [None, None, Some(2), Some(1), Some(0)];
    assert Placed(WithinPlace, 5, tags, 4).slots == [None, Some(3), Some(2), Some(1), Some(0)];
    assert Placed(WithinPlace, 5, tags, 5).slots == [Some(4), Some(3), Some(2), Some(1), Some(0)];
  }

  lemma ListedWithinValue<N>(A: Arith<N>, env: Leaves<N>, x: Expr, lo: real, hi: real, k: nat, a: N)
    requires IsNamedLeaf(x) && env(x, k) == Some(VNum(a))
    ensures Eval(A, env, ListedWithin(x, lo, hi), k)
         == Some(VBool(A.cmp(Ge, a, A.literal(Finite(false, lo))) && A.cmp(Le, a, A.literal(Finite(false, hi)))))
  {
    var args := ListedWithin(x, lo, hi).args;
    var vs := [VNum(a), VNum(A.literal(Finite(false, lo))), VNum(A.literal(Finite(false, hi)))];
    ValuesFrom(A, env, args, k, vs);
    UnlabelledInPlace(A, "within", 3);
    ArrangedInPlace(vs, VBool(true));
  }

  lemma MovedWithinValue<N>(A: Arith<N>, env: Leaves<N>, x: Expr, k: nat)
    ensures Eval(A, env, MovedWithin(x), k) == Eval(A, env, ListedWithin(x, 1.0, 3.0), k)
  {
    var e := MovedWithin(x);
    MovedSlots();
    EvaluatorFollowsLabels(A, env, "within", e.args, e.tags, k);
    assert Positional(e.args, [Some(0), Some(2), Some(1)]) == ListedWithin(x, 1.0, 3.0).args;
  }

  lemma ListedWithinRegular<N>(A: Arith<N>, env: Leaves<N>, names: CNames<N>, x: Expr, lo: real, hi: real, k: nat)
    requires IsNamedLeaf(x)
    ensures Regular(A, env, names, ListedWithin(x, lo, hi), k)
  {
    UnlabelledInPlace(A, "within", 3);
  }

  lemma ListedWithinPlanned(t: Target, x: Expr, lo: real, hi: real, k: nat)
    requires NamesOffsets(t, x)
    ensures Plan(ListedWithin(x, lo, hi), k, t).Some?
  {
    var args := ListedWithin(x, lo, hi).args;
    LeafPlanned(t, x, k);
    PlansFrom(t, args, k, [LeafAt(t, x, k), Leaf(Num(lo)), Leaf(Num(hi))]);
  }

  /** The evaluator asks for 1 <= x <= 3; the emitted text asks for 3 <= x <= 1. */
  lemma LabelChangesMeaning<N(!new)>(A: Arith<N>, t: Target, env: Leaves<N>, names: CNames<N>, x: Expr, k: nat, a: N)
    requires Setting(A, t, env, names) && NamesOffsets(t, x) && env(x, k) == Some(VNum(a))
    ensures var one, three := A.literal(Finite(false, 1.0)), A.literal(Finite(false, 3.0));
            && Plan(MovedWithin(x), k, t).Some?
            && Denote(A, names, Plan(MovedWithin(x), k, t).value)
               == Some(VBool(A.cmp(Ge, a, three) && A.cmp(Le, a, one)))
            && Eval(A, env, MovedWithin(x), k) == Some(VBool(A.cmp(Ge, a, one) && A.cmp(Le, a, three)))
  {
    var e := MovedWithin(x);
    MovedWithinValue(A, env, x, k);
    ListedWithinValue(A, env, x, 1.0, 3.0, k, a);
    EmitterIgnoresLabels(t, "within", e.args, e.tags, k);
    ListedWithinPlanned(t, x, 3.0, 1.0, k);
    ListedWithinRegular(A, env, names, x, 3.0, 1.0, k);
    ListedWithinValue(A, env, x, 3.0, 1.0, k, a);
    Preserves(A, t, env, names, ListedWithin(x, 3.0, 1.0), k);
  }
}
