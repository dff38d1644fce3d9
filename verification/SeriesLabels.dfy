/**
 Labelled arguments of rising, falling and repeat: the emitter picks value and bar count by label
 (src/codegen.c), the evaluator by position (src/timeseries.c).
 */
module SeriesLabels {
  import opened Common
  import opened CSyntax
  import opened Codegen
  import opened CallBinding
  import opened Meaning
  import opened CodegenMeaning
  import opened SeriesOffsets

  predicate IsSeries(fn: string) { IsTrend(fn) || fn == "repeat" }

  function ValueLabels(fn: string): set<string> { if fn == "repeat" then {"condition"} else {"value"} }

  predicate Labelled(tags: Tags, i: nat, labels: set<string>) {
    TagAt(tags, i).Some? && TagAt(tags, i).value in labels
  }

  /**
   The second argument is not labelled as the value, and the first is labelled as the bar count only if
   the second is too.
   */
  predicate InPlace(fn: string, tags: Tags) {
    && !Labelled(tags, 1, ValueLabels(fn))
    && (Labelled(tags, 0, {"bars", "samples"}) ==> Labelled(tags, 1, {"bars", "samples"}))
  }

  lemma ChosenExactly(fn: string, tags: Tags)
    ensures Chosen(tags, ValueLabels(fn), 0) == 1 <==> Labelled(tags, 1, ValueLabels(fn))
    ensures Chosen(tags, BAR_LABELS, 1) == 0
            <==> Labelled(tags, 0, {"bars", "samples"}) && !Labelled(tags, 1, {"bars", "samples"})
  {
  }

  // ----- what is emitted -----

  function Least(fn: string): real { if fn == "repeat" then 0.0 else 2.0 }

  function SeriesLayout(fn: string, ps: seq<Layout>): Layout
    requires IsSeries(fn) && (if fn == "repeat" then ps != [] else |ps| >= 2)
  {
    if fn == "repeat" then RepeatLayout(ps) else TrendLayout(if fn == "rising" then Gt else Lt, ps)
  }

  /** A literal bar count that the emitter takes, and for which it emits a term. */
  predicate Counts(fn: string, lit: Literal, n: nat) {
    Bars(Number(lit), Least(fn)) == Some(n) && n > 0
  }

  function Constant(p: Layout, n: nat): (ps: seq<Layout>)
    ensures |ps| == n
  {
    seq(n, _ => p)
  }

  lemma {:induction false} LiteralSeries(t: Target, lit: Literal, k: nat, n: nat)
    ensures SeriesPlan(Number(lit), k, n, t) == Some(Constant(LiteralLayout(lit), n))
  {
    if n > 0 {
      LiteralSeries(t, lit, k, n - 1);
      assert Constant(LiteralLayout(lit), n) == Constant(LiteralLayout(lit), n - 1) + [LiteralLayout(lit)];
    }
  }

  /** The plan of a labelled series call, in all cases. */
  lemma SeriesPlanned(t: Target, fn: string, x: Expr, lit: Literal, tags: Tags, k: nat, n: nat)
    requires IsSeries(fn) && NamesOffsets(t, x) && Counts(fn, lit, n)
    ensures var plan := Plan(Expr.Call(fn, [x, Number(lit)], tags), k, t);
            if Labelled(tags, 0, {"bars", "samples"}) && !Labelled(tags, 1, {"bars", "samples"}) then plan == None
            else if Labelled(tags, 1, ValueLabels(fn))
            then plan == Some(SeriesLayout(fn, Constant(LiteralLayout(lit), n)))
            else plan == Some(SeriesLayout(fn, ReadBars(t, x, k, n)))
  {
    ChosenExactly(fn, tags);
    LiteralSeries(t, lit, k, n);
    SeriesReads(t, x, k, n);
    assert Bars(x, Least(fn)).None?;
  }

  // ----- exactly when it is the series that was meant -----

  lemma {:induction false} ChainInjective(cs: seq<Layout>, cs': seq<Layout>)
    requires |cs| == |cs'| > 0 && Chain(cs) == Chain(cs')
    ensures cs == cs'
  {
    if |cs| == 1 {
      assert cs[0] == cs'[0];
    } else {
      var n := |cs| - 1;
      ChainInjective(cs[..n], cs'[..n]);
      assert cs == cs[..n] + [cs[n]] && cs' == cs'[..n] + [cs'[n]];
    }
  }

  lemma SeriesLayoutStarts(fn: string, ps: seq<Layout>, qs: seq<Layout>)
    requires IsSeries(fn) && |ps| == |qs| && (if fn == "repeat" then ps != [] else |ps| >= 2)
    requires SeriesLayout(fn, ps) == SeriesLayout(fn, qs)
    ensures ps[0] == qs[0]
  {
    if fn == "repeat" {
      ChainInjective(RepeatTerms(ps), RepeatTerms(qs));
      assert RepeatTerms(ps)[0] == Paren(ps[0]) && RepeatTerms(qs)[0] == Paren(qs[0]);
    } else {
      var op := if fn == "rising" then Gt else Lt;
      ChainInjective(TrendTerms(op, ps), TrendTerms(op, qs));
      assert TrendTerms(op, ps)[0] == Paren(Bin(op, ps[0], ps[1]));
      assert TrendTerms(op, qs)[0] == Paren(Bin(op, qs[0], qs[1]));
    }
  }

  /** A series call is emitted over the bars of its first argument if and only if the labels are in place. */
  lemma LabelsExactly(t: Target, fn: string, x: Expr, lit: Literal, tags: Tags, k: nat, n: nat)
    requires IsSeries(fn) && NamesOffsets(t, x) && Counts(fn, lit, n)
    ensures Plan(Expr.Call(fn, [x, Number(lit)], tags), k, t) == Some(SeriesLayout(fn, ReadBars(t, x, k, n)))
            <==> InPlace(fn, tags)
  {
    SeriesPlanned(t, fn, x, lit, tags, k, n);
    var meant, constant := ReadBars(t, x, k, n), Constant(LiteralLayout(lit), n);
    assert meant[0] == LeafAt(t, x, Shift(k, 0)) && constant[0] == LiteralLayout(lit);
    if SeriesLayout(fn, meant) == SeriesLayout(fn, constant) {
      SeriesLayoutStarts(fn, meant, constant);
    }
  }

  // ----- what the emitted text means otherwise -----

  /** The second argument is labelled as the value, and the bar count is in place. */
  predicate ValueMoved(fn: string, tags: Tags) {
    && Labelled(tags, 1, ValueLabels(fn))
    && (Labelled(tags, 0, {"bars", "samples"}) ==> Labelled(tags, 1, {"bars", "samples"}))
  }

  lemma {:induction false} ConstantTrend<N>(A: Arith<N>, env: Leaves<N>, op: BinOp, lit: Literal, k: nat, m: nat)
    requires m > 0
    ensures TrendUpto(A, env, op, Number(lit), k, m) == Some(A.cmp(op, A.literal(lit), A.literal(lit)))
  {
    if m == 1 {
      assert TrendUpto(A, env, op, Number(lit), k, 0) == Some(true);
    } else {
      ConstantTrend(A, env, op, lit, k, m - 1);
    }
  }

  /** A trend over a literal compares the literal with itself. */
  lemma ConstantTrendValue<N>(A: Arith<N>, env: Leaves<N>, fn: string, lit: Literal, k: nat, n: nat)
    requires IsTrend(fn) && Counts(fn, lit, n)
    ensures Eval(A, env, Expr.Call(fn, [Number(lit), Number(lit)], []), k)
         == Some(VBool(A.cmp(if fn == "rising" then Gt else Lt, A.literal(lit), A.literal(lit))))
  {
    BarsAreSamples(Number(lit));
    ConstantTrend(A, env, if fn == "rising" then Gt else Lt, lit, k, n - 1);
  }

  lemma ConstantPlanned(t: Target, fn: string, lit: Literal, k: nat, n: nat)
    requires IsSeries(fn) && Counts(fn, lit, n)
    ensures Plan(Expr.Call(fn, [Number(lit), Number(lit)], []), k, t)
         == Some(SeriesLayout(fn, Constant(LiteralLayout(lit), n)))
  {
    LiteralSeries(t, lit, k, n);
  }

  lemma ConstantRegular<N>(A: Arith<N>, env: Leaves<N>, names: CNames<N>, fn: string, lit: Literal, k: nat, n: nat)
    requires IsTrend(fn) && Counts(fn, lit, n) && k + n <= UNSIGNED_LIMIT
    ensures Regular(A, env, names, Expr.Call(fn, [Number(lit), Number(lit)], []), k)
  {
    BarsAreSamples(Number(lit));
    assert lit.Finite?;
  }

  /** With the value label on the bar count, rising and falling compare the count with itself. */
  lemma MislabelledTrend<N(!new)>(A: Arith<N>, t: Target, env: Leaves<N>, names: CNames<N>, fn: string, x: Expr,
                                  lit: Literal, tags: Tags, k: nat, n: nat)
    requires Setting(A, t, env, names) && IsTrend(fn) && NamesOffsets(t, x) && Counts(fn, lit, n)
    requires k + n <= UNSIGNED_LIMIT && ValueMoved(fn, tags)
    ensures var plan := Plan(Expr.Call(fn, [x, Number(lit)], tags), k, t);
            plan.Some? && Denote(A, names, plan.value)
                          == Some(VBool(A.cmp(if fn == "rising" then Gt else Lt, A.literal(lit), A.literal(lit))))
  {
    SeriesPlanned(t, fn, x, lit, tags, k, n);
    ConstantPlanned(t, fn, lit, k, n);
    ConstantRegular(A, env, names, fn, lit, k, n);
    ConstantTrendValue(A, env, fn, lit, k, n);
    Preserves(A, t, env, names, Expr.Call(fn, [Number(lit), Number(lit)], []), k);
  }

  lemma {:induction false} ConstantRepeat<N>(A: Arith<N>, names: CNames<N>, p: Layout, n: nat, c: N)
    requires n > 0 && Denote(A, names, p) == Some(VNum(c))
    ensures Denote(A, names, Chain(RepeatTerms(Constant(p, n)))) == if n == 1 then Some(VNum(c)) else None
  {
    var cs := RepeatTerms(Constant(p, n));
    assert cs[0] == Paren(p);
    DenoteParen(A, names, p);
    if n > 1 {
      ConstantRepeat(A, names, p, n - 1, c);
      assert cs[..n - 1] == RepeatTerms(Constant(p, n - 1));
    }
  }

  /** With the condition label on the bar count, repeat never yields a truth value. */
  lemma MislabelledRepeat<N(!new)>(A: Arith<N>, t: Target, names: CNames<N>, x: Expr, lit: Literal, tags: Tags,
                                   k: nat, n: nat)
    requires Ieee(A) && NamesOffsets(t, x) && Counts("repeat", lit, n) && ValueMoved("repeat", tags)
    ensures var plan := Plan(Expr.Call("repeat", [x, Number(lit)], tags), k, t);
            plan.Some? && forall b :: Denote(A, names, plan.value) != Some(VBool(b))
  {
    SeriesPlanned(t, "repeat", x, lit, tags, k, n);
    var p := LiteralLayout(lit);
    assert lit.Finite?;
    LiteralDenotesExactly(A, names, lit);
    ConstantRepeat(A, names, p, n, A.literal(lit));
    DenoteParen(A, names, Chain(RepeatTerms(Constant(p, n))));
  }

  /** The evaluator reads a series call by position, whatever its labels. */
  lemma EvaluatorIgnoresLabels<N>(A: Arith<N>, env: Leaves<N>, fn: string, args: seq<Expr>, tags: Tags, k: nat)
    requires IsSeries(fn)
    ensures Eval(A, env, Expr.Call(fn, args, tags), k) == Eval(A, env, Expr.Call(fn, args, []), k)
  {
  }

  /** `rising(x, value = 2)` */
  function MovedRising(x: Expr): Expr {
    Expr.Call("rising", [x, Number(Finite(false, 2.0))], [None, Some("value")])
  }

  /** For a series that rises, the evaluator says so and the emitted text denies it. */
  lemma LabelChangesMeaning<N(!new)>(A: Arith<N>, t: Target, env: Leaves<N>, names: CNames<N>, x: Expr, a: N, b: N)
    requires Setting(A, t, env, names) && NamesOffsets(t, x)
    requires env(x, 0) == Some(VNum(a)) && env(x, 1) == Some(VNum(b))
    ensures Plan(MovedRising(x), 0, t).Some?
    ensures var two := A.literal(Finite(false, 2.0));
            Denote(A, names, Plan(MovedRising(x), 0, t).value) == Eval(A, env, MovedRising(x), 0)
            <==> A.cmp(Gt, a, b) == A.cmp(Gt, two, two)
  {
    assert (2.0 + 0.5).Floor == 2;
    assert Counts("rising", Finite(false, 2.0), 2);
    MislabelledTrend(A, t, env, names, "rising", x, Finite(false, 2.0), [None, Some("value")], 0, 2);
    EvaluatorIgnoresLabels(A, env, "rising", [x, Number(Finite(false, 2.0))], [None, Some("value")], 0);
    Rising2Value(A, env, x, 0, a, b);
  }

  /** A series that rises, in a number system where two does not exceed itself. */
  ghost predicate Rises<N>(A: Arith<N>, env: Leaves<N>, x: Expr, a: N, b: N) {
    && env(x, 0) == Some(VNum(a)) && env(x, 1) == Some(VNum(b)) && A.cmp(Gt, a, b)
    && !A.cmp(Gt, A.literal(Finite(false, 2.0)), A.literal(Finite(false, 2.0)))
  }

  lemma FadingRises(x: Expr, y: Expr)
    requires x != y
    ensures Rises(RealNumbers(), FadingLeaves(x, y), x, Some(2.0), Some(1.0))
  {
    FadingAt(x, y, x, 0);
    FadingAt(x, y, x, 1);
  }

  lemma RisingDenied<N(!new)>(A: Arith<N>, t: Target, env: Leaves<N>, names: CNames<N>, x: Expr, a: N, b: N)
    requires Setting(A, t, env, names) && NamesOffsets(t, x) && Rises(A, env, x, a, b)
    ensures Plan(MovedRising(x), 0, t).Some?
    ensures Denote(A, names, Plan(MovedRising(x), 0, t).value) != Eval(A, env, MovedRising(x), 0)
  {
    LabelChangesMeaning(A, t, env, names, x, a, b);
  }

  /** There is a setting in which they differ. */
  lemma LabelChangesMeaningHere(x: Expr, y: Expr)
    returns (A: Arith<RealOrNaN>, t: Target, env: Leaves<RealOrNaN>, names: CNames<RealOrNaN>)
    requires IsNamedLeaf(x) && x != y
    ensures Setting(A, t, env, names) && Plan(MovedRising(x), 0, t).Some?
    ensures Denote(A, names, Plan(MovedRising(x), 0, t).value) != Eval(A, env, MovedRising(x), 0)
  {
    A, t, env, names := RealNumbers(), WordTarget(y), FadingLeaves(x, y), FadingNames();
    FadingSetting(x, y);
    WordsDiffer(y, x);
    FadingRises(x, y);
    RisingDenied(A, t, env, names, x, Some(2.0), Some(1.0));
  }
}
