/** Emitted C denotes the expression it came from, at every lookback offset. */
module CodegenMeaning {
  import opened Common
  import opened CSyntax
  import opened CPrintParse
  import opened Codegen
  import opened CodegenText
  import opened Meaning
  import opened CallBinding

  /** What is used about numbers: IEEE comparison with NaN, negation of literals, fmin and fmax. */
  ghost predicate Ieee<N(!new)>(A: Arith<N>) {
    && (forall m: real :: A.negate(A.literal(Finite(false, m))) == A.literal(Finite(true, m)))
    && A.isNaN(A.nan)
    && (forall op, a: N, b: N :: A.isNaN(a) || A.isNaN(b) ==> !A.cmp(op, a, b))
    && (forall a: N, b: N :: A.cFunction("fmin", [VNum(a), VNum(b)]) == Some(VNum(CExtreme(A, Lt, a, b))))
    && (forall a: N, b: N :: A.cFunction("fmax", [VNum(a), VNum(b)]) == Some(VNum(CExtreme(A, Gt, a, b))))
    && A.builtin("nan", []) == Some(VNum(A.nan))
  }

  /** fmin and fmax (7.12.12 of ISO/IEC 9899:2011): a NaN argument is treated as missing. */
  function CExtreme<N>(A: Arith<N>, op: BinOp, a: N, b: N): N {
    if A.isNaN(a) then b else if A.isNaN(b) then a else if A.cmp(op, b, a) then b else a
  }

  /** The names in C hold the values of the leaves they are emitted for. */
  ghost predicate NamesAgree<N(!new)>(t: Target, env: Leaves<N>, names: CNames<N>) {
    forall e: Expr, k: nat ::
      (e.Identifier? || e.Parameter? || e.Access?) && LeafPlan(e, k, t).Some? && env(e, k).Some?
      ==> LeafValue(names, LeafPlan(e, k, t).value) == env(e, k)
  }

  function LeafValue<N>(names: CNames<N>, p: Layout): Option<Val<N>> {
    if p.Leaf? && p.tok.Id? then names(p.tok.name) else None
  }

  /** A mapped function computes what the registry's function of the original name computes. */
  ghost predicate FunctionsAgree<N(!new)>(A: Arith<N>, t: Target) {
    forall fn: string, vs: seq<Val<N>> ::
      MappedFunction(t, fn, |vs|).Some? && A.builtin(fn, vs).Some?
      ==> A.cFunction(MappedFunction(t, fn, |vs|).value, vs) == A.builtin(fn, vs)
  }

  /**
   Where evaluator and emitted C are bound to agree: the C name that a literal which is not finite is
   printed as holds its value, series stay within 32-bit offsets, labels leave arguments in place, and no
   min or max of several arguments has a NaN first argument.
   */
  ghost predicate Regular<N>(A: Arith<N>, env: Leaves<N>, names: CNames<N>, e: Expr, k: nat)
    decreases e
  {
    match e
    case Number(lit) => LiteralNamed(A, names, lit)
    case Binary(_, l, r) => Regular(A, env, names, l, k) && Regular(A, env, names, r, k)
    case Unary(_, x) => Regular(A, env, names, x, k)
    case Ternary(c, y, n) =>
      Regular(A, env, names, c, k) && Regular(A, env, names, y, k) && Regular(A, env, names, n, k)
    case Index(target, index) =>
      LiteralOffset(index).Some? ==> Regular(A, env, names, target, k + LiteralOffset(index).value)
    case Call(fn, args, tags) =>
      if IsTrend(fn) || fn == "repeat" then
        && |args| == 2
        && Chosen(tags, if IsTrend(fn) then {"value"} else {"condition"}, 0) == 0
        && Chosen(tags, BAR_LABELS, 1) == 1
        && (Bars(args[1], 0.0).Some? ==>
              && k + Bars(args[1], 0.0).value <= UNSIGNED_LIMIT
              && forall j: nat | k <= j < k + Bars(args[1], 0.0).value :: Regular(A, env, names, args[0], j))
      else
        && (forall i | 0 <= i < |args| :: Regular(A, env, names, args[i], k))
        && (IsCross(fn, |args|) ==>
              k + 1 < UNSIGNED_LIMIT && forall i | 0 <= i < |args| :: Regular(A, env, names, args[i], k + 1))
        && (IsCross(fn, |args|) || ArgSlots(A, fn, |args|, tags).None?
            || ArgSlots(A, fn, |args|, tags) == Some(Identity(|args|)))
        && (IsExtreme(fn, |args|) && |args| > 1 && ArgValues(A, env, args, k).Some? ==>
              var first := ArgValues(A, env, args, k).value[0]; first.VNum? ==> !A.isNaN(first.n))
    case _ => true
  }

  /** The first argument is not NaN, or all are. */
  ghost predicate ExtremesAgree<N>(A: Arith<N>, vs: seq<Val<N>>) {
    vs != [] && AllNumbers(vs) ==> !A.isNaN(vs[0].n) || forall i | 0 <= i < |vs| :: A.isNaN(vs[i].n)
  }

  // ----- min and max -----

  /** The left-nested fmin or fmax chain. */
  function CExtremes<N>(A: Arith<N>, op: BinOp, vs: seq<Val<N>>): N
    requires vs != [] && AllNumbers(vs)
  {
    if |vs| == 1 then vs[0].n else CExtreme(A, op, CExtremes(A, op, vs[..|vs| - 1]), vs[|vs| - 1].n)
  }

  lemma {:induction false} ExtremesEqual<N(!new)>(A: Arith<N>, op: BinOp, vs: seq<Val<N>>)
    requires Ieee(A) && vs != [] && AllNumbers(vs) && !A.isNaN(vs[0].n)
    ensures CExtremes(A, op, vs) == Extreme(A, op, vs) && !A.isNaN(Extreme(A, op, vs))
  {
    if |vs| > 1 {
      ExtremesEqual(A, op, vs[..|vs| - 1]);
    }
  }

  lemma {:induction false} ExtremesOfNaN<N(!new)>(A: Arith<N>, op: BinOp, vs: seq<Val<N>>)
    requires Ieee(A) && vs != [] && AllNumbers(vs) && A.isNaN(vs[0].n)
    ensures Extreme(A, op, vs) == vs[0].n
    ensures A.isNaN(CExtremes(A, op, vs)) <==> forall i | 0 <= i < |vs| :: A.isNaN(vs[i].n)
    ensures A.isNaN(CExtremes(A, op, vs)) ==> CExtremes(A, op, vs) == vs[|vs| - 1].n
  {
    if |vs| > 1 {
      var front := vs[..|vs| - 1];
      ExtremesOfNaN(A, op, front);
      if forall i | 0 <= i < |vs| :: A.isNaN(vs[i].n) {
        assert forall i | 0 <= i < |front| :: A.isNaN(front[i].n);
      }
      if A.isNaN(CExtremes(A, op, vs)) {
        forall i | 0 <= i < |vs| ensures A.isNaN(vs[i].n) {
          assert i < |front| ==> vs[i] == front[i];
        }
      }
    }
  }

  /**
   The evaluator's min and max give the same number as the fmin/fmax chain, NaN for NaN, exactly
   when the first argument is not NaN or every argument is.
   */
  lemma ExtremesAgreeExactly<N(!new)>(A: Arith<N>, op: BinOp, vs: seq<Val<N>>)
    requires Ieee(A) && vs != [] && AllNumbers(vs)
    ensures (|| CExtremes(A, op, vs) == Extreme(A, op, vs)
             || (A.isNaN(CExtremes(A, op, vs)) && A.isNaN(Extreme(A, op, vs))))
            <==> ExtremesAgree(A, vs)
  {
    if A.isNaN(vs[0].n) {
      ExtremesOfNaN(A, op, vs);
    } else {
      ExtremesEqual(A, op, vs);
    }
  }

  // ----- meaning preservation -----

  ghost predicate Setting<N(!new)>(A: Arith<N>, t: Target, env: Leaves<N>, names: CNames<N>) {
    Ieee(A) && NamesAgree(t, env, names) && FunctionsAgree(A, t)
  }

  /** Meaning of a layout. */
  function Denote<N>(A: Arith<N>, names: CNames<N>, p: Layout): Option<Val<N>> {
    CEval(A, names, Tree(p))
  }

  /**
   Meaning preservation: where evaluation at offset `k` gives a value and emission at `k`
   succeeds, the emitted C expression has that value.
   */
  lemma {:induction false} Preserves<N(!new)>(A: Arith<N>, t: Target, env: Leaves<N>, names: CNames<N>, e: Expr, k: nat)
    requires Setting(A, t, env, names) && Regular(A, env, names, e, k)
    requires Plan(e, k, t).Some? && Eval(A, env, e, k).Some?
    ensures Denote(A, names, Plan(e, k, t).value) == Eval(A, env, e, k)
    decreases e, 0, 1
  {
    match e
    case Number(lit) => LiteralDenotesExactly(A, names, lit);
    case Identifier(_) | Parameter(_) | Access(_) => assert LeafValue(names, LeafPlan(e, k, t).value) == env(e, k);
    case Binary(_, _, _) => PreservesBinary(A, t, env, names, e, k);
    case Unary(_, _) => PreservesUnary(A, t, env, names, e, k);
    case Ternary(_, _, _) => PreservesTernary(A, t, env, names, e, k);
    case Index(_, _) => PreservesIndex(A, t, env, names, e, k);
    case Call(_, _, _) => PreservesCall(A, t, env, names, e, k);
    case _ =>
  }

  lemma {:induction false} PreservesBinary<N(!new)>(A: Arith<N>, t: Target, env: Leaves<N>, names: CNames<N>, e: Expr,
                                                    k: nat)
    requires e.Binary?
    requires Setting(A, t, env, names) && Regular(A, env, names, e, k)
    requires Plan(e, k, t).Some? && Eval(A, env, e, k).Some?
    ensures Denote(A, names, Plan(e, k, t).value) == Eval(A, env, e, k)
    decreases e, 0, 0
  {
    var l, r := e.left, e.right;
    Preserves(A, t, env, names, l, k);
    if Eval(A, env, r, k).Some? {
      Preserves(A, t, env, names, r, k);
    }
    DenoteBinary(A, names, e.op, Plan(l, k, t).value, Plan(r, k, t).value, Eval(A, env, l, k), Eval(A, env, r, k));
  }

  lemma {:induction false} PreservesUnary<N(!new)>(A: Arith<N>, t: Target, env: Leaves<N>, names: CNames<N>, e: Expr,
                                                   k: nat)
    requires e.Unary?
    requires Setting(A, t, env, names) && Regular(A, env, names, e, k)
    requires Plan(e, k, t).Some? && Eval(A, env, e, k).Some?
    ensures Denote(A, names, Plan(e, k, t).value) == Eval(A, env, e, k)
    decreases e, 0, 0
  {
    Preserves(A, t, env, names, e.operand, k);
    DenoteUnary(A, names, e.uop, Plan(e.operand, k, t).value);
  }

  lemma {:induction false} PreservesTernary<N(!new)>(A: Arith<N>, t: Target, env: Leaves<N>, names: CNames<N>,
                                                     e: Expr, k: nat)
    requires e.Ternary?
    requires Setting(A, t, env, names) && Regular(A, env, names, e, k)
    requires Plan(e, k, t).Some? && Eval(A, env, e, k).Some?
    ensures Denote(A, names, Plan(e, k, t).value) == Eval(A, env, e, k)
    decreases e, 0, 0
  {
    var c, y, n := e.cond, e.yes, e.no;
    Preserves(A, t, env, names, c, k);
    if Eval(A, env, c, k).value.b {
      Preserves(A, t, env, names, y, k);
    } else {
      Preserves(A, t, env, names, n, k);
    }
    DenoteCond(A, names, Plan(c, k, t).value, Plan(y, k, t).value, Plan(n, k, t).value);
  }

  lemma {:induction false} PreservesIndex<N(!new)>(A: Arith<N>, t: Target, env: Leaves<N>, names: CNames<N>, e: Expr,
                                                   k: nat)
    requires e.Index?
    requires Setting(A, t, env, names) && Regular(A, env, names, e, k)
    requires Plan(e, k, t).Some? && Eval(A, env, e, k).Some?
    ensures Denote(A, names, Plan(e, k, t).value) == Eval(A, env, e, k)
    decreases e, 0, 0
  {
    Preserves(A, t, env, names, e.target, k + LiteralOffset(e.index).value);
  }

  lemma {:induction false} PreservesCall<N(!new)>(A: Arith<N>, t: Target, env: Leaves<N>, names: CNames<N>, e: Expr,
                                                  k: nat)
    requires e.Call?
    requires Setting(A, t, env, names) && Regular(A, env, names, e, k)
    requires Plan(e, k, t).Some? && Eval(A, env, e, k).Some?
    ensures Denote(A, names, Plan(e, k, t).value) == Eval(A, env, e, k)
    decreases e, 0, 0
  {
    if IsTrend(e.fn) {
      PreservesTrendCall(A, t, env, names, e.fn, e.args, e.tags, k);
    } else if e.fn == "repeat" {
      PreservesRepeatCall(A, t, env, names, e.args, e.tags, k);
    } else {
      PreservesArgCall(A, t, env, names, e.fn, e.args, e.tags, k);
    }
  }

  /** The C name a literal that is not finite is printed as. */
  function LiteralName(lit: Literal): string { if lit.Infinite? then "inf" else "nan" }

  /** A finite literal, or one whose C name, with its sign, holds its value. */
  ghost predicate LiteralNamed<N>(A: Arith<N>, names: CNames<N>, lit: Literal) {
    lit.Finite? ||
    var v := names(LiteralName(lit));
    if lit.negative then v.Some? && NegateVal(A, v.value) == Some(VNum(A.literal(lit)))
    else v == Some(VNum(A.literal(lit)))
  }

  /** An emitted literal has its value if and only if it is finite or its C name holds that value. */
  lemma LiteralDenotesExactly<N(!new)>(A: Arith<N>, names: CNames<N>, lit: Literal)
    requires Ieee(A)
    ensures Denote(A, names, LiteralLayout(lit)) == Some(VNum(A.literal(lit))) <==> LiteralNamed(A, names, lit)
  {
    if lit.Finite? {
      assert Denote(A, names, Leaf(Num(lit.magnitude))) == Some(VNum(A.literal(Finite(false, lit.magnitude))));
      assert lit.negative ==> A.negate(A.literal(Finite(false, lit.magnitude))) == A.literal(lit);
    } else {
      assert Denote(A, names, Leaf(Id(LiteralName(lit)))) == names(LiteralName(lit));
    }
  }

  lemma DenoteUnary<N>(A: Arith<N>, names: CNames<N>, op: UnaryOp, p: Layout)
    requires op != OtherUnary
    ensures Denote(A, names, Paren(Un(if op == Negate then Neg else Not, p))) == UnaryEval(A, op, Denote(A, names, p))
  {
    var u := if op == Negate then Neg else Not;
    assert Tree(Paren(Un(u, p))) == CUn(u, Tree(p));
  }

  lemma DenoteCond<N>(A: Arith<N>, names: CNames<N>, c: Layout, y: Layout, n: Layout)
    requires Denote(A, names, c).Some? && Denote(A, names, c).value.VBool?
    ensures Denote(A, names, Paren(Cond(c, y, n)))
         == if Denote(A, names, c).value.b then Denote(A, names, y) else Denote(A, names, n)
  {
    assert Tree(Paren(Cond(c, y, n))) == CCond(Tree(c), Tree(y), Tree(n));
  }

  lemma DenoteBinary<N>(A: Arith<N>, names: CNames<N>, op: BinaryOp, p: Layout, q: Layout,
                        a: Option<Val<N>>, b: Option<Val<N>>)
    requires BinaryLayout(op, p, q).Some? && BinaryEval(A, op, a, b).Some?
    requires Denote(A, names, p) == a && (b.Some? ==> Denote(A, names, q) == b)
    ensures Denote(A, names, BinaryLayout(op, p, q).value) == BinaryEval(A, op, a, b)
  {
    if op == Power || op == Percent {
      DenotePair(A, names, if op == Power then "pow" else "fmod", p, q);
    } else {
      var c := Operator(op).value;
      assert Tree(Paren(Bin(c, p, q))) == CBin(c, Tree(p), Tree(q));
      OperatorMeans(A, op, a, b);
      assert CBinary(A, c, a, Denote(A, names, q)) == CBinary(A, c, a, b);
    }
  }

  /** The C operator of an operator computes what the evaluator computes. */
  lemma OperatorMeans<N>(A: Arith<N>, op: BinaryOp, a: Option<Val<N>>, b: Option<Val<N>>)
    requires Operator(op).Some? && BinaryEval(A, op, a, b).Some?
    ensures CBinary(A, Operator(op).value, a, b) == BinaryEval(A, op, a, b)
  {
    if op != And && op != Or {
      if a.value.VNum? {
        NumbersMean(A, op, a.value, b.value);
      } else {
        OthersMean(A, op, a.value, b.value);
      }
    }
  }

  lemma NumbersMean<N>(A: Arith<N>, op: BinaryOp, l: Val<N>, r: Val<N>)
    requires Operator(op).Some? && op != And && op != Or && l.VNum? && BinaryValue(A, op, l, r).Some?
    ensures Combine(A, Operator(op).value, l, r) == BinaryValue(A, op, l, r)
  {
  }

  lemma OthersMean<N>(A: Arith<N>, op: BinaryOp, l: Val<N>, r: Val<N>)
    requires Operator(op).Some? && op != And && op != Or && !l.VNum? && BinaryValue(A, op, l, r).Some?
    ensures Combine(A, Operator(op).value, l, r) == BinaryValue(A, op, l, r)
  {
  }

  lemma CEvalsCons<N>(A: Arith<N>, names: CNames<N>, c: CExpr, cs: seq<CExpr>, v: Val<N>, vs: seq<Val<N>>)
    requires CEval(A, names, c) == Some(v) && CEvals(A, names, cs) == Some(vs)
    ensures CEvals(A, names, [c] + cs) == Some([v] + vs)
  {
    assert ([c] + cs)[1..] == cs;
  }

  lemma DenotePair<N>(A: Arith<N>, names: CNames<N>, fn: string, p: Layout, q: Layout)
    requires Denote(A, names, p).Some? && Denote(A, names, q).Some?
    ensures Denote(A, names, Layout.Call(fn, [p, q]))
         == A.cFunction(fn, [Denote(A, names, p).value, Denote(A, names, q).value])
  {
    var v, w := Denote(A, names, p).value, Denote(A, names, q).value;
    CEvalsCons(A, names, Tree(q), [], w, []);
    assert [Tree(q)] + [] == [Tree(q)] && [w] + [] == [w];
    CEvalsCons(A, names, Tree(p), [Tree(q)], v, [w]);
    assert Trees([p, q]) == [Tree(p)] + [Tree(q)] && [v] + [w] == [v, w];
  }

  // ----- series -----

  lemma ShiftExact(k: nat, i: nat)
    requires k + i < UNSIGNED_LIMIT
    ensures Shift(k, i) == k + i
  {
  }

  lemma BarsAreSamples(e: Expr)
    ensures Bars(e, 2.0).Some? ==> Samples(e, 2) == Bars(e, 2.0) == Bars(e, 0.0)
    ensures Bars(e, 0.0).Some? && Samples(e, 1).Some? ==> Samples(e, 1) == Bars(e, 0.0)
  {
  }

  lemma {:induction false} PreservesSeries<N(!new)>(A: Arith<N>, t: Target, env: Leaves<N>, names: CNames<N>,
                                                    e: Expr, k: nat, i: nat)
    requires Setting(A, t, env, names) && k + i < UNSIGNED_LIMIT && Regular(A, env, names, e, k + i)
    requires Plan(e, Shift(k, i), t).Some? && Eval(A, env, e, k + i).Some?
    ensures Denote(A, names, Plan(e, Shift(k, i), t).value) == Eval(A, env, e, k + i)
    decreases e, 1, 0
  {
    ShiftExact(k, i);
    Preserves(A, t, env, names, e, k + i);
  }

  /** Bar `i` of a series is emitted with its value. */
  ghost predicate BarPreserved<N>(A: Arith<N>, t: Target, env: Leaves<N>, names: CNames<N>, e: Expr, k: nat, i: nat) {
    Plan(e, Shift(k, i), t).Some? && Eval(A, env, e, k + i).Some? ==>
      Denote(A, names, Plan(e, Shift(k, i), t).value) == Eval(A, env, e, k + i)
  }

  lemma {:induction false} PreservesBars<N(!new)>(A: Arith<N>, t: Target, env: Leaves<N>, names: CNames<N>,
                                                  e: Expr, k: nat, bars: nat)
    requires Setting(A, t, env, names) && k + bars <= UNSIGNED_LIMIT
    requires forall j: nat | k <= j < k + bars :: Regular(A, env, names, e, j)
    ensures forall i: nat | i < bars :: BarPreserved(A, t, env, names, e, k, i)
    decreases e, 2, 0
  {
    forall i: nat | i < bars ensures BarPreserved(A, t, env, names, e, k, i) {
      if Plan(e, Shift(k, i), t).Some? && Eval(A, env, e, k + i).Some? {
        PreservesSeries(A, t, env, names, e, k, i);
      }
    }
  }

  lemma DenoteAnd<N>(A: Arith<N>, names: CNames<N>, cs: seq<Layout>, b: bool, last: bool)
    requires |cs| > 1 && Denote(A, names, Chain(cs[..|cs| - 1])) == Some(VBool(b))
    requires b ==> Denote(A, names, cs[|cs| - 1]) == Some(VBool(last))
    ensures Denote(A, names, Chain(cs)) == Some(VBool(b && last))
  {
  }

  lemma DenoteComparison<N>(A: Arith<N>, names: CNames<N>, op: BinOp, p: Layout, q: Layout)
    requires IsComparison(op) && op != Ne
    requires Denote(A, names, p).Some? && Denote(A, names, p).value.VNum?
    requires Denote(A, names, q).Some? && Denote(A, names, q).value.VNum?
    ensures Denote(A, names, Bin(op, p, q))
         == Some(VBool(A.cmp(op, Denote(A, names, p).value.n, Denote(A, names, q).value.n)))
    ensures Denote(A, names, Paren(Bin(op, p, q))) == Denote(A, names, Bin(op, p, q))
  {
    assert Tree(Paren(Bin(op, p, q))) == Tree(Bin(op, p, q)) == CBin(op, Tree(p), Tree(q));
  }

  lemma {:induction false} PreservesTrend<N>(A: Arith<N>, t: Target, env: Leaves<N>, names: CNames<N>,
                                             op: BinOp, e: Expr, k: nat, n: nat)
    requires (op == Gt || op == Lt) && n > 0
    requires forall i: nat | i <= n :: BarPreserved(A, t, env, names, e, k, i)
    requires SeriesPlan(e, k, n + 1, t).Some? && TrendUpto(A, env, op, e, k, n).Some?
    ensures Denote(A, names, Chain(TrendTerms(op, SeriesPlan(e, k, n + 1, t).value)))
         == Some(VBool(TrendUpto(A, env, op, e, k, n).value))
    decreases n
  {
    TrendShape(op, e, k, n, t);
    TrendBefore(A, env, op, e, k, n);
    if TrendUpto(A, env, op, e, k, n - 1) == Some(true) {
      PreservesTrendTerm(A, t, env, names, op, e, k, n);
    }
    if n > 1 {
      PreservesTrend(A, t, env, names, op, e, k, n - 1);
    }
    TrendJoin(A, t, env, names, op, e, k, n);
  }

  lemma TrendBefore<N>(A: Arith<N>, env: Leaves<N>, op: BinOp, e: Expr, k: nat, n: nat)
    requires n > 0 && TrendUpto(A, env, op, e, k, n).Some?
    ensures var before := TrendUpto(A, env, op, e, k, n - 1);
            before.Some? && (before.value || !TrendUpto(A, env, op, e, k, n).value)
  {
  }

  /** The chain of `n` terms from the chain before it and its last term. */
  lemma TrendJoin<N>(A: Arith<N>, t: Target, env: Leaves<N>, names: CNames<N>, op: BinOp, e: Expr, k: nat, n: nat)
    requires n > 0 && SeriesPlan(e, k, n + 1, t).Some? && SeriesPlan(e, k, n, t).Some?
    requires TrendUpto(A, env, op, e, k, n).Some? && TrendUpto(A, env, op, e, k, n - 1).Some?
    requires Plan(e, Shift(k, n - 1), t).Some? && Plan(e, Shift(k, n), t).Some?
    requires TrendUpto(A, env, op, e, k, n - 1) == Some(true) ==>
               Denote(A, names, Paren(Bin(op, Plan(e, Shift(k, n - 1), t).value, Plan(e, Shift(k, n), t).value)))
               == Some(VBool(TrendUpto(A, env, op, e, k, n).value))
    requires n > 1 ==> Denote(A, names, Chain(TrendTerms(op, SeriesPlan(e, k, n, t).value)))
                       == Some(VBool(TrendUpto(A, env, op, e, k, n - 1).value))
    ensures Denote(A, names, Chain(TrendTerms(op, SeriesPlan(e, k, n + 1, t).value)))
         == Some(VBool(TrendUpto(A, env, op, e, k, n).value))
  {
    TrendShape(op, e, k, n, t);
    TrendBefore(A, env, op, e, k, n);
    TrendStarts(A, env, op, e, k);
    ChainJoin(A, names, TrendTerms(op, SeriesPlan(e, k, n + 1, t).value), TrendUpto(A, env, op, e, k, n - 1).value,
              TrendUpto(A, env, op, e, k, n).value);
  }

  lemma TrendStarts<N>(A: Arith<N>, env: Leaves<N>, op: BinOp, e: Expr, k: nat)
    ensures TrendUpto(A, env, op, e, k, 0) == Some(true)
  {
  }

  /** A chain is decided by the chain before its last term, or else by that term. */
  lemma ChainJoin<N>(A: Arith<N>, names: CNames<N>, cs: seq<Layout>, before: bool, now: bool)
    requires cs != [] && (now ==> before) && (|cs| == 1 ==> before)
    requires |cs| > 1 ==> Denote(A, names, Chain(cs[..|cs| - 1])) == Some(VBool(before))
    requires before ==> Denote(A, names, cs[|cs| - 1]) == Some(VBool(now))
    ensures Denote(A, names, Chain(cs)) == Some(VBool(now))
  {
    if |cs| > 1 {
      DenoteAnd(A, names, cs, before, now);
    }
  }

  lemma PreservesTrendTerm<N>(A: Arith<N>, t: Target, env: Leaves<N>, names: CNames<N>,
                              op: BinOp, e: Expr, k: nat, n: nat)
    requires (op == Gt || op == Lt) && n > 0
    requires BarPreserved(A, t, env, names, e, k, n - 1) && BarPreserved(A, t, env, names, e, k, n)
    requires Plan(e, Shift(k, n - 1), t).Some? && Plan(e, Shift(k, n), t).Some?
    requires TrendUpto(A, env, op, e, k, n - 1) == Some(true) && TrendUpto(A, env, op, e, k, n).Some?
    ensures Denote(A, names, Paren(Bin(op, Plan(e, Shift(k, n - 1), t).value, Plan(e, Shift(k, n), t).value)))
         == Some(VBool(TrendUpto(A, env, op, e, k, n).value))
  {
    assert k + n - 1 == k + (n - 1);
    DenoteComparison(A, names, op, Plan(e, Shift(k, n - 1), t).value, Plan(e, Shift(k, n), t).value);
  }

  /** The terms of a series one bar longer. */
  lemma TrendShape(op: BinOp, e: Expr, k: nat, n: nat, t: Target)
    requires n > 0 && SeriesPlan(e, k, n + 1, t).Some?
    ensures Plan(e, Shift(k, n - 1), t).Some? && Plan(e, Shift(k, n), t).Some? && SeriesPlan(e, k, n, t).Some?
    ensures var cs := TrendTerms(op, SeriesPlan(e, k, n + 1, t).value);
            && |cs| == n
            && cs[n - 1] == Paren(Bin(op, Plan(e, Shift(k, n - 1), t).value, Plan(e, Shift(k, n), t).value))
            && cs[..n - 1] == TrendTerms(op, SeriesPlan(e, k, n, t).value)
            && (n == 1 ==> Chain(cs) == cs[0])
  {
    var ps, front := SeriesPlan(e, k, n + 1, t).value, SeriesPlan(e, k, n, t).value;
    assert ps == front + [Plan(e, Shift(k, n), t).value];
    assert front == SeriesPlan(e, k, n - 1, t).value + [Plan(e, Shift(k, n - 1), t).value];
    assert ps[n - 1] == front[n - 1] == Plan(e, Shift(k, n - 1), t).value;
  }

  lemma {:induction false} PreservesRepeat<N>(A: Arith<N>, t: Target, env: Leaves<N>, names: CNames<N>,
                                              e: Expr, k: nat, n: nat)
    requires n > 0 && forall i: nat | i < n :: BarPreserved(A, t, env, names, e, k, i)
    requires SeriesPlan(e, k, n, t).Some? && RepeatUpto(A, env, e, k, n).Some?
    ensures Denote(A, names, Chain(RepeatTerms(SeriesPlan(e, k, n, t).value)))
         == Some(VBool(RepeatUpto(A, env, e, k, n).value))
    decreases n
  {
    RepeatShape(e, k, n, t);
    RepeatBefore(A, env, e, k, n);
    if RepeatUpto(A, env, e, k, n - 1) == Some(true) {
      PreservesRepeatTerm(A, t, env, names, e, k, n);
    }
    if n > 1 {
      PreservesRepeat(A, t, env, names, e, k, n - 1);
    }
    RepeatJoin(A, t, env, names, e, k, n);
  }

  lemma RepeatBefore<N>(A: Arith<N>, env: Leaves<N>, e: Expr, k: nat, n: nat)
    requires n > 0 && RepeatUpto(A, env, e, k, n).Some?
    ensures var before := RepeatUpto(A, env, e, k, n - 1);
            before.Some? && (before.value || !RepeatUpto(A, env, e, k, n).value)
  {
  }

  lemma RepeatJoin<N>(A: Arith<N>, t: Target, env: Leaves<N>, names: CNames<N>, e: Expr, k: nat, n: nat)
    requires n > 0 && SeriesPlan(e, k, n, t).Some? && SeriesPlan(e, k, n - 1, t).Some?
    requires RepeatUpto(A, env, e, k, n).Some? && RepeatUpto(A, env, e, k, n - 1).Some?
    requires Plan(e, Shift(k, n - 1), t).Some?
    requires RepeatUpto(A, env, e, k, n - 1) == Some(true) ==>
               Denote(A, names, Paren(Plan(e, Shift(k, n - 1), t).value))
               == Some(VBool(RepeatUpto(A, env, e, k, n).value))
    requires n > 1 ==> Denote(A, names, Chain(RepeatTerms(SeriesPlan(e, k, n - 1, t).value)))
                       == Some(VBool(RepeatUpto(A, env, e, k, n - 1).value))
    ensures Denote(A, names, Chain(RepeatTerms(SeriesPlan(e, k, n, t).value)))
         == Some(VBool(RepeatUpto(A, env, e, k, n).value))
  {
    RepeatShape(e, k, n, t);
    RepeatBefore(A, env, e, k, n);
    if n > 1 {
      DenoteAnd(A, names, RepeatTerms(SeriesPlan(e, k, n, t).value),
                RepeatUpto(A, env, e, k, n - 1).value, RepeatUpto(A, env, e, k, n).value);
    }
  }

  lemma PreservesRepeatTerm<N>(A: Arith<N>, t: Target, env: Leaves<N>, names: CNames<N>, e: Expr, k: nat, n: nat)
    requires n > 0 && BarPreserved(A, t, env, names, e, k, n - 1)
    requires Plan(e, Shift(k, n - 1), t).Some?
    requires RepeatUpto(A, env, e, k, n - 1) == Some(true) && RepeatUpto(A, env, e, k, n).Some?
    ensures Denote(A, names, Paren(Plan(e, Shift(k, n - 1), t).value))
         == Some(VBool(RepeatUpto(A, env, e, k, n).value))
  {
    assert k + n - 1 == k + (n - 1);
    DenoteParen(A, names, Plan(e, Shift(k, n - 1), t).value);
  }

  lemma RepeatShape(e: Expr, k: nat, n: nat, t: Target)
    requires n > 0 && SeriesPlan(e, k, n, t).Some?
    ensures Plan(e, Shift(k, n - 1), t).Some? && SeriesPlan(e, k, n - 1, t).Some?
    ensures var cs := RepeatTerms(SeriesPlan(e, k, n, t).value);
            && |cs| == n
            && cs[n - 1] == Paren(Plan(e, Shift(k, n - 1), t).value)
            && cs[..n - 1] == RepeatTerms(SeriesPlan(e, k, n - 1, t).value)
            && (n == 1 ==> Chain(cs) == cs[0])
  {
    var ps, front := SeriesPlan(e, k, n, t).value, SeriesPlan(e, k, n - 1, t).value;
    assert ps == front + [Plan(e, Shift(k, n - 1), t).value];
  }

  lemma {:induction false} PreservesTrendCall<N(!new)>(A: Arith<N>, t: Target, env: Leaves<N>, names: CNames<N>,
      fn: string, args: seq<Expr>, tags: seq<Option<string>>, k: nat)
    requires IsTrend(fn) && Setting(A, t, env, names) && Regular(A, env, names, Expr.Call(fn, args, tags), k)
    requires CallPlan(fn, args, tags, k, t).Some? && CallValue(A, env, fn, args, tags, k).Some?
    ensures Denote(A, names, CallPlan(fn, args, tags, k, t).value) == CallValue(A, env, fn, args, tags, k)
    decreases args, 2, 0
  {
    TrendRegular(A, env, names, fn, args, tags, k);
    TrendPlanned(t, fn, args, tags, k);
    var bars := Bars(args[1], 2.0).value;
    TrendValued(A, env, fn, args, tags, k, bars);
    PreservesBars(A, t, env, names, args[0], k, bars);
    PreservesTrendLayout(A, t, env, names, TrendOp(fn), args[0], k, bars);
  }

  function TrendOp(fn: string): BinOp { if fn == "rising" then Gt else Lt }

  lemma PreservesTrendLayout<N>(A: Arith<N>, t: Target, env: Leaves<N>, names: CNames<N>,
                                op: BinOp, e: Expr, k: nat, bars: nat)
    requires (op == Gt || op == Lt) && bars > 1
    requires forall i: nat | i < bars :: BarPreserved(A, t, env, names, e, k, i)
    requires SeriesPlan(e, k, bars, t).Some? && TrendUpto(A, env, op, e, k, bars - 1).Some?
    ensures Denote(A, names, TrendLayout(op, SeriesPlan(e, k, bars, t).value))
         == Some(VBool(TrendUpto(A, env, op, e, k, bars - 1).value))
  {
    PreservesTrend(A, t, env, names, op, e, k, bars - 1);
    DenoteParen(A, names, Chain(TrendTerms(op, SeriesPlan(e, k, bars, t).value)));
  }

  lemma DenoteParen<N>(A: Arith<N>, names: CNames<N>, p: Layout)
    ensures Denote(A, names, Paren(p)) == Denote(A, names, p)
  {
  }

  /** What `Regular` says of a trend. */
  lemma TrendRegular<N>(A: Arith<N>, env: Leaves<N>, names: CNames<N>, fn: string, args: seq<Expr>,
                        tags: seq<Option<string>>, k: nat)
    requires IsTrend(fn) && Regular(A, env, names, Expr.Call(fn, args, tags), k)
    ensures |args| == 2 && Chosen(tags, {"value"}, 0) == 0 && Chosen(tags, BAR_LABELS, 1) == 1
    ensures Bars(args[1], 2.0).Some? ==>
              && Bars(args[1], 2.0) == Bars(args[1], 0.0)
              && k + Bars(args[1], 2.0).value <= UNSIGNED_LIMIT
              && forall j: nat | k <= j < k + Bars(args[1], 2.0).value :: Regular(A, env, names, args[0], j)
  {
  }

  /** A rising or falling call with its labels in place, as it is emitted. */
  lemma TrendPlanned(t: Target, fn: string, args: seq<Expr>, tags: seq<Option<string>>, k: nat)
    requires IsTrend(fn) && CallPlan(fn, args, tags, k, t).Some?
    requires |args| == 2 && Chosen(tags, {"value"}, 0) == 0 && Chosen(tags, BAR_LABELS, 1) == 1
    ensures Bars(args[1], 2.0).Some? && Bars(args[1], 2.0).value >= 2
    ensures SeriesPlan(args[0], k, Bars(args[1], 2.0).value, t).Some?
    ensures CallPlan(fn, args, tags, k, t)
         == Some(TrendLayout(TrendOp(fn), SeriesPlan(args[0], k, Bars(args[1], 2.0).value, t).value))
  {
  }

  /** The same call as it is evaluated. */
  lemma TrendValued<N>(A: Arith<N>, env: Leaves<N>, fn: string, args: seq<Expr>, tags: seq<Option<string>>, k: nat,
                       bars: nat)
    requires IsTrend(fn) && |args| == 2 && bars >= 2 && Bars(args[1], 2.0) == Some(bars)
    requires CallValue(A, env, fn, args, tags, k).Some?
    ensures TrendUpto(A, env, TrendOp(fn), args[0], k, bars - 1).Some?
    ensures CallValue(A, env, fn, args, tags, k)
         == Some(VBool(TrendUpto(A, env, TrendOp(fn), args[0], k, bars - 1).value))
  {
    BarsAreSamples(args[1]);
  }

  lemma RepeatCall<N>(A: Arith<N>, t: Target, env: Leaves<N>, names: CNames<N>, args: seq<Expr>,
                      tags: seq<Option<string>>, k: nat)
    requires Regular(A, env, names, Expr.Call("repeat", args, tags), k)
    requires CallPlan("repeat", args, tags, k, t).Some? && CallValue(A, env, "repeat", args, tags, k).Some?
    ensures |args| == 2 && Bars(args[1], 0.0).Some? && Bars(args[1], 0.0).value > 0
    ensures var bars := Bars(args[1], 0.0).value;
            && k + bars <= UNSIGNED_LIMIT
            && (forall j: nat | k <= j < k + bars :: Regular(A, env, names, args[0], j))
            && SeriesPlan(args[0], k, bars, t).Some? && RepeatUpto(A, env, args[0], k, bars).Some?
            && CallPlan("repeat", args, tags, k, t) == Some(RepeatLayout(SeriesPlan(args[0], k, bars, t).value))
            && CallValue(A, env, "repeat", args, tags, k) == Some(VBool(RepeatUpto(A, env, args[0], k, bars).value))
  {
    BarsAreSamples(args[1]);
  }

  lemma {:induction false} PreservesRepeatCall<N(!new)>(A: Arith<N>, t: Target, env: Leaves<N>, names: CNames<N>,
      args: seq<Expr>, tags: seq<Option<string>>, k: nat)
    requires Setting(A, t, env, names) && Regular(A, env, names, Expr.Call("repeat", args, tags), k)
    requires CallPlan("repeat", args, tags, k, t).Some? && CallValue(A, env, "repeat", args, tags, k).Some?
    ensures Denote(A, names, CallPlan("repeat", args, tags, k, t).value) == CallValue(A, env, "repeat", args, tags, k)
    decreases args, 2, 0
  {
    RepeatCall(A, t, env, names, args, tags, k);
    var bars := Bars(args[1], 0.0).value;
    PreservesBars(A, t, env, names, args[0], k, bars);
    PreservesRepeat(A, t, env, names, args[0], k, bars);
    DenoteParen(A, names, Chain(RepeatTerms(SeriesPlan(args[0], k, bars, t).value)));
  }

  // ----- calls on plain arguments -----

  lemma {:induction false} PreservesArgs<N(!new)>(A: Arith<N>, t: Target, env: Leaves<N>, names: CNames<N>,
                                                  args: seq<Expr>, k: nat)
    requires Setting(A, t, env, names) && forall i | 0 <= i < |args| :: Regular(A, env, names, args[i], k)
    requires ArgPlans(args, k, t).Some? && ArgValues(A, env, args, k).Some?
    ensures var ps, vs := ArgPlans(args, k, t).value, ArgValues(A, env, args, k).value;
            && (forall i | 0 <= i < |args| :: Denote(A, names, ps[i]) == Some(vs[i]))
            && CEvals(A, names, Trees(ps)) == Some(vs)
    decreases args, 1, 0
  {
    if args != [] {
      Preserves(A, t, env, names, args[0], k);
      PreservesArgs(A, t, env, names, args[1..], k);
      var ps := ArgPlans(args, k, t).value;
      assert ps[1..] == ArgPlans(args[1..], k, t).value;
      assert Trees(ps) == [Tree(ps[0])] + Trees(ps[1..]);
      assert Trees(ps)[1..] == Trees(ps[1..]);
    }
  }

  lemma {:induction false} PreservesArgCall<N(!new)>(A: Arith<N>, t: Target, env: Leaves<N>, names: CNames<N>,
      fn: string, args: seq<Expr>, tags: seq<Option<string>>, k: nat)
    requires !IsTrend(fn) && fn != "repeat"
    requires Setting(A, t, env, names) && Regular(A, env, names, Expr.Call(fn, args, tags), k)
    requires CallPlan(fn, args, tags, k, t).Some? && CallValue(A, env, fn, args, tags, k).Some?
    ensures Denote(A, names, CallPlan(fn, args, tags, k, t).value) == CallValue(A, env, fn, args, tags, k)
    decreases args, 2, 0
  {
    if IsCross(fn, |args|) {
      CrossCall(A, t, env, names, fn, args, tags, k);
      PreservesArgs(A, t, env, names, args, k);
      PreservesArgs(A, t, env, names, args, k + 1);
      DenoteCross(A, names, fn == "cross_above", ArgPlans(args, k, t).value, ArgPlans(args, k + 1, t).value,
                  ArgValues(A, env, args, k).value, ArgValues(A, env, args, k + 1).value);
    } else if !(fn == "nan" && |args| == 0) {
      PlainCall(A, t, env, names, fn, args, tags, k);
      PreservesArgs(A, t, env, names, args, k);
      DenotePlainCall(A, t, names, fn, ArgPlans(args, k, t).value, ArgValues(A, env, args, k).value);
    }
  }

  /** A cross call, spelled out on both sides. */
  lemma CrossCall<N>(A: Arith<N>, t: Target, env: Leaves<N>, names: CNames<N>, fn: string, args: seq<Expr>,
                     tags: seq<Option<string>>, k: nat)
    requires IsCross(fn, |args|) && Regular(A, env, names, Expr.Call(fn, args, tags), k)
    requires CallPlan(fn, args, tags, k, t).Some? && CallValue(A, env, fn, args, tags, k).Some?
    ensures forall i | 0 <= i < |args| :: Regular(A, env, names, args[i], k) && Regular(A, env, names, args[i], k + 1)
    ensures ArgPlans(args, k, t).Some? && ArgPlans(args, k + 1, t).Some?
    ensures ArgValues(A, env, args, k).Some? && ArgValues(A, env, args, k + 1).Some?
    ensures var now, before := ArgValues(A, env, args, k).value, ArgValues(A, env, args, k + 1).value;
            && CallPlan(fn, args, tags, k, t)
                 == Some(CrossLayout(fn == "cross_above", ArgPlans(args, k, t).value, ArgPlans(args, k + 1, t).value))
            && AllNumbers(now) && AllNumbers(before)
            && CallValue(A, env, fn, args, tags, k) == Some(VBool(Crossed(A, fn == "cross_above", now, before)))
  {
    ShiftExact(k, 1);
  }

  /** The layout and the value of a call that is neither a series nor a cross, from its arguments. */
  function PlainLayout(t: Target, fn: string, ps: seq<Layout>): Option<Layout> {
    if IsWithin(fn, |ps|) then Some(WithinLayout(ps))
    else if IsExtreme(fn, |ps|) then Some(ExtremeLayout(if fn == "min" then "fmin" else "fmax", ps))
    else if MappedFunction(t, fn, |ps|).None? then None
    else Some(Layout.Call(MappedFunction(t, fn, |ps|).value, ps))
  }

  lemma PlainCall<N>(A: Arith<N>, t: Target, env: Leaves<N>, names: CNames<N>, fn: string, args: seq<Expr>,
                     tags: seq<Option<string>>, k: nat)
    requires !IsTrend(fn) && fn != "repeat" && !IsCross(fn, |args|) && !(fn == "nan" && |args| == 0)
    requires Regular(A, env, names, Expr.Call(fn, args, tags), k)
    requires CallPlan(fn, args, tags, k, t).Some? && CallValue(A, env, fn, args, tags, k).Some?
    ensures forall i | 0 <= i < |args| :: Regular(A, env, names, args[i], k)
    ensures ArgPlans(args, k, t).Some? && ArgValues(A, env, args, k).Some?
    ensures CallPlan(fn, args, tags, k, t) == PlainLayout(t, fn, ArgPlans(args, k, t).value)
    ensures CallValue(A, env, fn, args, tags, k) == PlainValue(A, fn, ArgValues(A, env, args, k).value)
    ensures IsExtreme(fn, |args|) && |args| > 1 ==>
              var first := ArgValues(A, env, args, k).value[0]; first.VNum? ==> !A.isNaN(first.n)
  {
    PlainRegular(A, env, names, fn, args, tags, k);
    PlainCallValue(A, env, fn, args, tags, k);
  }

  predicate IsPlain(fn: string, argc: nat) { !IsTrend(fn) && fn != "repeat" && !IsCross(fn, argc) }

  lemma PlainRegular<N>(A: Arith<N>, env: Leaves<N>, names: CNames<N>, fn: string, args: seq<Expr>,
                        tags: seq<Option<string>>, k: nat)
    requires IsPlain(fn, |args|) && Regular(A, env, names, Expr.Call(fn, args, tags), k)
    ensures forall i | 0 <= i < |args| :: Regular(A, env, names, args[i], k)
    ensures ArgSlots(A, fn, |args|, tags).Some? ==> ArgSlots(A, fn, |args|, tags) == Some(Identity(|args|))
    ensures IsExtreme(fn, |args|) && |args| > 1 && ArgValues(A, env, args, k).Some? ==>
              var first := ArgValues(A, env, args, k).value[0]; first.VNum? ==> !A.isNaN(first.n)
  {
  }

  /** A call whose labels leave the arguments in place has the value of its arguments in order. */
  lemma PlainCallValue<N>(A: Arith<N>, env: Leaves<N>, fn: string, args: seq<Expr>, tags: seq<Option<string>>, k: nat)
    requires IsPlain(fn, |args|) && CallValue(A, env, fn, args, tags, k).Some?
    requires ArgSlots(A, fn, |args|, tags).Some? ==> ArgSlots(A, fn, |args|, tags) == Some(Identity(|args|))
    ensures ArgValues(A, env, args, k).Some?
    ensures CallValue(A, env, fn, args, tags, k) == PlainValue(A, fn, ArgValues(A, env, args, k).value)
  {
    var vs: seq<Val<N>> := ArgValues(A, env, args, k).value;
    ArrangedInPlace(vs, VBool(true));
  }

  lemma DenotePlainCall<N(!new)>(A: Arith<N>, t: Target, names: CNames<N>, fn: string,
                                 ps: seq<Layout>, vs: seq<Val<N>>)
    requires Ieee(A) && FunctionsAgree(A, t) && |ps| == |vs|
    requires PlainLayout(t, fn, ps).Some? && PlainValue(A, fn, vs).Some?
    requires forall i | 0 <= i < |ps| :: Denote(A, names, ps[i]) == Some(vs[i])
    requires CEvals(A, names, Trees(ps)) == Some(vs)
    requires IsExtreme(fn, |vs|) && |vs| > 1 && vs[0].VNum? ==> !A.isNaN(vs[0].n)
    ensures Denote(A, names, PlainLayout(t, fn, ps).value) == PlainValue(A, fn, vs)
  {
    if IsWithin(fn, |vs|) {
      DenoteWithin(A, names, ps, vs);
    } else if IsExtreme(fn, |vs|) {
      DenoteExtreme(A, names, fn == "min", ps, vs);
      if |vs| > 1 {
        ExtremesEqual(A, if fn == "min" then Lt else Gt, vs);
      }
    } else {
      DenoteCall(A, names, MappedFunction(t, fn, |vs|).value, ps, vs);
    }
  }

  lemma DenoteCall<N>(A: Arith<N>, names: CNames<N>, fn: string, ps: seq<Layout>, vs: seq<Val<N>>)
    requires CEvals(A, names, Trees(ps)) == Some(vs)
    ensures Denote(A, names, Layout.Call(fn, ps)) == A.cFunction(fn, vs)
  {
  }

  lemma DenoteCross<N>(A: Arith<N>, names: CNames<N>, above: bool, now: seq<Layout>, before: seq<Layout>,
                       vNow: seq<Val<N>>, vBefore: seq<Val<N>>)
    requires |now| == |before| == |vNow| == |vBefore| == 2 && AllNumbers(vNow) && AllNumbers(vBefore)
    requires forall i | 0 <= i < 2 :: Denote(A, names, now[i]) == Some(vNow[i])
    requires forall i | 0 <= i < 2 :: Denote(A, names, before[i]) == Some(vBefore[i])
    ensures Denote(A, names, CrossLayout(above, now, before)) == Some(VBool(Crossed(A, above, vNow, vBefore)))
  {
    var l, r := Bin(if above then Gt else Lt, now[0], now[1]), Bin(if above then Le else Ge, before[0], before[1]);
    DenoteComparison(A, names, l.op, now[0], now[1]);
    DenoteComparison(A, names, r.op, before[0], before[1]);
    DenoteBoth(A, names, l, r);
  }

  lemma DenoteBoth<N>(A: Arith<N>, names: CNames<N>, l: Layout, r: Layout)
    requires Denote(A, names, l).Some? && Denote(A, names, l).value.VBool?
    requires Denote(A, names, r).Some? && Denote(A, names, r).value.VBool?
    ensures Denote(A, names, Paren(Bin(AndAnd, l, r)))
         == Some(VBool(Denote(A, names, l).value.b && Denote(A, names, r).value.b))
  {
    assert Tree(Paren(Bin(AndAnd, l, r))) == CBin(AndAnd, Tree(l), Tree(r));
  }

  lemma DenoteWithin<N>(A: Arith<N>, names: CNames<N>, ps: seq<Layout>, vs: seq<Val<N>>)
    requires 3 <= |ps| == |vs| <= 5 && WithinValue(A, vs).Some?
    requires forall i | 0 <= i < |ps| :: Denote(A, names, ps[i]) == Some(vs[i])
    ensures Denote(A, names, WithinLayout(ps)) == WithinValue(A, vs)
  {
    DenoteBound(A, names, ps, vs, 1, 3, Ge, Gt);
    DenoteBound(A, names, ps, vs, 2, 4, Le, Lt);
    DenoteBoth(A, names, BoundLayout(ps, 1, 3, Ge, Gt), BoundLayout(ps, 2, 4, Le, Lt));
  }

  lemma DenoteBound<N>(A: Arith<N>, names: CNames<N>, ps: seq<Layout>, vs: seq<Val<N>>,
                       bound: nat, flag: nat, inclusive: BinOp, exclusive: BinOp)
    requires bound < |ps| == |vs| && vs[0].VNum? && vs[bound].VNum? && (flag < |vs| ==> vs[flag].VBool?)
    requires IsComparison(inclusive) && inclusive != Ne && IsComparison(exclusive) && exclusive != Ne
    requires forall i | 0 <= i < |ps| :: Denote(A, names, ps[i]) == Some(vs[i])
    ensures Denote(A, names, BoundLayout(ps, bound, flag, inclusive, exclusive))
         == Some(VBool(A.cmp(if flag < |vs| && !vs[flag].b then exclusive else inclusive, vs[0].n, vs[bound].n)))
  {
    DenoteComparison(A, names, inclusive, ps[0], ps[bound]);
    DenoteComparison(A, names, exclusive, ps[0], ps[bound]);
    if flag < |ps| {
      var c := Cond(ps[flag], Bin(inclusive, ps[0], ps[bound]), Bin(exclusive, ps[0], ps[bound]));
      assert Tree(Paren(c)) == CCond(Tree(ps[flag]), Tree(c.yes), Tree(c.no));
    }
  }

  lemma {:induction false} DenoteExtreme<N(!new)>(A: Arith<N>, names: CNames<N>, min: bool,
                                                  ps: seq<Layout>, vs: seq<Val<N>>)
    requires Ieee(A) && 0 < |ps| == |vs| && AllNumbers(vs)
    requires forall i | 0 <= i < |ps| :: Denote(A, names, ps[i]) == Some(vs[i])
    ensures Denote(A, names, ExtremeLayout(if min then "fmin" else "fmax", ps))
         == Some(VNum(CExtremes(A, if min then Lt else Gt, vs)))
  {
    if |ps| > 1 {
      DenoteExtreme(A, names, min, ps[..|ps| - 1], vs[..|vs| - 1]);
      DenotePair(A, names, if min then "fmin" else "fmax",
                 ExtremeLayout(if min then "fmin" else "fmax", ps[..|ps| - 1]), ps[|ps| - 1]);
    }
  }

  // ----- the whole way, and what offsets mean -----

  /**
   End to end: the emitted text, read with C's grammar, is one expression with the value the
   evaluator gives at the same offset.
   */
  lemma EmittedTextMeans<N(!new)>(A: Arith<N>, t: Target, env: Leaves<N>, names: CNames<N>, e: Expr, k: nat)
    requires Setting(A, t, env, names) && Regular(A, env, names, e, k) && Printable(e)
    requires Plan(e, k, t).Some? && Eval(A, env, e, k).Some?
    ensures var read := ReadBack(Print(Plan(e, k, t).value));
            read.Ok? && read.rest == [] && CEval(A, names, read.value) == Eval(A, env, e, k)
  {
    EmittedTextReadsBack(e, k, t);
    Preserves(A, t, env, names, e, k);
  }

  /** Leaves read `d` bars further back. */
  function Delayed<N>(env: Leaves<N>, d: nat): Leaves<N> {
    (e: Expr, k: nat) => env(e, k + d)
  }

  /** An offset does nothing but move every leaf that far back. */
  lemma {:induction false} OffsetMovesLeaves<N>(A: Arith<N>, env: Leaves<N>, e: Expr, k: nat, d: nat)
    ensures Eval(A, env, e, k + d) == Eval(A, Delayed(env, d), e, k)
    decreases e, 0, 0
  {
    match e
    case Binary(_, l, r) => OffsetMovesLeaves(A, env, l, k, d); OffsetMovesLeaves(A, env, r, k, d);
    case Unary(_, x) => OffsetMovesLeaves(A, env, x, k, d);
    case Ternary(c, y, n) =>
      OffsetMovesLeaves(A, env, c, k, d);
      OffsetMovesLeaves(A, env, y, k, d);
      OffsetMovesLeaves(A, env, n, k, d);
    case Index(target, index) =>
      if LiteralOffset(index).Some? {
        var n := LiteralOffset(index).value;
        assert k + d + n == k + n + d;
        OffsetMovesLeaves(A, env, target, k + n, d);
      }
    case Call(fn, args, tags) => OffsetMovesCall(A, env, fn, args, tags, k, d);
    case _ =>
  }

  lemma {:induction false} OffsetMovesCall<N>(A: Arith<N>, env: Leaves<N>, fn: string, args: seq<Expr>,
                                              tags: seq<Option<string>>, k: nat, d: nat)
    ensures CallValue(A, env, fn, args, tags, k + d) == CallValue(A, Delayed(env, d), fn, args, tags, k)
    decreases args, 2, 0
  {
    if IsTrend(fn) {
      if |args| == 2 && Samples(args[1], 2).Some? {
        OffsetMovesTrend(A, env, if fn == "rising" then Gt else Lt, args[0], k, Samples(args[1], 2).value - 1, d);
      }
    } else if fn == "repeat" {
      if |args| == 2 && Samples(args[1], 1).Some? {
        OffsetMovesRepeat(A, env, args[0], k, Samples(args[1], 1).value, d);
      }
    } else {
      OffsetMovesArgs(A, env, args, k, d);
      assert k + d + 1 == k + 1 + d;
      OffsetMovesArgs(A, env, args, k + 1, d);
    }
  }

  lemma {:induction false} OffsetMovesTrend<N>(A: Arith<N>, env: Leaves<N>, op: BinOp, e: Expr, k: nat, n: nat, d: nat)
    ensures TrendUpto(A, env, op, e, k + d, n) == TrendUpto(A, Delayed(env, d), op, e, k, n)
    decreases e, 1, n
  {
    if n > 0 {
      OffsetMovesTrend(A, env, op, e, k, n - 1, d);
      OffsetMovesLeaves(A, env, e, k + n - 1, d);
      OffsetMovesLeaves(A, env, e, k + n, d);
      TrendsStayEqual(A, env, Delayed(env, d), op, e, k + d, k, n - 1);
    }
  }

  /** Trends over two series stay equal while the bars they read are equal. */
  lemma TrendsStayEqual<N>(A: Arith<N>, f: Leaves<N>, g: Leaves<N>, op: BinOp, e: Expr, i: nat, j: nat, n: nat)
    requires TrendUpto(A, f, op, e, i, n) == TrendUpto(A, g, op, e, j, n)
    requires Eval(A, f, e, i + n) == Eval(A, g, e, j + n) && Eval(A, f, e, i + n + 1) == Eval(A, g, e, j + n + 1)
    ensures TrendUpto(A, f, op, e, i, n + 1) == TrendUpto(A, g, op, e, j, n + 1)
  {
  }

  lemma {:induction false} OffsetMovesRepeat<N>(A: Arith<N>, env: Leaves<N>, e: Expr, k: nat, n: nat, d: nat)
    ensures RepeatUpto(A, env, e, k + d, n) == RepeatUpto(A, Delayed(env, d), e, k, n)
    decreases e, 1, n
  {
    if n > 0 {
      OffsetMovesRepeat(A, env, e, k, n - 1, d);
      OffsetMovesLeaves(A, env, e, k + n - 1, d);
      RepeatsStayEqual(A, env, Delayed(env, d), e, k + d, k, n - 1);
    }
  }

  lemma RepeatsStayEqual<N>(A: Arith<N>, f: Leaves<N>, g: Leaves<N>, e: Expr, i: nat, j: nat, n: nat)
    requires RepeatUpto(A, f, e, i, n) == RepeatUpto(A, g, e, j, n) && Eval(A, f, e, i + n) == Eval(A, g, e, j + n)
    ensures RepeatUpto(A, f, e, i, n + 1) == RepeatUpto(A, g, e, j, n + 1)
  {
  }

  lemma {:induction false} OffsetMovesArgs<N>(A: Arith<N>, env: Leaves<N>, args: seq<Expr>, k: nat, d: nat)
    ensures ArgValues(A, env, args, k + d) == ArgValues(A, Delayed(env, d), args, k)
    decreases args, 0, 0
  {
    if args != [] {
      OffsetMovesLeaves(A, env, args[0], k, d);
      OffsetMovesArgs(A, env, args[1..], k, d);
    }
  }

  lemma NestedPlan(t: Target, e: Expr, n: Expr, m: Expr, sum: Expr, k: nat)
    requires LiteralOffset(n).Some? && LiteralOffset(m).Some?
    requires LiteralOffset(sum) == Some(LiteralOffset(n).value + LiteralOffset(m).value)
    ensures Plan(Index(Index(e, n), m), k, t) == Plan(Index(e, sum), k, t)
  {
    var a, b := LiteralOffset(n).value, LiteralOffset(m).value;
    assert AddOffset(k, b).Some? && AddOffset(k + b, a).Some? <==> AddOffset(k, a + b).Some?;
    assert k + b + a == k + (a + b);
    assert Plan(Index(Index(e, n), m), k, t)
        == if AddOffset(k, b).Some? then Plan(Index(e, n), k + b, t) else None;
  }

  /** `e[n][m]` is `e[n + m]`, for the emitter and for the evaluator. */
  lemma NestedLookback<N>(A: Arith<N>, env: Leaves<N>, t: Target, e: Expr, n: Expr, m: Expr, sum: Expr, k: nat)
    requires LiteralOffset(n).Some? && LiteralOffset(m).Some?
    requires LiteralOffset(sum) == Some(LiteralOffset(n).value + LiteralOffset(m).value)
    ensures Plan(Index(Index(e, n), m), k, t) == Plan(Index(e, sum), k, t)
    ensures Eval(A, env, Index(Index(e, n), m), k) == Eval(A, env, Index(e, sum), k)
  {
    NestedPlan(t, e, n, m, sum, k);
    NestedValue(A, env, e, n, m, sum, k);
  }

  lemma NestedValue<N>(A: Arith<N>, env: Leaves<N>, e: Expr, n: Expr, m: Expr, sum: Expr, k: nat)
    requires LiteralOffset(n).Some? && LiteralOffset(m).Some?
    requires LiteralOffset(sum) == Some(LiteralOffset(n).value + LiteralOffset(m).value)
    ensures Eval(A, env, Index(Index(e, n), m), k) == Eval(A, env, Index(e, sum), k)
  {
    var near := k + LiteralOffset(m).value;
    var far := near + LiteralOffset(n).value;
    LookbackValue(A, env, Index(e, n), m, k, near);
    LookbackValue(A, env, e, n, near, far);
    LookbackValue(A, env, e, sum, k, far);
  }

  lemma LookbackValue<N>(A: Arith<N>, env: Leaves<N>, e: Expr, n: Expr, k: nat, at: nat)
    requires LiteralOffset(n).Some? && at == k + LiteralOffset(n).value
    ensures Eval(A, env, Index(e, n), k) == Eval(A, env, e, at)
  {
  }
}
