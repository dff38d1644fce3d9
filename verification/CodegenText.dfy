/** Every text the transpiler emits is self-delimiting C, and exactly when it reads back as meant. */
module CodegenText {
  import opened Common
  import opened CSyntax
  import opened CPrintParse
  import opened Codegen

  /** A layout that can stand as an operand anywhere. */
  predicate Operand(p: Layout) {
    WellParenthesised(p) && Strength(p) >= 7
  }

  predicate Operands(ps: seq<Layout>) {
    forall i | 0 <= i < |ps| :: Operand(ps[i])
  }

  lemma {:induction false} ChainWell(cs: seq<Layout>)
    requires cs != [] && forall i | 0 <= i < |cs| :: WellParenthesised(cs[i]) && Strength(cs[i]) == 8
    ensures WellParenthesised(Chain(cs)) && Strength(Chain(cs)) >= 2
  {
    if |cs| > 1 {
      ChainWell(cs[..|cs| - 1]);
    }
  }

  lemma {:induction false} ExtremeWell(fn: string, ps: seq<Layout>)
    requires ps != [] && Operands(ps)
    ensures Operand(ExtremeLayout(fn, ps))
  {
    if |ps| > 1 {
      ExtremeWell(fn, ps[..|ps| - 1]);
    }
  }

  /** Every successful emission is an operand: it binds at least as tightly as a unary expression. */
  lemma {:induction false} PlanWell(e: Expr, k: nat, t: Target)
    ensures Plan(e, k, t).Some? ==> Operand(Plan(e, k, t).value)
    decreases e, 0, 0
  {
    match e
    case Binary(_, l, r) => PlanWell(l, k, t); PlanWell(r, k, t);
    case Unary(_, x) => PlanWell(x, k, t);
    case Ternary(c, y, n) => PlanWell(c, k, t); PlanWell(y, k, t); PlanWell(n, k, t);
    case Call(fn, args, tags) => CallWell(fn, args, tags, k, t);
    case Index(target, index) =>
      if LiteralOffset(index).Some? && AddOffset(k, LiteralOffset(index).value).Some? {
        PlanWell(target, AddOffset(k, LiteralOffset(index).value).value, t);
      }
    case _ =>
  }

  lemma {:induction false} CallWell(fn: string, args: seq<Expr>, tags: seq<Option<string>>, k: nat, t: Target)
    ensures CallPlan(fn, args, tags, k, t).Some? ==> Operand(CallPlan(fn, args, tags, k, t).value)
    decreases args, 2, 0
  {
    if IsTrend(fn) || fn == "repeat" {
      if |args| == 2 {
        SeriesCallWell(fn, args, tags, k, t);
      }
    } else {
      ArgsWell(args, k, t);
      if IsCross(fn, |args|) {
        ArgsWell(args, Shift(k, 1), t);
        var now, before := ArgPlans(args, k, t), ArgPlans(args, Shift(k, 1), t);
        if now.Some? && before.Some? {
          CrossWell(fn == "cross_above", now.value, before.value);
        }
      } else if IsWithin(fn, |args|) && ArgPlans(args, k, t).Some? {
        WithinWell(ArgPlans(args, k, t).value);
      } else if IsExtreme(fn, |args|) && ArgPlans(args, k, t).Some? {
        ExtremeWell(if fn == "min" then "fmin" else "fmax", ArgPlans(args, k, t).value);
      }
    }
  }

  lemma {:induction false} SeriesCallWell(fn: string, args: seq<Expr>, tags: seq<Option<string>>, k: nat, t: Target)
    requires |args| == 2 && (IsTrend(fn) || fn == "repeat")
    ensures CallPlan(fn, args, tags, k, t).Some? ==> Operand(CallPlan(fn, args, tags, k, t).value)
    decreases args, 1, 0
  {
    var trend := IsTrend(fn);
    var value := args[Chosen(tags, if trend then {"value"} else {"condition"}, 0)];
    var bars := Bars(args[Chosen(tags, BAR_LABELS, 1)], if trend then 2.0 else 0.0);
    if bars.Some? && bars.value > 0 {
      SeriesWell(value, k, bars.value, t);
      var ps := SeriesPlan(value, k, bars.value, t);
      if ps.Some? && trend {
        TrendWell(if fn == "rising" then Gt else Lt, ps.value);
      } else if ps.Some? {
        RepeatWell(ps.value);
      }
    }
  }

  lemma WithinWell(ps: seq<Layout>)
    requires 3 <= |ps| <= 5 && Operands(ps)
    ensures Operand(WithinLayout(ps))
  {
    BoundWell(ps, 1, 3, Ge, Gt);
    BoundWell(ps, 2, 4, Le, Lt);
    var both := Bin(AndAnd, BoundLayout(ps, 1, 3, Ge, Gt), BoundLayout(ps, 2, 4, Le, Lt));
    assert WellParenthesised(both);
  }

  lemma BoundWell(ps: seq<Layout>, bound: nat, flag: nat, inclusive: BinOp, exclusive: BinOp)
    requires bound < |ps| && Operands(ps) && Level(inclusive) == Level(exclusive) == 4
    ensures var p := BoundLayout(ps, bound, flag, inclusive, exclusive);
            WellParenthesised(p) && Strength(p) > Level(AndAnd)
  {
    var closed, open := Bin(inclusive, ps[0], ps[bound]), Bin(exclusive, ps[0], ps[bound]);
    assert WellParenthesised(closed) && Strength(closed) == 4;
    assert WellParenthesised(open);
    if flag < |ps| {
      assert WellParenthesised(Cond(ps[flag], closed, open));
    }
  }

  lemma CrossWell(above: bool, now: seq<Layout>, before: seq<Layout>)
    requires |now| == |before| == 2 && Operands(now) && Operands(before)
    ensures Operand(CrossLayout(above, now, before))
  {
    var a := Bin(if above then Gt else Lt, now[0], now[1]);
    var b := Bin(if above then Le else Ge, before[0], before[1]);
    assert WellParenthesised(a) && Strength(a) == 4;
    assert WellParenthesised(b) && Strength(b) == 4;
    assert WellParenthesised(Bin(AndAnd, a, b));
  }

  lemma TrendWell(op: BinOp, ps: seq<Layout>)
    requires |ps| >= 2 && Operands(ps) && (op == Gt || op == Lt)
    ensures Operand(TrendLayout(op, ps))
  {
    var cs := TrendTerms(op, ps);
    forall i | 0 <= i < |cs| ensures WellParenthesised(cs[i]) && Strength(cs[i]) == 8 {
      CompareWell(op, ps[i], ps[i + 1]);
    }
    ChainWell(cs);
  }

  lemma CompareWell(op: BinOp, l: Layout, r: Layout)
    requires Operand(l) && Operand(r) && (op == Gt || op == Lt)
    ensures WellParenthesised(Paren(Bin(op, l, r))) && Strength(Paren(Bin(op, l, r))) == 8
  {
    assert WellParenthesised(Bin(op, l, r));
  }

  lemma RepeatWell(ps: seq<Layout>)
    requires ps != [] && Operands(ps)
    ensures Operand(RepeatLayout(ps))
  {
    ChainWell(RepeatTerms(ps));
  }

  lemma {:induction false} ArgsWell(args: seq<Expr>, k: nat, t: Target)
    ensures ArgPlans(args, k, t).Some? ==> Operands(ArgPlans(args, k, t).value)
    decreases args, 0, 0
  {
    if args != [] {
      PlanWell(args[0], k, t);
      ArgsWell(args[1..], k, t);
    }
  }

  lemma {:induction false} SeriesWell(e: Expr, k: nat, n: nat, t: Target)
    ensures SeriesPlan(e, k, n, t).Some? ==> Operands(SeriesPlan(e, k, n, t).value)
    decreases e, 1, n
  {
    if n > 0 {
      SeriesWell(e, k, n - 1, t);
      PlanWell(e, Shift(k, n - 1), t);
    }
  }

  // ----- the double-minus condition on expressions -----

  /** The text of this expression starts with a minus sign. */
  predicate SignFirst(e: Expr) {
    match e
    case Number(lit) => lit.negative
    case Index(target, _) => SignFirst(target)
    case Call(fn, args, _) => IsExtreme(fn, |args|) && |args| == 1 && SignFirst(args[0])
    case _ => false
  }

  /** No unary minus stands over an expression whose text starts with a minus sign. */
  predicate Printable(e: Expr) {
    match e
    case Binary(_, l, r) => Printable(l) && Printable(r)
    case Unary(op, x) => (op == Negate ==> !SignFirst(x)) && Printable(x)
    case Ternary(c, y, n) => Printable(c) && Printable(y) && Printable(n)
    case Index(target, _) => Printable(target)
    case Call(fn, args, tags) =>
      if IsTrend(fn) && |args| == 2 then Printable(args[Chosen(tags, {"value"}, 0)])
      else if fn == "repeat" && |args| == 2 then
        Bars(args[Chosen(tags, BAR_LABELS, 1)], 0.0) == Some(0) || Printable(args[Chosen(tags, {"condition"}, 0)])
      else forall i | 0 <= i < |args| :: Printable(args[i])
    case _ => true
  }

  /** Among operands, only a negation prints a minus sign first. */
  lemma OperandSign(p: Layout)
    requires Operand(p)
    ensures Print(p)[..1] == [MINUS] <==> p.Un? && p.uop == Neg
  {
    match p
    case Leaf(t) => assert [T(t)][..1] == [T(t)];
    case Paren(x) => assert Print(p)[0] == T(LParen);
    case Un(op, x) => assert Print(p)[0] == T(UnTok(op));
    case Call(f, args) => assert Print(p)[0] == T(Id(f));
  }

  lemma {:induction false} PlanSign(e: Expr, k: nat, t: Target)
    requires Plan(e, k, t).Some?
    ensures var p := Plan(e, k, t).value; (p.Un? && p.uop == Neg) <==> SignFirst(e)
  {
    match e
    case Index(target, index) => PlanSign(target, AddOffset(k, LiteralOffset(index).value).value, t);
    case Call(fn, args, tags) =>
      if IsExtreme(fn, |args|) && |args| == 1 {
        assert ArgPlans(args[1..], k, t) == Some([]);
        assert ArgPlans(args, k, t).value == [Plan(args[0], k, t).value];
        PlanSign(args[0], k, t);
      }
    case _ =>
  }

  predicate AllPlain(ps: seq<Layout>) {
    forall i | 0 <= i < |ps| :: NoDoubleMinus(ps[i])
  }

  lemma AllPlainSnoc(ps: seq<Layout>)
    requires ps != []
    ensures AllPlain(ps) <==> AllPlain(ps[..|ps| - 1]) && NoDoubleMinus(ps[|ps| - 1])
  {
    var front := ps[..|ps| - 1];
    if AllPlain(front) && NoDoubleMinus(ps[|ps| - 1]) {
      forall i | 0 <= i < |ps| ensures NoDoubleMinus(ps[i]) {
        assert i < |front| ==> ps[i] == front[i];
      }
    }
  }

  lemma {:induction false} ChainPlain(cs: seq<Layout>)
    requires cs != []
    ensures NoDoubleMinus(Chain(cs)) <==> AllPlain(cs)
  {
    AllPlainSnoc(cs);
    if |cs| > 1 {
      ChainPlain(cs[..|cs| - 1]);
    }
  }

  lemma PairPlain(fn: string, a: Layout, b: Layout)
    ensures NoDoubleMinus(Layout.Call(fn, [a, b])) <==> NoDoubleMinus(a) && NoDoubleMinus(b)
  {
    var args := [a, b];
    assert args[0] == a && args[1] == b;
  }

  lemma {:induction false} ExtremePlain(fn: string, ps: seq<Layout>)
    requires ps != []
    ensures NoDoubleMinus(ExtremeLayout(fn, ps)) <==> AllPlain(ps)
  {
    AllPlainSnoc(ps);
    if |ps| > 1 {
      ExtremePlain(fn, ps[..|ps| - 1]);
      PairPlain(fn, ExtremeLayout(fn, ps[..|ps| - 1]), ps[|ps| - 1]);
    }
  }

  lemma {:induction false} PlanPlain(e: Expr, k: nat, t: Target)
    requires Plan(e, k, t).Some?
    ensures NoDoubleMinus(Plan(e, k, t).value) <==> Printable(e)
    decreases e, 0, 1
  {
    match e
    case Binary(_, _, _) => BinaryPlain(e, k, t);
    case Unary(_, _) => UnaryPlain(e, k, t);
    case Ternary(c, y, n) => PlanPlain(c, k, t); PlanPlain(y, k, t); PlanPlain(n, k, t);
    case Index(target, index) => PlanPlain(target, AddOffset(k, LiteralOffset(index).value).value, t);
    case Call(fn, args, tags) =>
      if IsTrend(fn) || fn == "repeat" {
        SeriesCallPlain(fn, args, tags, k, t);
      } else {
        ArgCallPlain(fn, args, tags, k, t);
      }
    case Number(lit) =>
      assert forall tok :: [T(tok)][..1] == [T(tok)];
    case _ =>
  }

  lemma {:induction false} BinaryPlain(e: Expr, k: nat, t: Target)
    requires e.Binary? && Plan(e, k, t).Some?
    ensures NoDoubleMinus(Plan(e, k, t).value) <==> Printable(e)
    decreases e, 0, 0
  {
    PlanPlain(e.left, k, t);
    PlanPlain(e.right, k, t);
    PairPlain("pow", Plan(e.left, k, t).value, Plan(e.right, k, t).value);
    PairPlain("fmod", Plan(e.left, k, t).value, Plan(e.right, k, t).value);
  }

  lemma {:induction false} UnaryPlain(e: Expr, k: nat, t: Target)
    requires e.Unary? && Plan(e, k, t).Some?
    ensures NoDoubleMinus(Plan(e, k, t).value) <==> Printable(e)
    decreases e, 0, 0
  {
    PlanPlain(e.operand, k, t);
    PlanWell(e.operand, k, t);
    OperandSign(Plan(e.operand, k, t).value);
    PlanSign(e.operand, k, t);
  }

  lemma {:induction false} SeriesCallPlain(fn: string, args: seq<Expr>, tags: seq<Option<string>>, k: nat, t: Target)
    requires (IsTrend(fn) || fn == "repeat") && CallPlan(fn, args, tags, k, t).Some?
    ensures NoDoubleMinus(CallPlan(fn, args, tags, k, t).value) <==> Printable(Expr.Call(fn, args, tags))
    decreases args, 2, 0
  {
    var trend := IsTrend(fn);
    var value := args[Chosen(tags, if trend then {"value"} else {"condition"}, 0)];
    var bars := Bars(args[Chosen(tags, BAR_LABELS, 1)], if trend then 2.0 else 0.0).value;
    if bars > 0 {
      SeriesPlain(value, k, bars, t);
      var ps := SeriesPlan(value, k, bars, t).value;
      if trend {
        TrendPlain(if fn == "rising" then Gt else Lt, ps);
      } else {
        RepeatPlain(ps);
      }
    }
  }

  lemma BinPlain(op: BinOp, l: Layout, r: Layout)
    ensures NoDoubleMinus(Paren(Bin(op, l, r))) <==> NoDoubleMinus(l) && NoDoubleMinus(r)
    ensures NoDoubleMinus(Bin(op, l, r)) <==> NoDoubleMinus(l) && NoDoubleMinus(r)
  {
    assert NoDoubleMinus(Paren(Bin(op, l, r))) <==> NoDoubleMinus(Bin(op, l, r));
  }

  lemma TrendPlain(op: BinOp, ps: seq<Layout>)
    requires |ps| >= 2
    ensures NoDoubleMinus(TrendLayout(op, ps)) <==> AllPlain(ps)
  {
    var cs := TrendTerms(op, ps);
    ChainPlain(cs);
    forall i | 0 <= i < |cs| ensures NoDoubleMinus(cs[i]) <==> NoDoubleMinus(ps[i]) && NoDoubleMinus(ps[i + 1]) {
      BinPlain(op, ps[i], ps[i + 1]);
    }
    if AllPlain(cs) {
      forall i | 0 <= i < |ps| ensures NoDoubleMinus(ps[i]) {
        assert NoDoubleMinus(cs[if i < |cs| then i else i - 1]);
      }
    }
  }

  lemma RepeatPlain(ps: seq<Layout>)
    requires ps != []
    ensures NoDoubleMinus(RepeatLayout(ps)) <==> AllPlain(ps)
  {
    var cs := RepeatTerms(ps);
    ChainPlain(cs);
    assert forall i | 0 <= i < |cs| :: cs[i] == Paren(ps[i]);
    if AllPlain(cs) {
      forall i | 0 <= i < |ps| ensures NoDoubleMinus(ps[i]) {
        assert NoDoubleMinus(cs[i]);
      }
    }
  }

  lemma {:induction false} SeriesPlain(e: Expr, k: nat, n: nat, t: Target)
    requires n > 0 && SeriesPlan(e, k, n, t).Some?
    ensures AllPlain(SeriesPlan(e, k, n, t).value) <==> Printable(e)
    decreases e, 1, n
  {
    var ps := SeriesPlan(e, k, n, t).value;
    PlanPlain(e, Shift(k, n - 1), t);
    AllPlainSnoc(ps);
    assert ps[..n - 1] == SeriesPlan(e, k, n - 1, t).value;
    if n > 1 {
      SeriesPlain(e, k, n - 1, t);
    }
  }

  predicate AllPrintable(args: seq<Expr>) {
    forall i | 0 <= i < |args| :: Printable(args[i])
  }

  lemma {:induction false} ArgCallPlain(fn: string, args: seq<Expr>, tags: seq<Option<string>>, k: nat, t: Target)
    requires !IsTrend(fn) && fn != "repeat" && CallPlan(fn, args, tags, k, t).Some?
    ensures NoDoubleMinus(CallPlan(fn, args, tags, k, t).value) <==> AllPrintable(args)
    decreases args, 2, 0
  {
    if fn == "nan" && |args| == 0 {
    } else if IsCross(fn, |args|) {
      ArgsPlain(args, k, t);
      ArgsPlain(args, Shift(k, 1), t);
      var now, before := ArgPlans(args, k, t).value, ArgPlans(args, Shift(k, 1), t).value;
      var above := fn == "cross_above";
      BinPlain(if above then Gt else Lt, now[0], now[1]);
      BinPlain(if above then Le else Ge, before[0], before[1]);
      BinPlain(AndAnd, Bin(if above then Gt else Lt, now[0], now[1]),
                       Bin(if above then Le else Ge, before[0], before[1]));
      assert AllPlain(now) <==> NoDoubleMinus(now[0]) && NoDoubleMinus(now[1]);
      assert AllPlain(before) <==> NoDoubleMinus(before[0]) && NoDoubleMinus(before[1]);
    } else {
      ArgsPlain(args, k, t);
      var ps := ArgPlans(args, k, t).value;
      if IsWithin(fn, |args|) {
        WithinPlain(ps);
      } else if IsExtreme(fn, |args|) {
        ExtremePlain(if fn == "min" then "fmin" else "fmax", ps);
      }
    }
  }

  lemma WithinPlain(ps: seq<Layout>)
    requires 3 <= |ps| <= 5
    ensures NoDoubleMinus(WithinLayout(ps)) <==> AllPlain(ps)
  {
    BoundPlain(ps, 1, 3, Ge, Gt);
    BoundPlain(ps, 2, 4, Le, Lt);
    BinPlain(AndAnd, BoundLayout(ps, 1, 3, Ge, Gt), BoundLayout(ps, 2, 4, Le, Lt));
  }

  lemma BoundPlain(ps: seq<Layout>, bound: nat, flag: nat, inclusive: BinOp, exclusive: BinOp)
    requires bound < |ps| && |ps| > 0
    ensures NoDoubleMinus(BoundLayout(ps, bound, flag, inclusive, exclusive)) <==>
              NoDoubleMinus(ps[0]) && NoDoubleMinus(ps[bound]) && (flag < |ps| ==> NoDoubleMinus(ps[flag]))
  {
    BinPlain(inclusive, ps[0], ps[bound]);
    BinPlain(exclusive, ps[0], ps[bound]);
    if flag < |ps| {
      var c := Cond(ps[flag], Bin(inclusive, ps[0], ps[bound]), Bin(exclusive, ps[0], ps[bound]));
      assert NoDoubleMinus(Paren(c)) <==> NoDoubleMinus(c);
    }
  }

  lemma {:induction false} ArgsPlain(args: seq<Expr>, k: nat, t: Target)
    requires ArgPlans(args, k, t).Some?
    ensures AllPlain(ArgPlans(args, k, t).value) <==> AllPrintable(args)
    decreases args, 0, 0
  {
    if args != [] {
      PlanPlain(args[0], k, t);
      ArgsPlain(args[1..], k, t);
      AllPlainCons(Plan(args[0], k, t).value, ArgPlans(args[1..], k, t).value);
      AllPrintableCons(args);
    }
  }

  lemma AllPlainCons(p: Layout, ps: seq<Layout>)
    ensures AllPlain([p] + ps) <==> NoDoubleMinus(p) && AllPlain(ps)
  {
    var all := [p] + ps;
    assert all[0] == p && forall i | 0 <= i < |ps| :: ps[i] == all[i + 1];
  }

  lemma AllPrintableCons(args: seq<Expr>)
    requires args != []
    ensures AllPrintable(args) <==> Printable(args[0]) && AllPrintable(args[1..])
  {
    assert forall i | 0 <= i < |args| - 1 :: args[1..][i] == args[i + 1];
    assert forall i | 0 < i < |args| :: args[i] == args[1..][i - 1];
  }

  /**
   Read with C's own grammar, an emitted text is exactly the intended expression, if and only if
   no unary minus stands over an expression printed with a leading minus sign.
   */
  lemma EmittedTextReadsBack(e: Expr, k: nat, t: Target)
    requires Plan(e, k, t).Some?
    ensures var p := Plan(e, k, t).value;
            ReadBack(Print(p)) == Ok(Tree(p), []) <==> Printable(e)
  {
    PlanWell(e, k, t);
    PlanPlain(e, k, t);
    PrintParse(Plan(e, k, t).value);
  }

  /** An emitted text is self-delimiting: it is read as one operand whatever may follow an operand. */
  lemma EmittedTextIsOperand(e: Expr, k: nat, t: Target, rest: seq<Tok>)
    requires Plan(e, k, t).Some? && Printable(e) && Stops(7, rest)
    ensures var p := Plan(e, k, t).value;
            ParseUnary(Lex(Print(p)) + rest) == Ok(Tree(p), rest)
  {
    PlanWell(e, k, t);
    PlanPlain(e, k, t);
    LexPrint(Plan(e, k, t).value);
    UnaryParses(Plan(e, k, t).value, rest);
  }

  /** The negation of the literal -1 becomes `(--1.0)`, which C reads as a decrement. */
  lemma NegatedNegativeLiteral(t: Target)
    ensures var e := Unary(Negate, Number(Finite(true, 1.0)));
            Plan(e, 0, t).Some?
            && Print(Plan(e, 0, t).value) == [T(LParen), MINUS, MINUS, T(Num(1.0)), T(RParen)]
            && ReadBack(Print(Plan(e, 0, t).value)) != Ok(Tree(Plan(e, 0, t).value), [])
  {
    var e := Unary(Negate, Number(Finite(true, 1.0)));
    assert Plan(Number(Finite(true, 1.0)), 0, t) == Some(Un(Neg, Leaf(Num(1.0))));
    assert SignFirst(e.operand);
    EmittedTextReadsBack(e, 0, t);
  }
}
