/** The recursive emitter of src/codegen.c, which appends to a growing text buffer. */
module Emitter {
  import opened Common
  import opened CSyntax
  import opened Codegen

  function OpText(op: BinOp): Text { [Space, T(Op(op)), Space] }

  // Text appended piece by piece is the text appended at once.

  lemma Append2(o: Text, a: Text, b: Text)
    ensures o + a + b == o + (a + b)
  {
  }

  lemma Append3(o: Text, a: Text, b: Text, c: Text)
    ensures o + a + b + c == o + (a + b + c)
  {
  }

  lemma Append5(o: Text, a: Text, b: Text, c: Text, d: Text, e: Text)
    ensures o + a + b + c + d + e == o + (a + (b + c + d) + e)
  {
  }

  lemma Append7(o: Text, a: Text, b: Text, c: Text, d: Text, e: Text, f: Text, g: Text)
    ensures o + a + b + c + d + e + f + g == o + (a + (b + c + d + e + f) + g)
  {
  }

  lemma ChainGrows(start: Text, cs: seq<Layout>, c: Layout)
    ensures start + Print(Chain(cs + [c]))
         == (if cs == [] then start else start + Print(Chain(cs)) + OpText(AndAnd)) + Print(c)
  {
    assert (cs + [c])[..|cs|] == cs;
    if cs != [] {
      Append3(start, Print(Chain(cs)), OpText(AndAnd), Print(c));
    }
  }

  lemma TrendStuck(value: Expr, k: nat, i: nat, bars: nat, t: Target)
    requires i + 1 < bars && (Plan(value, Shift(k, i), t).None? || Plan(value, Shift(k, i + 1), t).None?)
    ensures SeriesPlan(value, k, bars, t).None?
  {
    if SeriesPlan(value, k, bars, t).Some? {
      SeriesPlanPrefix(value, k, i + 2, bars, t);
    }
  }

  /** One more comparison of a rising or falling series. */
  lemma TrendGrows(start: Text, op: BinOp, value: Expr, k: nat, i: nat, t: Target, p: Layout, q: Layout)
    requires i > 0 ==> SeriesPlan(value, k, i + 1, t).Some?
    requires Plan(value, Shift(k, i), t) == Some(p) && Plan(value, Shift(k, i + 1), t) == Some(q)
    ensures SeriesPlan(value, k, i + 2, t).Some?
    ensures start + Print(Chain(TrendTerms(op, SeriesPlan(value, k, i + 2, t).value)))
         == (if i == 0 then start
             else start + Print(Chain(TrendTerms(op, SeriesPlan(value, k, i + 1, t).value))) + OpText(AndAnd))
            + Print(Paren(Bin(op, p, q)))
  {
    assert SeriesPlan(value, k, 0, t) == Some([]);
    var ps := SeriesPlan(value, k, i + 1, t).value;
    assert SeriesPlan(value, k, i + 2, t) == Some(ps + [q]);
    assert ps[i] == p;
    assert TrendTerms(op, ps + [q]) == TrendTerms(op, ps) + [Paren(Bin(op, p, q))];
    ChainGrows(start, TrendTerms(op, ps), Paren(Bin(op, p, q)));
  }

  lemma RepeatStuck(condition: Expr, k: nat, i: nat, bars: nat, t: Target)
    requires i < bars && Plan(condition, Shift(k, i), t).None?
    ensures SeriesPlan(condition, k, bars, t).None?
  {
    if SeriesPlan(condition, k, bars, t).Some? {
      SeriesPlanPrefix(condition, k, i + 1, bars, t);
    }
  }

  function RepeatText(ps: seq<Layout>): Text {
    if ps == [] then [] else Print(Chain(RepeatTerms(ps)))
  }

  lemma RepeatGrows(start: Text, ps: seq<Layout>, p: Layout)
    ensures start + RepeatText(ps + [p])
         == (if ps == [] then start + RepeatText(ps) else start + RepeatText(ps) + OpText(AndAnd)) + Print(Paren(p))
  {
    assert RepeatTerms(ps + [p]) == RepeatTerms(ps) + [Paren(p)];
    ChainGrows(start, RepeatTerms(ps), Paren(p));
    assert start + [] == start;
  }

  lemma SeriesGrows(e: Expr, k: nat, i: nat, t: Target, ps: seq<Layout>, p: Layout)
    requires SeriesPlan(e, k, i, t) == Some(ps) && Plan(e, Shift(k, i), t) == Some(p)
    ensures SeriesPlan(e, k, i + 1, t) == Some(ps + [p])
  {
  }

  lemma {:induction false} PrintArgsSnoc(ps: seq<Layout>, p: Layout)
    ensures PrintArgs(ps + [p])
         == if ps == [] then Print(p) else PrintArgs(ps) + [T(Comma), Space] + Print(p)
  {
    var all := ps + [p];
    if ps == [] {
      assert all == [p];
    } else {
      assert all[0] == ps[0] && all[1..] == ps[1..] + [p];
      PrintArgsSnoc(ps[1..], p);
      if |ps| == 1 {
        assert ps[1..] == [];
      }
    }
  }

  lemma ArgsGrow(start: Text, ps: seq<Layout>, p: Layout)
    ensures start + PrintArgs(ps + [p])
         == (if ps == [] then start + PrintArgs(ps) else start + PrintArgs(ps) + [T(Comma), Space]) + Print(p)
  {
    PrintArgsSnoc(ps, p);
  }

  // The nested calls of min and max are printed as all openings first, then the arguments.

  function Openings(fn: string, n: nat): Text {
    if n == 0 then [] else [T(Id(fn)), T(LParen)] + Openings(fn, n - 1)
  }

  lemma {:induction false} OpeningsSnoc(fn: string, n: nat)
    ensures Openings(fn, n + 1) == Openings(fn, n) + [T(Id(fn)), T(LParen)]
  {
    if n > 0 {
      OpeningsSnoc(fn, n - 1);
    }
  }

  function Closings(ps: seq<Layout>): Text
    requires ps != []
  {
    if |ps| == 1 then Print(ps[0])
    else Closings(ps[..|ps| - 1]) + [T(Comma), Space] + Print(ps[|ps| - 1]) + [T(RParen)]
  }

  lemma ClosingsGrow(start: Text, ps: seq<Layout>, p: Layout)
    requires ps != []
    ensures start + Closings(ps + [p])
         == start + Closings(ps) + [T(Comma), Space] + Print(p) + [T(RParen)]
  {
    assert (ps + [p])[..|ps|] == ps;
  }

  lemma {:induction false} PrintExtreme(fn: string, ps: seq<Layout>)
    requires ps != []
    ensures Print(ExtremeLayout(fn, ps)) == Openings(fn, |ps| - 1) + Closings(ps)
  {
    if |ps| > 1 {
      var front, last := ps[..|ps| - 1], ps[|ps| - 1];
      PrintExtreme(fn, front);
      PrintPair(fn, ExtremeLayout(fn, front), last);
      Nest([T(Id(fn)), T(LParen)], Openings(fn, |front| - 1), Closings(front),
           [T(Comma), Space], Print(last), [T(RParen)]);
    }
  }

  lemma Nest(a: Text, b: Text, c: Text, d: Text, e: Text, f: Text)
    ensures a + ((b + c) + d + e) + f == (a + b) + (c + d + e + f)
  {
  }

  lemma PrintPair(fn: string, a: Layout, b: Layout)
    ensures Print(Layout.Call(fn, [a, b]))
         == [T(Id(fn)), T(LParen)] + (Print(a) + [T(Comma), Space] + Print(b)) + [T(RParen)]
  {
    assert [a, b][1..] == [b];
    assert PrintArgs([a, b]) == Print(a) + [T(Comma), Space] + PrintArgs([b]);
  }

  // Access to the plans of argument lists.

  lemma ArgPlansGrow(args: seq<Expr>, i: nat, k: nat, t: Target)
    requires i < |args| && ArgPlans(args[..i], k, t).Some?
    ensures var p := Plan(args[i], k, t);
            if p.None? then ArgPlans(args, k, t).None?
            else ArgPlans(args[..i + 1], k, t) == Some(ArgPlans(args[..i], k, t).value + [p.value])
  {
    assert args[..i + 1] == args[..i] + [args[i]];
    ArgPlansSnoc(args[..i], args[i], k, t);
    if ArgPlans(args, k, t).Some? {
      ArgPlansPrefix(args, i + 1, k, t);
    }
  }

  lemma ArgPlanAt(args: seq<Expr>, i: nat, k: nat, t: Target)
    requires i < |args|
    ensures ArgPlans(args, k, t).Some? ==> Plan(args[i], k, t) == Some(ArgPlans(args, k, t).value[i])
  {
    if ArgPlans(args, k, t).Some? {
      ArgPlansPrefix(args, i, k, t);
      ArgPlansPrefix(args, i + 1, k, t);
      ArgPlansGrow(args, i, k, t);
    }
  }

  lemma OneArgPlan(args: seq<Expr>, k: nat, t: Target)
    requires |args| == 1
    ensures ArgPlans(args, k, t) == var p := Plan(args[0], k, t); if p.None? then None else Some([p.value])
  {
    assert ArgPlans(args[1..], k, t) == Some([]);
    var p := Plan(args[0], k, t);
    assert p.Some? ==> [p.value] + [] == [p.value];
  }

  lemma TwoArgPlans(args: seq<Expr>, k: nat, t: Target)
    requires |args| == 2
    ensures var p, q := Plan(args[0], k, t), Plan(args[1], k, t);
            ArgPlans(args, k, t) == if p.None? || q.None? then None else Some([p.value, q.value])
  {
    assert args == args[..1] + [args[1]];
    OneArgPlan(args[..1], k, t);
    ArgPlansSnoc(args[..1], args[1], k, t);
    var p, q := Plan(args[0], k, t), Plan(args[1], k, t);
    assert p.Some? && q.Some? ==> [p.value] + [q.value] == [p.value, q.value];
  }

  lemma FewArgPlans(args: seq<Expr>, k: nat, t: Target)
    requires 3 <= |args| <= 5
    ensures ArgPlans(args, k, t).Some? <==>
              && Plan(args[0], k, t).Some? && Plan(args[1], k, t).Some? && Plan(args[2], k, t).Some?
              && (|args| > 3 ==> Plan(args[3], k, t).Some?) && (|args| > 4 ==> Plan(args[4], k, t).Some?)
  {
    if ArgPlans(args, k, t).Some? {
      ArgPlanAt(args, 0, k, t); ArgPlanAt(args, 1, k, t); ArgPlanAt(args, 2, k, t);
      if |args| > 3 { ArgPlanAt(args, 3, k, t); }
      if |args| > 4 { ArgPlanAt(args, 4, k, t); }
    }
    if forall i | 0 <= i < |args| :: Plan(args[i], k, t).Some? {
      ArgPlansTotal(args, k, t);
    }
  }

  lemma {:induction false} ArgPlansTotal(args: seq<Expr>, k: nat, t: Target)
    requires forall i | 0 <= i < |args| :: Plan(args[i], k, t).Some?
    ensures ArgPlans(args, k, t).Some?
  {
    if args != [] {
      ArgPlansTotal(args[1..], k, t);
    }
  }

  class Emitter {
    const target: Target
    var buf: Text

    constructor (target: Target)
      ensures this.target == target && buf == []
    {
      this.target := target;
      buf := [];
    }

    /** `cxpr_cg_emit_at_offset`: succeeds exactly when there is a plan, and then appends its text. */
    method EmitAtOffset(e: Expr, k: nat) returns (ok: bool)
      modifies this
      ensures ok <==> Plan(e, k, target).Some?
      ensures ok ==> buf == old(buf) + Print(Plan(e, k, target).value)
      decreases e, 3
    {
      match e
      case Number(lit) => buf := buf + Print(LiteralLayout(lit)); ok := true;
      case Int64(i) => buf := buf + [T(Int(i))]; ok := true;
      case Boolean(b) => buf := buf + [T(Bool(b))]; ok := true;
      case Text(s) => buf := buf + [T(Str(s))]; ok := true;
      case Identifier(_) | Parameter(_) | Access(_) =>
        var leaf := LeafPlan(e, k, target);
        ok := leaf.Some?;
        if ok {
          buf := buf + Print(leaf.value);
        }
      case Binary(op, l, r) =>
        if op == Power || op == Percent {
          ok := EmitPair(e, k);
        } else if Operator(op).None? {
          ok := false;
        } else {
          ok := EmitBinary(e, k);
        }
      case Unary(op, x) =>
        if op == OtherUnary {
          ok := false;
        } else {
          ok := EmitUnary(e, k);
        }
      case Ternary(_, _, _) => ok := EmitTernary(e, k);
      case Call(_, _, _) => ok := EmitCall(e, k);
      case Index(inner, index) =>
        if LiteralOffset(index).None? || AddOffset(k, LiteralOffset(index).value).None? {
          return false;
        }
        ok := EmitAtOffset(inner, AddOffset(k, LiteralOffset(index).value).value);
      case OtherNode => ok := false;
    }

    method EmitUnary(e: Expr, k: nat) returns (ok: bool)
      requires e.Unary? && e.uop != OtherUnary
      modifies this
      ensures ok <==> Plan(e, k, target).Some?
      ensures ok ==> buf == old(buf) + Print(Plan(e, k, target).value)
      decreases e, 2
    {
      var sign := T(UnTok(if e.uop == Negate then Neg else Not));
      buf := buf + [T(LParen)];
      buf := buf + [sign];
      ok := EmitAtOffset(e.operand, k);
      if !ok { return; }
      buf := buf + [T(RParen)];
    }

    method EmitBinary(e: Expr, k: nat) returns (ok: bool)
      requires e.Binary? && Operator(e.op).Some?
      modifies this
      ensures ok <==> Plan(e, k, target).Some?
      ensures ok ==> buf == old(buf) + Print(Plan(e, k, target).value)
      decreases e, 2
    {
      ghost var l, r := Plan(e.left, k, target), Plan(e.right, k, target);
      buf := buf + [T(LParen)];
      ok := EmitAtOffset(e.left, k);
      if !ok { return; }
      buf := buf + OpText(Operator(e.op).value);
      ok := EmitAtOffset(e.right, k);
      if !ok { return; }
      buf := buf + [T(RParen)];
      Append5(old(buf), [T(LParen)], Print(l.value), OpText(Operator(e.op).value), Print(r.value), [T(RParen)]);
    }

    method EmitPair(e: Expr, k: nat) returns (ok: bool)
      requires e.Binary? && (e.op == Power || e.op == Percent)
      modifies this
      ensures ok <==> Plan(e, k, target).Some?
      ensures ok ==> buf == old(buf) + Print(Plan(e, k, target).value)
      decreases e, 2
    {
      var fn := if e.op == Power then "pow" else "fmod";
      buf := buf + [T(Id(fn)), T(LParen)];
      ok := EmitAtOffset(e.left, k);
      if !ok { return; }
      buf := buf + [T(Comma), Space];
      ok := EmitAtOffset(e.right, k);
      if !ok { return; }
      buf := buf + [T(RParen)];
      ghost var l, r := Plan(e.left, k, target).value, Plan(e.right, k, target).value;
      PrintPair(fn, l, r);
      Append5(old(buf), [T(Id(fn)), T(LParen)], Print(l), [T(Comma), Space], Print(r), [T(RParen)]);
    }

    method EmitTernary(e: Expr, k: nat) returns (ok: bool)
      requires e.Ternary?
      modifies this
      ensures ok <==> Plan(e, k, target).Some?
      ensures ok ==> buf == old(buf) + Print(Plan(e, k, target).value)
      decreases e, 2
    {
      buf := buf + [T(LParen)];
      ok := EmitAtOffset(e.cond, k);
      if !ok { return; }
      buf := buf + [Space, T(Question), Space];
      ok := EmitAtOffset(e.yes, k);
      if !ok { return; }
      buf := buf + [Space, T(Colon), Space];
      ok := EmitAtOffset(e.no, k);
      if !ok { return; }
      buf := buf + [T(RParen)];
      Append7(old(buf), [T(LParen)], Print(Plan(e.cond, k, target).value), [Space, T(Question), Space],
              Print(Plan(e.yes, k, target).value), [Space, T(Colon), Space],
              Print(Plan(e.no, k, target).value), [T(RParen)]);
    }

    /** `cxpr_cg_emit_call_at_offset` */
    method EmitCall(e: Expr, k: nat) returns (ok: bool)
      requires e.Call?
      modifies this
      ensures ok <==> Plan(e, k, target).Some?
      ensures ok ==> buf == old(buf) + Print(Plan(e, k, target).value)
      decreases e, 2
    {
      var argc := |e.args|;
      if IsTrend(e.fn) {
        ok := EmitTrend(e, k);
      } else if IsCross(e.fn, argc) {
        ok := EmitCross(e, k);
      } else if e.fn == "repeat" {
        ok := EmitRepeat(e, k);
      } else if IsWithin(e.fn, argc) {
        ok := EmitWithin(e, k);
      } else if e.fn == "nan" && argc == 0 {
        buf := buf + [T(NanTok)];
        ok := true;
      } else if IsExtreme(e.fn, argc) {
        ok := EmitExtreme(e, k);
      } else {
        ok := EmitNamed(e, k);
      }
    }

    /** `cxpr_cg_emit_trend_call` */
    method EmitTrend(e: Expr, k: nat) returns (ok: bool)
      requires e.Call? && IsTrend(e.fn)
      modifies this
      ensures ok <==> Plan(e, k, target).Some?
      ensures ok ==> buf == old(buf) + Print(Plan(e, k, target).value)
      decreases e, 1
    {
      if |e.args| != 2 || Bars(e.args[Chosen(e.tags, BAR_LABELS, 1)], 2.0).None? {
        return false;
      }
      var value := e.args[Chosen(e.tags, {"value"}, 0)];
      var bars := Bars(e.args[Chosen(e.tags, BAR_LABELS, 1)], 2.0).value;
      var op := if e.fn == "rising" then Gt else Lt;
      buf := buf + [T(LParen)];
      ok := EmitTrendTerms(op, value, k, bars);
      if !ok { return; }
      buf := buf + [T(RParen)];
      ghost var terms := TrendTerms(op, SeriesPlan(value, k, bars, target).value);
      Append3(old(buf), [T(LParen)], Print(Chain(terms)), [T(RParen)]);
    }

    method EmitTrendTerms(op: BinOp, value: Expr, k: nat, bars: nat) returns (ok: bool)
      requires bars >= 2
      modifies this
      ensures ok <==> SeriesPlan(value, k, bars, target).Some?
      ensures ok ==> buf == old(buf) + Print(Chain(TrendTerms(op, SeriesPlan(value, k, bars, target).value)))
      decreases value, 5
    {
      ghost var ps: seq<Layout> := [Leaf(NanTok)];
      for i := 0 to bars - 1
        invariant i > 0 ==> SeriesPlan(value, k, i + 1, target) == Some(ps)
        invariant buf == if i == 0 then old(buf) else old(buf) + Print(Chain(TrendTerms(op, ps)))
      {
        if i > 0 {
          buf := buf + OpText(AndAnd);
        }
        ghost var p, q;
        ok, p, q := EmitComparison(op, value, Shift(k, i), Shift(k, i + 1));
        if !ok {
          TrendStuck(value, k, i, bars, target);
          return;
        }
        TrendGrows(old(buf), op, value, k, i, target, p, q);
        ps := SeriesPlan(value, k, i + 2, target).value;
      }
      ok := true;
    }

    method EmitComparison(op: BinOp, value: Expr, k: nat, k': nat) returns (ok: bool, ghost p: Layout, ghost q: Layout)
      modifies this
      ensures ok <==> Plan(value, k, target).Some? && Plan(value, k', target).Some?
      ensures ok ==> Plan(value, k, target) == Some(p) && Plan(value, k', target) == Some(q)
      ensures ok ==> buf == old(buf) + Print(Paren(Bin(op, p, q)))
      decreases value, 4
    {
      p, q := Leaf(NanTok), Leaf(NanTok);
      buf := buf + [T(LParen)];
      ok := EmitAtOffset(value, k);
      if !ok { return; }
      buf := buf + OpText(op);
      ok := EmitAtOffset(value, k');
      if !ok { return; }
      buf := buf + [T(RParen)];
      p, q := Plan(value, k, target).value, Plan(value, k', target).value;
      Append5(old(buf), [T(LParen)], Print(p), OpText(op), Print(q), [T(RParen)]);
    }

    /** `cxpr_cg_emit_repeat_call` */
    method EmitRepeat(e: Expr, k: nat) returns (ok: bool)
      requires e.Call? && e.fn == "repeat"
      modifies this
      ensures ok <==> Plan(e, k, target).Some?
      ensures ok ==> buf == old(buf) + Print(Plan(e, k, target).value)
      decreases e, 1
    {
      if |e.args| != 2 || Bars(e.args[Chosen(e.tags, BAR_LABELS, 1)], 0.0).None? {
        return false;
      }
      var condition := e.args[Chosen(e.tags, {"condition"}, 0)];
      var bars := Bars(e.args[Chosen(e.tags, BAR_LABELS, 1)], 0.0).value;
      if bars == 0 {
        buf := buf + [T(Bool(true))];
        return true;
      }
      buf := buf + [T(LParen)];
      ok := EmitRepeatTerms(condition, k, bars);
      if !ok { return; }
      buf := buf + [T(RParen)];
      ghost var terms := RepeatTerms(SeriesPlan(condition, k, bars, target).value);
      Append3(old(buf), [T(LParen)], Print(Chain(terms)), [T(RParen)]);
    }

    method EmitRepeatTerms(condition: Expr, k: nat, bars: nat) returns (ok: bool)
      requires bars >= 1
      modifies this
      ensures ok <==> SeriesPlan(condition, k, bars, target).Some?
      ensures ok ==> buf == old(buf) + Print(Chain(RepeatTerms(SeriesPlan(condition, k, bars, target).value)))
      decreases condition, 5
    {
      ghost var ps: seq<Layout> := [];
      for i := 0 to bars
        invariant SeriesPlan(condition, k, i, target) == Some(ps)
        invariant |ps| == i && buf == old(buf) + RepeatText(ps)
      {
        ok, ps := EmitRepeatTerm(condition, k, i, old(buf), ps);
        if !ok {
          RepeatStuck(condition, k, i, bars, target);
          return;
        }
      }
      ok := true;
    }

    method EmitRepeatTerm(condition: Expr, k: nat, i: nat, ghost start: Text, ghost ps: seq<Layout>)
      returns (ok: bool, ghost ps': seq<Layout>)
      requires SeriesPlan(condition, k, i, target) == Some(ps) && |ps| == i && buf == start + RepeatText(ps)
      modifies this
      ensures ok <==> Plan(condition, Shift(k, i), target).Some?
      ensures ok ==> SeriesPlan(condition, k, i + 1, target) == Some(ps') && buf == start + RepeatText(ps')
      decreases condition, 4, 1
    {
      if i > 0 {
        buf := buf + OpText(AndAnd);
      }
      ghost var p;
      ok, p := EmitParenthesised(condition, Shift(k, i));
      ps' := ps + [p];
      if ok {
        SeriesGrows(condition, k, i, target, ps, p);
        RepeatGrows(start, ps, p);
      }
    }

    method EmitParenthesised(e: Expr, k: nat) returns (ok: bool, ghost p: Layout)
      modifies this
      ensures ok <==> Plan(e, k, target).Some?
      ensures ok ==> Plan(e, k, target) == Some(p) && buf == old(buf) + Print(Paren(p))
      decreases e, 4, 0
    {
      p := Leaf(NanTok);
      buf := buf + [T(LParen)];
      ok := EmitAtOffset(e, k);
      if !ok { return; }
      buf := buf + [T(RParen)];
      p := Plan(e, k, target).value;
      Append3(old(buf), [T(LParen)], Print(p), [T(RParen)]);
    }

    /** Two operands with an operator between them, as inside cross and within. */
    method EmitInfix(l: Expr, op: BinOp, r: Expr, k: nat, ghost whole: Expr) returns (ok: bool)
      requires l < whole && r < whole
      modifies this
      ensures ok <==> Plan(l, k, target).Some? && Plan(r, k, target).Some?
      ensures ok ==> buf == old(buf) + Print(Bin(op, Plan(l, k, target).value, Plan(r, k, target).value))
      decreases whole, 0, 0
    {
      ok := EmitAtOffset(l, k);
      if !ok { return; }
      buf := buf + OpText(op);
      ok := EmitAtOffset(r, k);
      if ok {
        Append3(old(buf), Print(Plan(l, k, target).value), OpText(op), Print(Plan(r, k, target).value));
      }
    }

    method EmitCross(e: Expr, k: nat) returns (ok: bool)
      requires e.Call? && IsCross(e.fn, |e.args|)
      modifies this
      ensures ok <==> Plan(e, k, target).Some?
      ensures ok ==> buf == old(buf) + Print(Plan(e, k, target).value)
      decreases e, 1
    {
      var above := e.fn == "cross_above";
      TwoArgPlans(e.args, k, target);
      TwoArgPlans(e.args, Shift(k, 1), target);
      buf := buf + [T(LParen)];
      ok := EmitInfix(e.args[0], if above then Gt else Lt, e.args[1], k, e);
      if !ok { return; }
      buf := buf + OpText(AndAnd);
      ok := EmitInfix(e.args[0], if above then Le else Ge, e.args[1], Shift(k, 1), e);
      if !ok { return; }
      buf := buf + [T(RParen)];
      ghost var now, before := ArgPlans(e.args, k, target).value, ArgPlans(e.args, Shift(k, 1), target).value;
      Append5(old(buf), [T(LParen)], Print(Bin(if above then Gt else Lt, now[0], now[1])), OpText(AndAnd),
              Print(Bin(if above then Le else Ge, before[0], before[1])), [T(RParen)]);
    }

    /** One bound of `within`. */
    method EmitBound(e: Expr, k: nat, bound: nat, flag: nat, inclusive: BinOp, exclusive: BinOp) returns (ok: bool)
      requires e.Call? && bound < |e.args|
      modifies this
      ensures ArgPlans(e.args, k, target).Some? ==> ok
      ensures ok ==> Plan(e.args[0], k, target).Some? && Plan(e.args[bound], k, target).Some?
                     && (flag < |e.args| ==> Plan(e.args[flag], k, target).Some?)
      ensures ok && ArgPlans(e.args, k, target).Some? ==>
                buf == old(buf)
                       + Print(BoundLayout(ArgPlans(e.args, k, target).value, bound, flag, inclusive, exclusive))
      decreases e, 0, 1
    {
      ghost var plans := ArgPlans(e.args, k, target);
      ArgPlanAt(e.args, 0, k, target);
      ArgPlanAt(e.args, bound, k, target);
      if flag < |e.args| {
        ArgPlanAt(e.args, flag, k, target);
      }
      if flag >= |e.args| {
        ok := EmitInfix(e.args[0], inclusive, e.args[bound], k, e);
        return;
      }
      buf := buf + [T(LParen)];
      ok := EmitAtOffset(e.args[flag], k);
      if !ok { return; }
      buf := buf + [Space, T(Question), Space];
      ok := EmitInfix(e.args[0], inclusive, e.args[bound], k, e);
      if !ok { return; }
      buf := buf + [Space, T(Colon), Space];
      ok := EmitInfix(e.args[0], exclusive, e.args[bound], k, e);
      if !ok { return; }
      buf := buf + [T(RParen)];
      if plans.Some? {
        ghost var ps := plans.value;
        Append7(old(buf), [T(LParen)], Print(ps[flag]), [Space, T(Question), Space],
                Print(Bin(inclusive, ps[0], ps[bound])), [Space, T(Colon), Space],
                Print(Bin(exclusive, ps[0], ps[bound])), [T(RParen)]);
      }
    }

    method EmitWithin(e: Expr, k: nat) returns (ok: bool)
      requires e.Call? && IsWithin(e.fn, |e.args|)
      modifies this
      ensures ok <==> Plan(e, k, target).Some?
      ensures ok ==> buf == old(buf) + Print(Plan(e, k, target).value)
      decreases e, 1
    {
      FewArgPlans(e.args, k, target);
      buf := buf + [T(LParen)];
      ok := EmitBound(e, k, 1, 3, Ge, Gt);
      if !ok { return; }
      buf := buf + OpText(AndAnd);
      ok := EmitBound(e, k, 2, 4, Le, Lt);
      if !ok { return; }
      buf := buf + [T(RParen)];
      ghost var ps := ArgPlans(e.args, k, target).value;
      Append5(old(buf), [T(LParen)], Print(BoundLayout(ps, 1, 3, Ge, Gt)), OpText(AndAnd),
              Print(BoundLayout(ps, 2, 4, Le, Lt)), [T(RParen)]);
    }

    /** min and max: nested fmin/fmax calls, all openings first */
    method EmitExtreme(e: Expr, k: nat) returns (ok: bool)
      requires e.Call? && IsExtreme(e.fn, |e.args|)
      modifies this
      ensures ok <==> Plan(e, k, target).Some?
      ensures ok ==> buf == old(buf) + Print(Plan(e, k, target).value)
      decreases e, 1
    {
      var fn := if e.fn == "min" then "fmin" else "fmax";
      if |e.args| == 1 {
        OneArgPlan(e.args, k, target);
        ok := EmitAtOffset(e.args[0], k);
        return;
      }
      EmitOpenings(fn, |e.args| - 1);
      ok := EmitClosings(e, k);
      if ok {
        ghost var ps := ArgPlans(e.args, k, target).value;
        PrintExtreme(fn, ps);
        Append2(old(buf), Openings(fn, |ps| - 1), Closings(ps));
      }
    }

    method EmitOpenings(fn: string, n: nat)
      modifies this
      ensures buf == old(buf) + Openings(fn, n)
    {
      for i := 0 to n
        invariant buf == old(buf) + Openings(fn, i)
      {
        OpeningsSnoc(fn, i);
        Append2(old(buf), Openings(fn, i), [T(Id(fn)), T(LParen)]);
        buf := buf + [T(Id(fn)), T(LParen)];
      }
    }

    method EmitClosing(arg: Expr, k: nat) returns (ok: bool)
      modifies this
      ensures ok <==> Plan(arg, k, target).Some?
      ensures ok ==> buf == old(buf) + [T(Comma), Space] + Print(Plan(arg, k, target).value) + [T(RParen)]
      decreases arg, 4
    {
      buf := buf + [T(Comma), Space];
      ok := EmitAtOffset(arg, k);
      if !ok { return; }
      buf := buf + [T(RParen)];
    }

    method EmitClosings(e: Expr, k: nat) returns (ok: bool)
      requires e.Call? && e.args != []
      modifies this
      ensures ok <==> ArgPlans(e.args, k, target).Some?
      ensures ok ==> buf == old(buf) + Closings(ArgPlans(e.args, k, target).value)
      decreases e, 0
    {
      ok := EmitAtOffset(e.args[0], k);
      if !ok { return; }
      ghost var ps := [Plan(e.args[0], k, target).value];
      OneArgPlan(e.args[..1], k, target);
      for i := 1 to |e.args|
        invariant ArgPlans(e.args[..i], k, target) == Some(ps)
        invariant buf == old(buf) + Closings(ps)
      {
        ArgPlansGrow(e.args, i, k, target);
        ok := EmitClosing(e.args[i], k);
        if !ok { return; }
        ClosingsGrow(old(buf), ps, Plan(e.args[i], k, target).value);
        ps := ps + [Plan(e.args[i], k, target).value];
      }
      assert e.args[..|e.args|] == e.args;
      ok := true;
    }

    /** Any other function, under its mapped name. */
    method EmitNamed(e: Expr, k: nat) returns (ok: bool)
      requires e.Call? && !IsTrend(e.fn) && e.fn != "repeat" && !IsCross(e.fn, |e.args|)
      requires !IsWithin(e.fn, |e.args|) && !IsExtreme(e.fn, |e.args|) && !(e.fn == "nan" && |e.args| == 0)
      modifies this
      ensures ok <==> Plan(e, k, target).Some?
      ensures ok ==> buf == old(buf) + Print(Plan(e, k, target).value)
      decreases e, 1
    {
      var mapped := MappedFunction(target, e.fn, |e.args|);
      if mapped.None? {
        return false;
      }
      buf := buf + [T(Id(mapped.value)), T(LParen)];
      ok := EmitArgs(e, k);
      if !ok { return; }
      buf := buf + [T(RParen)];
      Append3(old(buf), [T(Id(mapped.value)), T(LParen)], PrintArgs(ArgPlans(e.args, k, target).value), [T(RParen)]);
    }

    method EmitArgs(e: Expr, k: nat) returns (ok: bool)
      requires e.Call?
      modifies this
      ensures ok <==> ArgPlans(e.args, k, target).Some?
      ensures ok ==> buf == old(buf) + PrintArgs(ArgPlans(e.args, k, target).value)
      decreases e, 0
    {
      ghost var ps: seq<Layout> := [];
      for i := 0 to |e.args|
        invariant ArgPlans(e.args[..i], k, target) == Some(ps)
        invariant buf == old(buf) + PrintArgs(ps)
      {
        ArgPlansGrow(e.args, i, k, target);
        if i > 0 {
          buf := buf + [T(Comma), Space];
        }
        ok := EmitAtOffset(e.args[i], k);
        if !ok { return; }
        ArgsGrow(old(buf), ps, Plan(e.args[i], k, target).value);
        ps := ps + [Plan(e.args[i], k, target).value];
      }
      assert e.args[..|e.args|] == e.args;
      ok := true;
    }
  }
}
