/**
 The expression transpiler of src/codegen.c with the lookback arithmetic of src/lookback.c.
 `Plan` says which C text an expression becomes at a lookback offset; the emitter that appends
 that text to a buffer is in Emitter.dfy.
 */
module Codegen {
  import opened Common
  import opened CSyntax

  const UNSIGNED_LIMIT: nat := 0x1_0000_0000

  /** A double literal; the magnitude of a finite one is never negative. */
  datatype Literal = Finite(negative: bool, magnitude: real) | Infinite(negative: bool) | NotANumber(negative: bool)

  datatype BinaryOp =
    | Plus | Minus | Star | Slash | Equal | NotEqual | Less | Greater | LessEqual | GreaterEqual
    | And | Or | Power | Percent | OtherBinary

  datatype UnaryOp = Negate | LogicalNot | OtherUnary

  datatype Expr =
    | Number(lit: Literal)
    | Int64(i: int)
    | Boolean(b: bool)
    | Text(s: string)
    | Identifier(name: string)
    | Parameter(name: string)
    | Access(path: string)  // field, chain and producer access
    | Binary(op: BinaryOp, left: Expr, right: Expr)
    | Unary(uop: UnaryOp, operand: Expr)
    | Ternary(cond: Expr, yes: Expr, no: Expr)
    | Call(fn: string, args: seq<Expr>, tags: seq<Option<string>>)  // argument names, where given
    | Index(target: Expr, index: Expr)
    | OtherNode  // array and record nodes

  /** The two hooks of `cxpr_c_target` that change names; a missing target has neither. */
  datatype Target = Target(
    leafAtOffset: Option<(Expr, nat) -> Option<string>>,
    mapFunction: Option<(string, nat) -> Option<string>>)

  // ----- lookback offsets -----

  /**
   `(unsigned)(raw + 0.5)` checked against `raw`.  The conversion is undefined for values that
   do not fit, so what it then yields is the parameter `wild`.
   */
  function NearUnsigned(lit: Literal, wild: nat): (r: Option<nat>) {
    if !lit.Finite? then None
    else
      var raw := if lit.negative then -lit.magnitude else lit.magnitude;
      if raw < 0.0 then None
      else
        var offset := if (raw + 0.5).Floor < UNSIGNED_LIMIT then (raw + 0.5).Floor else wild;
        var error := raw - offset as real;
        if (if error < 0.0 then -error else error) > 0.000000001 then None else Some(offset)
  }

  /** Accepted are exactly the literals within 1e-9 of a 32-bit unsigned integer, which is returned. */
  lemma NearUnsignedExact(lit: Literal, wild: nat, n: nat)
    requires lit.Finite? ==> lit.magnitude >= 0.0
    requires wild < UNSIGNED_LIMIT
    ensures NearUnsigned(lit, wild) == Some(n) <==>
              && lit.Finite? && (lit.negative ==> lit.magnitude == 0.0)
              && n < UNSIGNED_LIMIT && -0.000000001 <= lit.magnitude - n as real <= 0.000000001
  {
    if lit.Finite? && (lit.negative ==> lit.magnitude == 0.0) {
      var f := (lit.magnitude + 0.5).Floor;
      assert f as real <= lit.magnitude + 0.5 < f as real + 1.0;
      assert n < f ==> n as real + 1.0 <= f as real;
      assert n > f ==> f as real + 1.0 <= n as real;
    }
  }

  /** `cxpr_lookback_literal_offset` */
  function LiteralOffset(index: Expr): Option<nat> {
    if index.Number? then NearUnsigned(index.lit, 0) else None
  }

  /** `cxpr_lookback_add_unsigned` */
  function AddOffset(base: nat, offset: nat): Option<nat> {
    if UNSIGNED_LIMIT - 1 - base < offset then None else Some(base + offset)
  }

  /** Unchecked `unsigned` addition, as in the series expansions. */
  function Shift(k: nat, i: nat): nat {
    (k + i) % UNSIGNED_LIMIT
  }

  /** The literal bar count of rising, falling (at least 2) and repeat (at least 0). */
  function Bars(e: Expr, minimum: real): (r: Option<nat>)
    ensures r.Some? && minimum >= 2.0 ==> r.value >= 2
  {
    if e.Number? && e.lit.Finite? && (if e.lit.negative then -e.lit.magnitude else e.lit.magnitude) >= minimum
    then NearUnsigned(e.lit, 0)
    else None
  }

  /** The last of two arguments named by one of the labels, or else the one in the default place. */
  function Chosen(tags: seq<Option<string>>, labels: set<string>, place: nat): (i: nat)
    requires place < 2
    ensures i < 2
  {
    if |tags| > 1 && tags[1].Some? && tags[1].value in labels then 1
    else if |tags| > 0 && tags[0].Some? && tags[0].value in labels then 0
    else place
  }

  const BAR_LABELS: set<string> := {"bars", "samples"}

  // ----- names and operators -----

  const MATH_NAMES: set<string> := {
    "sqrt", "cbrt", "exp", "exp2", "expm1", "log", "log2", "log10", "log1p", "sin", "cos", "tan",
    "asin", "acos", "atan", "atan2", "sinh", "cosh", "tanh", "pow", "hypot", "copysign", "floor",
    "ceil", "round", "trunc", "fmod", "fmin", "fmax", "isnan", "isfinite"}

  function DefaultFunction(name: string): Option<string> {
    if name == "abs" then Some("fabs")
    else if name == "mod" then Some("fmod")
    else if name in MATH_NAMES then Some(name)
    else None
  }

  function MappedFunction(t: Target, name: string, argc: nat): Option<string> {
    if t.mapFunction.Some? && t.mapFunction.value(name, argc).Some? then t.mapFunction.value(name, argc)
    else DefaultFunction(name)
  }

  function Operator(op: BinaryOp): Option<BinOp> {
    match op
    case Plus => Some(Add)
    case Minus => Some(Sub)
    case Star => Some(Mul)
    case Slash => Some(Div)
    case Equal => Some(Eq)
    case NotEqual => Some(Ne)
    case Less => Some(Lt)
    case Greater => Some(Gt)
    case LessEqual => Some(Le)
    case GreaterEqual => Some(Ge)
    case And => Some(AndAnd)
    case Or => Some(OrOr)
    case Power | Percent | OtherBinary => None
  }

  function BareName(name: string): string {
    if name != [] && name[0] == '$' then name[1..] else name
  }

  predicate IsTrend(fn: string) { fn == "rising" || fn == "falling" }

  predicate IsCross(fn: string, argc: nat) { (fn == "cross_above" || fn == "cross_below") && argc == 2 }

  predicate IsWithin(fn: string, argc: nat) { fn == "within" && 3 <= argc <= 5 }

  predicate IsExtreme(fn: string, argc: nat) { (fn == "min" || fn == "max") && argc >= 1 }

  // ----- layouts -----

  function Signed(negative: bool, t: Tok): Layout {
    if negative then Un(Neg, Leaf(t)) else Leaf(t)
  }

  function LiteralLayout(lit: Literal): Layout {
    match lit
    case Finite(negative, magnitude) => Signed(negative, Num(magnitude))
    case Infinite(negative) => Signed(negative, Id("inf"))
    case NotANumber(negative) => Signed(negative, Id("nan"))
  }

  /** Conjuncts joined by `&&`, to the left. */
  function Chain(cs: seq<Layout>): Layout
    requires cs != []
  {
    if |cs| == 1 then cs[0] else Bin(AndAnd, Chain(cs[..|cs| - 1]), cs[|cs| - 1])
  }

  function TrendTerms(op: BinOp, ps: seq<Layout>): (cs: seq<Layout>)
    requires ps != []
    ensures |cs| == |ps| - 1
  {
    seq(|ps| - 1, i requires 0 <= i < |ps| - 1 => Paren(Bin(op, ps[i], ps[i + 1])))
  }

  function RepeatTerms(ps: seq<Layout>): (cs: seq<Layout>)
    ensures |cs| == |ps|
  {
    seq(|ps|, i requires 0 <= i < |ps| => Paren(ps[i]))
  }

  function TrendLayout(op: BinOp, ps: seq<Layout>): Layout
    requires |ps| >= 2
  {
    Paren(Chain(TrendTerms(op, ps)))
  }

  function RepeatLayout(ps: seq<Layout>): Layout
    requires ps != []
  {
    Paren(Chain(RepeatTerms(ps)))
  }

  function CrossLayout(above: bool, now: seq<Layout>, before: seq<Layout>): Layout
    requires |now| == |before| == 2
  {
    Paren(Bin(AndAnd, Bin(if above then Gt else Lt, now[0], now[1]),
                      Bin(if above then Le else Ge, before[0], before[1])))
  }

  /** One bound of `within`: inclusive, or as the flag argument says. */
  function BoundLayout(ps: seq<Layout>, bound: nat, flag: nat, inclusive: BinOp, exclusive: BinOp): Layout
    requires bound < |ps|  && |ps| > 0
  {
    var closed := Bin(inclusive, ps[0], ps[bound]);
    if flag < |ps| then Paren(Cond(ps[flag], closed, Bin(exclusive, ps[0], ps[bound]))) else closed
  }

  function WithinLayout(ps: seq<Layout>): Layout
    requires 3 <= |ps| <= 5
  {
    Paren(Bin(AndAnd, BoundLayout(ps, 1, 3, Ge, Gt), BoundLayout(ps, 2, 4, Le, Lt)))
  }

  /** `fn(fn(p0, p1), p2)` and so on; a single argument stands alone. */
  function ExtremeLayout(fn: string, ps: seq<Layout>): Layout
    requires ps != []
  {
    if |ps| == 1 then ps[0] else Layout.Call(fn, [ExtremeLayout(fn, ps[..|ps| - 1]), ps[|ps| - 1]])
  }

  function BinaryLayout(op: BinaryOp, l: Layout, r: Layout): Option<Layout> {
    if op == Power || op == Percent then Some(Layout.Call(if op == Power then "pow" else "fmod", [l, r]))
    else if Operator(op).None? then None
    else Some(Paren(Bin(Operator(op).value, l, r)))
  }

  // ----- the plan -----

  /** The text of a leaf at an offset: the hook's, or the bare name at offset 0. */
  function LeafPlan(e: Expr, k: nat, t: Target): Option<Layout> {
    if t.leafAtOffset.Some? then
      match t.leafAtOffset.value(e, k)
      case None => None
      case Some(s) => Some(Leaf(Id(s)))
    else if k > 0 then None
    else if e.Identifier? then Some(Leaf(Id(e.name)))
    else if e.Parameter? then Some(Leaf(Id(BareName(e.name))))
    else None
  }

  function Plan(e: Expr, k: nat, t: Target): Option<Layout>
    decreases e, 0, 0
  {
    match e
    case Number(lit) => Some(LiteralLayout(lit))
    case Int64(i) => Some(Leaf(Int(i)))
    case Boolean(b) => Some(Leaf(Bool(b)))
    case Text(s) => Some(Leaf(Str(s)))
    case Identifier(_) | Parameter(_) | Access(_) => LeafPlan(e, k, t)
    case Binary(op, l, r) =>
      var pl, pr := Plan(l, k, t), Plan(r, k, t);
      if pl.None? || pr.None? then None else BinaryLayout(op, pl.value, pr.value)
    case Unary(op, x) =>
      var px := Plan(x, k, t);
      if px.None? || op == OtherUnary then None
      else Some(Paren(Un(if op == Negate then Neg else Not, px.value)))
    case Ternary(c, y, n) =>
      var pc, py, pn := Plan(c, k, t), Plan(y, k, t), Plan(n, k, t);
      if pc.None? || py.None? || pn.None? then None else Some(Paren(Cond(pc.value, py.value, pn.value)))
    case Call(fn, args, tags) => CallPlan(fn, args, tags, k, t)
    case Index(target, index) =>
      if LiteralOffset(index).None? then None
      else
        var next := AddOffset(k, LiteralOffset(index).value);
        if next.None? then None else Plan(target, next.value, t)
    case OtherNode => None
  }

  /** `cxpr_cg_emit_call_at_offset` without a call hook */
  function CallPlan(fn: string, args: seq<Expr>, tags: seq<Option<string>>, k: nat, t: Target): Option<Layout>
    decreases args, 2, 0
  {
    if IsTrend(fn) then
      if |args| != 2 || Bars(args[Chosen(tags, BAR_LABELS, 1)], 2.0).None? then None
      else
        var bars := Bars(args[Chosen(tags, BAR_LABELS, 1)], 2.0).value;
        var ps := SeriesPlan(args[Chosen(tags, {"value"}, 0)], k, bars, t);
        if ps.None? then None else Some(TrendLayout(if fn == "rising" then Gt else Lt, ps.value))
    else if IsCross(fn, |args|) then
      var now, before := ArgPlans(args, k, t), ArgPlans(args, Shift(k, 1), t);
      if now.None? || before.None? then None else Some(CrossLayout(fn == "cross_above", now.value, before.value))
    else if fn == "repeat" then
      if |args| != 2 || Bars(args[Chosen(tags, BAR_LABELS, 1)], 0.0).None? then None
      else
        var bars := Bars(args[Chosen(tags, BAR_LABELS, 1)], 0.0).value;
        if bars == 0 then Some(Leaf(Bool(true)))
        else
          var ps := SeriesPlan(args[Chosen(tags, {"condition"}, 0)], k, bars, t);
          if ps.None? then None else Some(RepeatLayout(ps.value))
    else if fn == "nan" && |args| == 0 then Some(Leaf(NanTok))
    else
      var ps := ArgPlans(args, k, t);
      if ps.None? then None
      else if IsWithin(fn, |args|) then Some(WithinLayout(ps.value))
      else if IsExtreme(fn, |args|) then Some(ExtremeLayout(if fn == "min" then "fmin" else "fmax", ps.value))
      else if MappedFunction(t, fn, |args|).None? then None
      else Some(Layout.Call(MappedFunction(t, fn, |args|).value, ps.value))
  }

  /** All arguments at one offset. */
  function ArgPlans(args: seq<Expr>, k: nat, t: Target): (r: Option<seq<Layout>>)
    ensures r.Some? ==> |r.value| == |args|
    decreases args, 0, 0
  {
    if args == [] then Some([])
    else
      var p, more := Plan(args[0], k, t), ArgPlans(args[1..], k, t);
      if p.None? || more.None? then None else Some([p.value] + more.value)
  }

  /** One expression at `n` successive offsets from `k`. */
  function SeriesPlan(e: Expr, k: nat, n: nat, t: Target): (r: Option<seq<Layout>>)
    ensures r.Some? ==> |r.value| == n
    decreases e, 1, n
  {
    if n == 0 then Some([])
    else
      var before, p := SeriesPlan(e, k, n - 1, t), Plan(e, Shift(k, n - 1), t);
      if p.None? || before.None? then None else Some(before.value + [p.value])
  }

  /** `ArgPlans` of one more argument. */
  lemma {:induction false} ArgPlansSnoc(args: seq<Expr>, e: Expr, k: nat, t: Target)
    ensures var front, p := ArgPlans(args, k, t), Plan(e, k, t);
            ArgPlans(args + [e], k, t) == if front.None? || p.None? then None else Some(front.value + [p.value])
  {
    if args == [] {
      assert args + [e] == [e] && [e][1..] == [];
      assert ArgPlans([e][1..], k, t) == Some([]);
      var p := Plan(e, k, t);
      assert p.Some? ==> [p.value] + [] == [] + [p.value];
    } else {
      assert (args + [e])[1..] == args[1..] + [e];
      ArgPlansSnoc(args[1..], e, k, t);
      var first, mid, p := Plan(args[0], k, t), ArgPlans(args[1..], k, t), Plan(e, k, t);
      if first.Some? && mid.Some? && p.Some? {
        assert [first.value] + (mid.value + [p.value]) == [first.value] + mid.value + [p.value];
      }
    }
  }

  /** Arguments can be planned together only if their prefixes can. */
  lemma {:induction false} ArgPlansPrefix(args: seq<Expr>, n: nat, k: nat, t: Target)
    requires n <= |args| && ArgPlans(args, k, t).Some?
    ensures ArgPlans(args[..n], k, t) == Some(ArgPlans(args, k, t).value[..n])
    decreases |args| - n
  {
    if n < |args| {
      ArgPlansPrefix(args, n + 1, k, t);
      assert args[..n + 1] == args[..n] + [args[n]];
      ArgPlansSnoc(args[..n], args[n], k, t);
      var all, front := ArgPlans(args, k, t).value, ArgPlans(args[..n], k, t).value;
      assert front == all[..n + 1][..n] == all[..n];
    } else {
      assert args[..n] == args && ArgPlans(args, k, t).value[..n] == ArgPlans(args, k, t).value;
    }
  }

  lemma {:induction false} SeriesPlanPrefix(e: Expr, k: nat, n: nat, m: nat, t: Target)
    requires n <= m && SeriesPlan(e, k, m, t).Some?
    ensures SeriesPlan(e, k, n, t).Some?
    decreases m
  {
    if n < m {
      SeriesPlanPrefix(e, k, n, m - 1, t);
    }
  }
}
