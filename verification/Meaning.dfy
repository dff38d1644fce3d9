/**
 What expressions mean to the evaluator (src/eval/tree.c, src/timeseries.c, src/registry/defaults.c)
 and what emitted C means, over an abstract type of numbers with uninterpreted operations.
 */
module Meaning {
  import opened Common
  import opened CSyntax
  import opened Codegen
  import opened CallBinding
  import ValueOps

  datatype Val<N> = VNum(n: N) | VBool(b: bool) | VInt(i: int)

  /** The number system and the function libraries on both sides. */
  datatype Arith<!N> = Arith(
    literal: Literal -> N,
    nan: N,
    isNaN: N -> bool,
    isZero: N -> bool,
    negate: N -> N,
    arith: (BinOp, N, N) -> N,
    cmp: (BinOp, N, N) -> bool,
    cFunction: (string, seq<Val<N>>) -> Option<Val<N>>,
    builtin: (string, seq<Val<N>>) -> Option<Val<N>>,
    paramNames: string -> seq<string>)

  type Leaves<!N> = (Expr, nat) -> Option<Val<N>>
  type CNames<!N> = string -> Option<Val<N>>

  // ----- emitted C -----

  function Fit(i: int): Option<int> {
    if INT64_MIN <= i <= INT64_MAX then Some(i) else None
  }

  /** Arithmetic of `int64_t`; what C leaves undefined has no meaning. */
  function IntArith(op: BinOp, a: int, b: int): Option<int> {
    match op
    case Add => Fit(a + b)
    case Sub => Fit(a - b)
    case Mul => Fit(a * b)
    case Div => if b == 0 || (a == INT64_MIN && b == -1) then None else Some(Quotient(a, b))
    case _ => None
  }

  function IntCompare(op: BinOp, a: int, b: int): bool {
    match op
    case Lt => a < b
    case Gt => a > b
    case Le => a <= b
    case Ge => a >= b
    case Eq => a == b
    case _ => a != b
  }

  predicate IsComparison(op: BinOp) { op == Lt || op == Gt || op == Le || op == Ge || op == Eq || op == Ne }

  /** A strict binary operator on two values; mixed types have no meaning. */
  function Combine<N>(A: Arith<N>, op: BinOp, l: Val<N>, r: Val<N>): Option<Val<N>> {
    match (l, r)
    case (VNum(a), VNum(b)) =>
      if op == Ne then Some(VBool(!A.cmp(Eq, a, b)))
      else if IsComparison(op) then Some(VBool(A.cmp(op, a, b)))
      else if op == AndAnd || op == OrOr then None
      else Some(VNum(A.arith(op, a, b)))
    case (VInt(a), VInt(b)) =>
      if IsComparison(op) then Some(VBool(IntCompare(op, a, b)))
      else if IntArith(op, a, b).Some? then Some(VInt(IntArith(op, a, b).value)) else None
    case (VBool(a), VBool(b)) =>
      if op == Eq then Some(VBool(a == b)) else if op == Ne then Some(VBool(a != b)) else None
    case _ => None
  }

  function NegateVal<N>(A: Arith<N>, v: Val<N>): Option<Val<N>> {
    match v
    case VNum(a) => Some(VNum(A.negate(a)))
    case VInt(i) => if i == INT64_MIN then None else Some(VInt(-i))
    case VBool(_) => None
  }

  /** `&&` and `||` do not look at a right operand they do not need. */
  function CBinary<N>(A: Arith<N>, op: BinOp, a: Option<Val<N>>, b: Option<Val<N>>): Option<Val<N>> {
    if a.None? then None
    else if op == AndAnd || op == OrOr then
      if !a.value.VBool? then None
      else if a.value.b == (op == OrOr) then a
      else if b.Some? && b.value.VBool? then b else None
    else if b.None? then None
    else Combine(A, op, a.value, b.value)
  }

  function CUnary<N>(A: Arith<N>, op: UnOp, v: Option<Val<N>>): Option<Val<N>> {
    if v.None? then None
    else if op == Neg then NegateVal(A, v.value)
    else if op == Not && v.value.VBool? then Some(VBool(!v.value.b))
    else None
  }

  function CEval<N>(A: Arith<N>, names: CNames<N>, c: CExpr): Option<Val<N>> {
    match c
    case CLeaf(t) =>
      (match t
       case Num(m) => Some(VNum(A.literal(Finite(false, m))))
       case Int(i) => Some(VInt(i))
       case Bool(b) => Some(VBool(b))
       case NanTok => Some(VNum(A.nan))
       case Id(s) => names(s)
       case _ => None)
    case CUn(op, x) => CUnary(A, op, CEval(A, names, x))
    case CBin(op, l, r) => CBinary(A, op, CEval(A, names, l), CEval(A, names, r))
    case CCond(q, y, n) =>
      var v := CEval(A, names, q);
      if v.None? || !v.value.VBool? then None
      else if v.value.b then CEval(A, names, y) else CEval(A, names, n)
    case CCall(f, args) =>
      var vs := CEvals(A, names, args);
      if vs.None? || !f.CLeaf? || !f.tok.Id? then None else A.cFunction(f.tok.name, vs.value)
  }

  function CEvals<N>(A: Arith<N>, names: CNames<N>, args: seq<CExpr>): (r: Option<seq<Val<N>>>)
    ensures r.Some? ==> |r.value| == |args|
  {
    if args == [] then Some([])
    else
      var v, more := CEval(A, names, args[0]), CEvals(A, names, args[1..]);
      if v.None? || more.None? then None else Some([v.value] + more.value)
  }

  // ----- the evaluator -----

  /** `llround` of a literal sample count, as `cxpr_timeseries_read_samples` checks it. */
  function Samples(e: Expr, minimum: nat): Option<nat> {
    if !e.Number? || !e.lit.Finite? then None
    else
      var raw := if e.lit.negative then -e.lit.magnitude else e.lit.magnitude;
      var n := if raw < 0.0 then -((0.5 - raw).Floor) else (raw + 0.5).Floor;
      var error := raw - n as real;
      if (if error < 0.0 then -error else error) > 0.000000001 || n < minimum then None else Some(n)
  }

  /** Value of an expression with every leaf read `k` bars further back. */
  function Eval<N>(A: Arith<N>, env: Leaves<N>, e: Expr, k: nat): Option<Val<N>>
    decreases e, 0, 0
  {
    match e
    case Number(lit) => Some(VNum(A.literal(lit)))
    case Int64(i) => Some(VInt(i))
    case Boolean(b) => Some(VBool(b))
    case Text(_) => None
    case Identifier(_) | Parameter(_) | Access(_) => env(e, k)
    case Binary(op, l, r) => BinaryEval(A, op, Eval(A, env, l, k), Eval(A, env, r, k))
    case Unary(op, x) => UnaryEval(A, op, Eval(A, env, x, k))
    case Ternary(c, y, n) =>
      var v := Eval(A, env, c, k);
      if v.None? || !v.value.VBool? then None
      else if v.value.b then Eval(A, env, y, k) else Eval(A, env, n, k)
    case Index(target, index) =>
      var n := LiteralOffset(index);
      if n.None? then None else Eval(A, env, target, k + n.value)
    case Call(fn, args, tags) => CallValue(A, env, fn, args, tags, k)
    case OtherNode => None
  }

  /** `cxpr_eval_binary_op`: the logical operators want booleans and stop early. */
  function BinaryEval<N>(A: Arith<N>, op: BinaryOp, a: Option<Val<N>>, b: Option<Val<N>>): Option<Val<N>> {
    if a.None? then None
    else if op == And || op == Or then
      if !a.value.VBool? then None
      else if a.value.b == (op == Or) then a
      else if b.Some? && b.value.VBool? then b else None
    else if b.None? then None
    else BinaryValue(A, op, a.value, b.value)
  }

  function UnaryEval<N>(A: Arith<N>, op: UnaryOp, v: Option<Val<N>>): Option<Val<N>> {
    if v.None? then None
    else match (op, v.value)
      case (Negate, VNum(a)) => Some(VNum(A.negate(a)))
      case (Negate, VInt(i)) => if i == INT64_MIN then None else Some(VInt(-i))
      case (LogicalNot, VBool(b)) => Some(VBool(!b))
      case _ => None
  }

  /** `cxpr_eval_binary_values`; values of different types have no common operator. */
  function BinaryValue<N>(A: Arith<N>, op: BinaryOp, l: Val<N>, r: Val<N>): Option<Val<N>> {
    match (l, r)
    case (VNum(a), VNum(b)) => NumberValue(A, op, a, b)
    case (VInt(a), VInt(b)) => IntValue(op, a, b)
    case (VBool(a), VBool(b)) =>
      if op == Equal then Some(VBool(a == b)) else if op == NotEqual then Some(VBool(a != b)) else None
    case _ => None
  }

  /** Two doubles; nothing is divided by zero. */
  function NumberValue<N>(A: Arith<N>, op: BinaryOp, a: N, b: N): Option<Val<N>> {
    match op
    case Plus => Some(VNum(A.arith(Add, a, b)))
    case Minus => Some(VNum(A.arith(Sub, a, b)))
    case Star => Some(VNum(A.arith(Mul, a, b)))
    case Slash => if A.isZero(b) then None else Some(VNum(A.arith(Div, a, b)))
    case Percent => if A.isZero(b) then None else A.cFunction("fmod", [VNum(a), VNum(b)])
    case Power => A.cFunction("pow", [VNum(a), VNum(b)])
    case Less => Some(VBool(A.cmp(Lt, a, b)))
    case Greater => Some(VBool(A.cmp(Gt, a, b)))
    case LessEqual => Some(VBool(A.cmp(Le, a, b)))
    case GreaterEqual => Some(VBool(A.cmp(Ge, a, b)))
    case Equal => Some(VBool(A.cmp(Eq, a, b)))
    case NotEqual => Some(VBool(!A.cmp(Eq, a, b)))
    case _ => None
  }

  /** Two int64 values, which the value algebra combines. */
  function IntValue<N>(op: BinaryOp, a: int, b: int): Option<Val<N>> {
    match op
    case Plus => FromOutcome(ValueOps.IntOp(ValueOps.Add, a, b))
    case Minus => FromOutcome(ValueOps.IntOp(ValueOps.Sub, a, b))
    case Star => FromOutcome(ValueOps.IntOp(ValueOps.Mul, a, b))
    case Slash => FromOutcome(ValueOps.IntOp(ValueOps.Div, a, b))
    case Less => FromOutcome(ValueOps.IntOp(ValueOps.Lt, a, b))
    case Greater => FromOutcome(ValueOps.IntOp(ValueOps.Gt, a, b))
    case LessEqual => FromOutcome(ValueOps.IntOp(ValueOps.Lte, a, b))
    case GreaterEqual => FromOutcome(ValueOps.IntOp(ValueOps.Gte, a, b))
    case Equal => Some(VBool(a == b))
    case NotEqual => Some(VBool(a != b))
    case _ => None
  }

  function FromOutcome<N>(r: ValueOps.Outcome<bool>): Option<Val<N>> {
    match r
    case Done(Int64(i)) => Some(VInt(i))
    case Done(Bool(b)) => Some(VBool(b))
    case _ => None
  }

  function CallValue<N>(A: Arith<N>, env: Leaves<N>, fn: string, args: seq<Expr>,
                        tags: seq<Option<string>>, k: nat): Option<Val<N>>
    decreases args, 2, 0
  {
    if IsTrend(fn) then
      if |args| != 2 || Samples(args[1], 2).None? then None
      else
        var ok := TrendUpto(A, env, if fn == "rising" then Gt else Lt, args[0], k, Samples(args[1], 2).value - 1);
        if ok.None? then None else Some(VBool(ok.value))
    else if fn == "repeat" then
      if |args| != 2 || Samples(args[1], 1).None? then None
      else
        var ok := RepeatUpto(A, env, args[0], k, Samples(args[1], 1).value);
        if ok.None? then None else Some(VBool(ok.value))
    else if IsCross(fn, |args|) then
      var now, before := ArgValues(A, env, args, k), ArgValues(A, env, args, k + 1);
      if now.None? || before.None? || !AllNumbers(now.value) || !AllNumbers(before.value) then None
      else Some(VBool(Crossed(A, fn == "cross_above", now.value, before.value)))
    else
      var vs, slots := ArgValues(A, env, args, k), ArgSlots(A, fn, |args|, tags);
      if vs.None? || slots.None? then None
      else PlainValue(A, fn, Arranged(vs.value, slots.value, VBool(true)))
  }

  /** Which argument each parameter receives. */
  function ArgSlots<N>(A: Arith<N>, fn: string, argc: nat, tags: seq<Option<string>>): (r: Option<seq<Option<nat>>>)
    ensures r.Some? ==> InRange(r.value, argc)
  {
    Slots(A.paramNames(fn), IsWithin(fn, argc), argc, tags)
  }

  /** A call that is neither a series nor a cross, on the values its parameters receive. */
  function PlainValue<N>(A: Arith<N>, fn: string, vs: seq<Val<N>>): Option<Val<N>> {
    if IsWithin(fn, |vs|) then WithinValue(A, vs)
    else if IsExtreme(fn, |vs|) then
      if |vs| > 8 || !AllNumbers(vs) then None
      else Some(VNum(Extreme(A, if fn == "min" then Lt else Gt, vs)))
    else A.builtin(fn, vs)
  }

  /** The loop of `cxpr_timeseries_trend_eval` after `n` comparisons. */
  function TrendUpto<N>(A: Arith<N>, env: Leaves<N>, op: BinOp, value: Expr, k: nat, n: nat): Option<bool>
    decreases value, 1, n
  {
    if n == 0 then Some(true)
    else
      var before := TrendUpto(A, env, op, value, k, n - 1);
      if before != Some(true) then before
      else
        var l, r := Eval(A, env, value, k + n - 1), Eval(A, env, value, k + n);
        if l.None? || r.None? || !l.value.VNum? || !r.value.VNum? then None
        else Some(A.cmp(op, l.value.n, r.value.n))
  }

  /** The loop of `cxpr_timeseries_repeat` after `n` bars. */
  function RepeatUpto<N>(A: Arith<N>, env: Leaves<N>, condition: Expr, k: nat, n: nat): Option<bool>
    decreases condition, 1, n
  {
    if n == 0 then Some(true)
    else
      var before := RepeatUpto(A, env, condition, k, n - 1);
      if before != Some(true) then before
      else
        var v := Eval(A, env, condition, k + n - 1);
        if v.None? || !v.value.VBool? then None else Some(v.value.b)
  }

  function ArgValues<N>(A: Arith<N>, env: Leaves<N>, args: seq<Expr>, k: nat): (r: Option<seq<Val<N>>>)
    ensures r.Some? ==> |r.value| == |args|
    decreases args, 0, 0
  {
    if args == [] then Some([])
    else
      var v, more := Eval(A, env, args[0], k), ArgValues(A, env, args[1..], k);
      if v.None? || more.None? then None else Some([v.value] + more.value)
  }

  predicate AllNumbers<N>(vs: seq<Val<N>>) {
    forall i | 0 <= i < |vs| :: vs[i].VNum?
  }

  /** `cxpr_timeseries_cross_eval` */
  predicate Crossed<N>(A: Arith<N>, above: bool, now: seq<Val<N>>, before: seq<Val<N>>)
    requires |now| == |before| == 2 && AllNumbers(now) && AllNumbers(before)
  {
    && A.cmp(if above then Le else Ge, before[0].n, before[1].n)
    && A.cmp(if above then Gt else Lt, now[0].n, now[1].n)
  }

  /** `cxpr_fn_within` on what its parameters receive */
  function WithinValue<N>(A: Arith<N>, vs: seq<Val<N>>): Option<Val<N>>
    requires 3 <= |vs| <= 5
  {
    if !vs[0].VNum? || !vs[1].VNum? || !vs[2].VNum? then None
    else if (|vs| > 3 && !vs[3].VBool?) || (|vs| > 4 && !vs[4].VBool?) then None
    else
      var lower := A.cmp(if |vs| > 3 && !vs[3].b then Gt else Ge, vs[0].n, vs[1].n);
      var upper := A.cmp(if |vs| > 4 && !vs[4].b then Lt else Le, vs[0].n, vs[2].n);
      Some(VBool(lower && upper))
  }

  /** `cxpr_min_n` and `cxpr_max_n`: keep the first of the arguments that no later one beats. */
  function Extreme<N>(A: Arith<N>, op: BinOp, vs: seq<Val<N>>): N
    requires vs != [] && AllNumbers(vs)
  {
    if |vs| == 1 then vs[0].n
    else
      var best, x := Extreme(A, op, vs[..|vs| - 1]), vs[|vs| - 1].n;
      if A.cmp(op, x, best) then x else best
  }
}
