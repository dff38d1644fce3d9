/**
 The fragment of C expressions that generated text uses: lexical pieces, tokens, expression
 trees, a lexer with maximal munch, and a parser for the grammar of section 6.5 of
 ISO/IEC 9899:2011 restricted to these tokens.
 */
module CSyntax {

  datatype BinOp = Mul | Div | Add | Sub | Lt | Gt | Le | Ge | Eq | Ne | AndAnd | OrOr

  datatype Tok =
    | Id(name: string) | Num(magnitude: real) | Int(value: int) | Bool(b: bool) | Str(text: string) | NanTok
    | LParen | RParen | Comma | Question | Colon | Bang | Op(op: BinOp) | Decr

  /** Generated text: tokens, and the spaces that keep neighbouring tokens apart. */
  datatype Piece = Space | T(tok: Tok)

  type Text = seq<Piece>

  datatype UnOp = Neg | Not | PreDecrement

  datatype CExpr =
    | CLeaf(tok: Tok)
    | CUn(uop: UnOp, arg: CExpr)
    | CBin(op: BinOp, left: CExpr, right: CExpr)
    | CCond(cond: CExpr, yes: CExpr, no: CExpr)
    | CCall(fn: CExpr, args: seq<CExpr>)

  // ----- lexing -----

  const MINUS := T(Op(Sub))

  /** Two minus signs with nothing between them are one decrement token (6.4 paragraph 4). */
  function Lex(text: Text): seq<Tok> {
    if text == [] then []
    else if text[0] == Space then Lex(text[1..])
    else if text[0] == MINUS && |text| > 1 && text[1] == MINUS then [Decr] + Lex(text[2..])
    else [text[0].tok] + Lex(text[1..])
  }

  lemma {:induction false} LexConcat(a: Text, b: Text)
    requires a == [] || b == [] || a[|a| - 1] != MINUS || b[0] != MINUS
    ensures Lex(a + b) == Lex(a) + Lex(b)
  {
    if a == [] {
      assert a + b == b;
    } else if a[0] == MINUS && |a| > 1 && a[1] == MINUS {
      assert (a + b)[2..] == a[2..] + b;
      LexConcat(a[2..], b);
      Associate([Decr], Lex(a[2..]), Lex(b));
    } else {
      assert (a + b)[1..] == a[1..] + b;
      LexConcat(a[1..], b);
      Associate(if a[0] == Space then [] else [a[0].tok], Lex(a[1..]), Lex(b));
    }
  }

  lemma Associate(x: seq<Tok>, y: seq<Tok>, z: seq<Tok>)
    ensures x + (y + z) == (x + y) + z
  {
  }

  // ----- parsing -----

  datatype Parse<T> = Fail | Ok(value: T, rest: seq<Tok>)

  /** Binding strength: `||` 1, `&&` 2, equality 3, relational 4, additive 5, multiplicative 6. */
  function Level(op: BinOp): (l: nat)
    ensures 1 <= l <= 6
  {
    match op
    case Mul | Div => 6
    case Add | Sub => 5
    case Lt | Gt | Le | Ge => 4
    case Eq | Ne => 3
    case AndAnd => 2
    case OrOr => 1
  }

  predicate IsLeaf(t: Tok) {
    t.Id? || t.Num? || t.Int? || t.Bool? || t.Str? || t.NanTok?
  }

  /** conditional-expression, 6.5.15 */
  function ParseCond(ts: seq<Tok>): (r: Parse<CExpr>)
    ensures r.Ok? ==> |r.rest| < |ts|
    decreases |ts|, 20
  {
    var c := ParseBin(1, ts);
    if c.Fail? then Fail
    else if c.rest != [] && c.rest[0] == Question then
      var y := ParseCond(c.rest[1..]);
      if y.Fail? || y.rest == [] || y.rest[0] != Colon then Fail
      else
        var n := ParseCond(y.rest[1..]);
        if n.Fail? then Fail else Ok(CCond(c.value, y.value, n.value), n.rest)
    else c
  }

  /** The binary operators, 6.5.5 to 6.5.14; level 7 is the unary-expression below them. */
  function ParseBin(level: nat, ts: seq<Tok>): (r: Parse<CExpr>)
    requires 1 <= level <= 7
    ensures r.Ok? ==> |r.rest| < |ts|
    decreases |ts|, 19 - level
  {
    if level == 7 then ParseUnary(ts)
    else
      var l := ParseBin(level + 1, ts);
      if l.Fail? then Fail else ParseTail(level, l.value, l.rest)
  }

  /** The left-associative tail of one binary level. */
  function ParseTail(level: nat, left: CExpr, ts: seq<Tok>): (r: Parse<CExpr>)
    requires 1 <= level <= 6
    ensures r.Ok? ==> |r.rest| <= |ts|
    decreases |ts|, 0
  {
    if ts != [] && ts[0].Op? && Level(ts[0].op) == level then
      var r := ParseBin(level + 1, ts[1..]);
      if r.Fail? then Fail else ParseTail(level, CBin(ts[0].op, left, r.value), r.rest)
    else Ok(left, ts)
  }

  /** unary-expression, 6.5.3 */
  function ParseUnary(ts: seq<Tok>): (r: Parse<CExpr>)
    ensures r.Ok? ==> |r.rest| < |ts|
    decreases |ts|, 9
  {
    if ts == [] then Fail
    else if ts[0] == Op(Sub) || ts[0] == Bang || ts[0] == Decr then
      var x := ParseUnary(ts[1..]);
      if x.Fail? then Fail
      else Ok(CUn(if ts[0] == Bang then Not else if ts[0] == Decr then PreDecrement else Neg, x.value), x.rest)
    else
      var p := ParsePrimary(ts);
      if p.Fail? then Fail else ParseCalls(p.value, p.rest)
  }

  /** primary-expression, 6.5.1 */
  function ParsePrimary(ts: seq<Tok>): (r: Parse<CExpr>)
    ensures r.Ok? ==> |r.rest| < |ts|
    decreases |ts|, 8
  {
    if ts == [] then Fail
    else if IsLeaf(ts[0]) then Ok(CLeaf(ts[0]), ts[1..])
    else if ts[0] == LParen then
      var e := ParseCond(ts[1..]);
      if e.Fail? || e.rest == [] || e.rest[0] != RParen then Fail else Ok(e.value, e.rest[1..])
    else Fail
  }

  /** The function calls of a postfix-expression, 6.5.2 */
  function ParseCalls(fn: CExpr, ts: seq<Tok>): (r: Parse<CExpr>)
    ensures r.Ok? ==> |r.rest| <= |ts|
    decreases |ts|, 7
  {
    if ts != [] && ts[0] == LParen then
      var a := ParseArgs(ts[1..]);
      if a.Fail? then Fail else ParseCalls(CCall(fn, a.value), a.rest)
    else Ok(fn, ts)
  }

  /** argument-expression-list and its closing parenthesis */
  function ParseArgs(ts: seq<Tok>): (r: Parse<seq<CExpr>>)
    ensures r.Ok? ==> |r.rest| < |ts|
    decreases |ts|, 22
  {
    if ts != [] && ts[0] == RParen then Ok([], ts[1..]) else ParseMoreArgs(ts)
  }

  function ParseMoreArgs(ts: seq<Tok>): (r: Parse<seq<CExpr>>)
    ensures r.Ok? ==> |r.rest| < |ts|
    decreases |ts|, 21
  {
    var e := ParseCond(ts);
    if e.Fail? || e.rest == [] then Fail
    else if e.rest[0] == RParen then Ok([e.value], e.rest[1..])
    else if e.rest[0] == Comma then
      var more := ParseMoreArgs(e.rest[1..]);
      if more.Fail? then Fail else Ok([e.value] + more.value, more.rest)
    else Fail
  }

  // ----- printing -----

  /** A C expression with its parentheses made explicit: what generated text is laid out from. */
  datatype Layout =
    | Leaf(tok: Tok)
    | Paren(inner: Layout)
    | Un(uop: UnOp, arg: Layout)
    | Bin(op: BinOp, left: Layout, right: Layout)
    | Cond(cond: Layout, yes: Layout, no: Layout)
    | Call(fn: string, args: seq<Layout>)

  function UnTok(op: UnOp): Tok {
    match op
    case Neg => Op(Sub)
    case Not => Bang
    case PreDecrement => Decr
  }

  /** The text of a layout: operators between spaces, signs directly before their operand. */
  function Print(p: Layout): Text {
    match p
    case Leaf(t) => [T(t)]
    case Paren(x) => [T(LParen)] + Print(x) + [T(RParen)]
    case Un(op, x) => [T(UnTok(op))] + Print(x)
    case Bin(op, l, r) => Print(l) + [Space, T(Op(op)), Space] + Print(r)
    case Cond(c, y, n) =>
      Print(c) + [Space, T(Question), Space] + Print(y) + [Space, T(Colon), Space] + Print(n)
    case Call(f, args) => [T(Id(f)), T(LParen)] + PrintArgs(args) + [T(RParen)]
  }

  function PrintArgs(args: seq<Layout>): Text {
    if args == [] then []
    else if |args| == 1 then Print(args[0])
    else Print(args[0]) + [T(Comma), Space] + PrintArgs(args[1..])
  }

  /** The tree a layout is meant to denote: the same expression without its parentheses. */
  function Tree(p: Layout): CExpr {
    match p
    case Leaf(t) => CLeaf(t)
    case Paren(x) => Tree(x)
    case Un(op, x) => CUn(op, Tree(x))
    case Bin(op, l, r) => CBin(op, Tree(l), Tree(r))
    case Cond(c, y, n) => CCond(Tree(c), Tree(y), Tree(n))
    case Call(f, args) => CCall(CLeaf(Id(f)), Trees(args))
  }

  function Trees(args: seq<Layout>): (ts: seq<CExpr>)
    ensures |ts| == |args|
    ensures forall i | 0 <= i < |args| :: ts[i] == Tree(args[i])
  {
    if args == [] then [] else [Tree(args[0])] + Trees(args[1..])
  }

  function Strength(p: Layout): (l: nat)
    ensures l <= 8
  {
    match p
    case Cond(_, _, _) => 0
    case Bin(op, _, _) => Level(op)
    case Un(_, _) => 7
    case Leaf(_) | Paren(_) | Call(_, _) => 8
  }

  /** Every operand binds at least as tightly as its place in the grammar asks for. */
  predicate WellParenthesised(p: Layout) {
    match p
    case Leaf(t) => IsLeaf(t)
    case Paren(x) => WellParenthesised(x)
    case Un(op, x) => op != PreDecrement && Strength(x) >= 7 && WellParenthesised(x)
    case Bin(op, l, r) =>
      && Strength(l) >= Level(op) && Strength(r) > Level(op)
      && WellParenthesised(l) && WellParenthesised(r)
    case Cond(c, y, n) =>
      Strength(c) >= 1 && WellParenthesised(c) && WellParenthesised(y) && WellParenthesised(n)
    case Call(f, args) => forall i | 0 <= i < |args| :: WellParenthesised(args[i])
  }

  /** No unary minus stands directly before text that starts with a minus sign. */
  predicate NoDoubleMinus(p: Layout) {
    match p
    case Leaf(t) => true
    case Paren(x) => NoDoubleMinus(x)
    case Un(op, x) => (op == Neg ==> Print(x)[..1] != [MINUS]) && NoDoubleMinus(x)
    case Bin(op, l, r) => NoDoubleMinus(l) && NoDoubleMinus(r)
    case Cond(c, y, n) => NoDoubleMinus(c) && NoDoubleMinus(y) && NoDoubleMinus(n)
    case Call(f, args) => forall i | 0 <= i < |args| :: NoDoubleMinus(args[i])
  }
}
