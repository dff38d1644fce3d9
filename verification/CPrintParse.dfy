/**
 Printing then lexing and parsing: a well-parenthesised layout is read back as the tree it is
 meant to denote exactly when no minus sign is printed directly before another one.
 */
module CPrintParse {
  import opened CSyntax

  /** The tokens of a layout, in order. */
  function Tokens(p: Layout): seq<Tok> {
    match p
    case Leaf(t) => [t]
    case Paren(x) => [LParen] + Tokens(x) + [RParen]
    case Un(op, x) => [UnTok(op)] + Tokens(x)
    case Bin(op, l, r) => Tokens(l) + [Op(op)] + Tokens(r)
    case Cond(c, y, n) => Tokens(c) + [Question] + Tokens(y) + [Colon] + Tokens(n)
    case Call(f, args) => [Id(f), LParen] + ArgTokens(args) + [RParen]
  }

  function ArgTokens(args: seq<Layout>): seq<Tok> {
    if args == [] then []
    else if |args| == 1 then Tokens(args[0])
    else Tokens(args[0]) + [Comma] + ArgTokens(args[1..])
  }

  // ----- lexing printed text -----

  lemma {:induction false} PrintEnds(p: Layout)
    requires WellParenthesised(p)
    ensures Print(p) != [] && Print(p)[|Print(p)| - 1] != MINUS
  {
    match p
    case Leaf(_) =>
    case Paren(_) =>
    case Un(_, x) => PrintEnds(x);
    case Bin(_, _, r) => PrintEnds(r);
    case Cond(_, _, n) => PrintEnds(n);
    case Call(_, _) =>
  }

  /** Lex three pieces of text that cannot merge. */
  lemma Lex3(a: Text, b: Text, c: Text)
    requires b != [] && b[0] != MINUS && b[|b| - 1] != MINUS
    ensures Lex(a + b + c) == Lex(a) + Lex(b) + Lex(c)
  {
    LexConcat(a, b);
    LexConcat(a + b, c);
  }

  lemma LexOperator(t: Tok)
    requires t != Decr
    ensures Lex([Space, T(t), Space]) == [t]
  {
    var s := [Space, T(t), Space];
    assert s[1..] == [T(t), Space] && s[1..][1..] == [Space] && s[1..][1..][1..] == [];
    assert Lex([Space]) == [] by { assert [Space][1..] == []; }
    assert Lex([T(t), Space]) == [t];
  }

  lemma LexOne(t: Tok)
    ensures Lex([T(t)]) == [t]
  {
    assert [T(t)][1..] == [];
  }

  lemma LexParen(x: Text)
    ensures Lex([T(LParen)] + x + [T(RParen)]) == [LParen] + Lex(x) + [RParen]
  {
    LexOne(LParen); LexOne(RParen);
    LexConcat([T(LParen)], x);
    LexConcat([T(LParen)] + x, [T(RParen)]);
  }

  lemma LexCond(c: Text, y: Text, n: Text)
    ensures Lex(c + [Space, T(Question), Space] + y + [Space, T(Colon), Space] + n)
         == Lex(c) + [Question] + Lex(y) + [Colon] + Lex(n)
  {
    LexOperator(Question); LexOperator(Colon);
    var q, k := [Space, T(Question), Space], [Space, T(Colon), Space];
    Lex3(c, q, y);
    Lex3(c + q + y, k, n);
  }

  lemma {:induction false} LexPrint(p: Layout)
    requires WellParenthesised(p) && NoDoubleMinus(p)
    ensures Lex(Print(p)) == Tokens(p)
  {
    match p
    case Leaf(t) => LexOne(t);
    case Paren(x) =>
      LexPrint(x);
      LexParen(Print(x));
    case Un(op, x) =>
      LexPrint(x);
      PrintEnds(x);
      LexOne(UnTok(op));
      LexConcat([T(UnTok(op))], Print(x));
    case Bin(op, l, r) =>
      LexPrint(l); LexPrint(r);
      LexOperator(Op(op));
      Lex3(Print(l), [Space, T(Op(op)), Space], Print(r));
    case Cond(c, y, n) =>
      LexPrint(c); LexPrint(y); LexPrint(n);
      LexCond(Print(c), Print(y), Print(n));
    case Call(f, args) =>
      LexPrintArgs(args);
      LexCall(f, args);
  }

  lemma LexCall(f: string, args: seq<Layout>)
    ensures Lex(Print(Call(f, args))) == [Id(f), LParen] + Lex(PrintArgs(args)) + [RParen]
  {
    var a, c := [T(Id(f)), T(LParen)], [T(RParen)];
    assert a[1..] == [T(LParen)];
    LexOne(LParen); LexOne(RParen);
    LexConcat(a, PrintArgs(args));
    LexConcat(a + PrintArgs(args), c);
  }

  lemma LexComma()
    ensures Lex([T(Comma), Space]) == [Comma]
  {
    var comma := [T(Comma), Space];
    assert comma[1..] == [Space] && [Space][1..] == [];
    assert Lex([Space]) == [];
  }

  lemma LexArgsStep(args: seq<Layout>)
    requires |args| > 1
    ensures Lex(PrintArgs(args)) == Lex(Print(args[0])) + [Comma] + Lex(PrintArgs(args[1..]))
  {
    LexComma();
    Lex3(Print(args[0]), [T(Comma), Space], PrintArgs(args[1..]));
  }

  lemma {:induction false} LexPrintArgs(args: seq<Layout>)
    requires forall i | 0 <= i < |args| :: WellParenthesised(args[i]) && NoDoubleMinus(args[i])
    ensures Lex(PrintArgs(args)) == ArgTokens(args)
  {
    if args != [] {
      LexPrint(args[0]);
      if |args| > 1 {
        LexArgsStep(args);
        LexPrintArgs(args[1..]);
      }
    }
  }

  // ----- parsing the tokens -----

  /** What may follow an operand at this level without being drawn into it. */
  predicate Stops(level: nat, rest: seq<Tok>) {
    rest == [] || (rest[0] != LParen && !(rest[0].Op? && Level(rest[0].op) >= level))
  }

  /** What may follow a complete expression. */
  predicate Closes(rest: seq<Tok>) {
    rest == [] || rest[0] == RParen || rest[0] == Comma || rest[0] == Colon
  }

  // One step of each parsing function, with the sequences it splits given separately.

  lemma CondStep(ts: seq<Tok>, c: CExpr, a: seq<Tok>, y: CExpr, b: seq<Tok>, n: CExpr, rest: seq<Tok>)
    requires ParseBin(1, ts) == Ok(c, [Question] + a)
    requires ParseCond(a) == Ok(y, [Colon] + b)
    requires ParseCond(b) == Ok(n, rest)
    ensures ParseCond(ts) == Ok(CCond(c, y, n), rest)
  {
    assert ([Question] + a)[1..] == a && ([Colon] + b)[1..] == b;
  }

  lemma TailStep(op: BinOp, left: CExpr, a: seq<Tok>, right: CExpr, rest: seq<Tok>)
    requires ParseBin(Level(op) + 1, a) == Ok(right, rest)
    ensures ParseTail(Level(op), left, [Op(op)] + a) == ParseTail(Level(op), CBin(op, left, right), rest)
  {
    assert ([Op(op)] + a)[1..] == a;
  }

  lemma SignStep(op: UnOp, a: seq<Tok>, x: CExpr, rest: seq<Tok>)
    requires ParseUnary(a) == Ok(x, rest)
    ensures ParseUnary([UnTok(op)] + a) == Ok(CUn(op, x), rest)
  {
    assert ([UnTok(op)] + a)[1..] == a;
  }

  lemma LeafStep(t: Tok, rest: seq<Tok>)
    requires IsLeaf(t)
    ensures ParsePrimary([t] + rest) == Ok(CLeaf(t), rest)
    ensures ParseUnary([t] + rest) == ParseCalls(CLeaf(t), rest)
  {
    assert ([t] + rest)[1..] == rest;
  }

  lemma ParenStep(a: seq<Tok>, x: CExpr, rest: seq<Tok>)
    requires ParseCond(a) == Ok(x, [RParen] + rest)
    ensures ParseUnary([LParen] + a) == ParseCalls(x, rest)
  {
    assert ([LParen] + a)[1..] == a && ([RParen] + rest)[1..] == rest;
    assert ParsePrimary([LParen] + a) == Ok(x, rest);
  }

  lemma CallStep(fn: CExpr, a: seq<Tok>, args: seq<CExpr>, rest: seq<Tok>)
    requires ParseArgs(a) == Ok(args, rest) && Stops(7, rest)
    ensures ParseCalls(fn, [LParen] + a) == Ok(CCall(fn, args), rest)
  {
    assert ([LParen] + a)[1..] == a;
  }

  // How the tokens of a layout split, with what follows them.

  lemma SplitBin(l: Layout, op: BinOp, r: Layout, rest: seq<Tok>)
    ensures Tokens(Bin(op, l, r)) + rest == Tokens(l) + ([Op(op)] + (Tokens(r) + rest))
  {
  }

  lemma SplitCond(c: Layout, y: Layout, n: Layout, rest: seq<Tok>)
    ensures Tokens(Cond(c, y, n)) + rest
         == Tokens(c) + ([Question] + (Tokens(y) + ([Colon] + (Tokens(n) + rest))))
  {
  }

  lemma SplitUn(op: UnOp, x: Layout, rest: seq<Tok>)
    ensures Tokens(Un(op, x)) + rest == [UnTok(op)] + (Tokens(x) + rest)
  {
  }

  lemma SplitParen(x: Layout, rest: seq<Tok>)
    ensures Tokens(Paren(x)) + rest == [LParen] + (Tokens(x) + ([RParen] + rest))
  {
  }

  lemma SplitCall(f: string, args: seq<Layout>, rest: seq<Tok>)
    ensures Tokens(Call(f, args)) + rest == [Id(f)] + ([LParen] + (ArgTokens(args) + ([RParen] + rest)))
  {
  }

  lemma SplitArgs(args: seq<Layout>, rest: seq<Tok>)
    requires args != []
    ensures ArgTokens(args) + ([RParen] + rest)
         == if |args| == 1 then Tokens(args[0]) + ([RParen] + rest)
            else Tokens(args[0]) + ([Comma] + (ArgTokens(args[1..]) + ([RParen] + rest)))
  {
  }

  lemma {:induction false} UnaryParses(p: Layout, rest: seq<Tok>)
    requires WellParenthesised(p) && Strength(p) >= 7 && Stops(7, rest)
    ensures ParseUnary(Tokens(p) + rest) == Ok(Tree(p), rest)
    decreases p, 0
  {
    match p
    case Leaf(t) =>
      LeafStep(t, rest);
    case Un(op, x) =>
      SplitUn(op, x, rest);
      UnaryParses(x, rest);
      SignStep(op, Tokens(x) + rest, Tree(x), rest);
    case Paren(x) =>
      SplitParen(x, rest);
      CondParses(x, [RParen] + rest);
      ParenStep(Tokens(x) + ([RParen] + rest), Tree(x), rest);
    case Call(f, args) =>
      SplitCall(f, args, rest);
      ArgsParse(args, rest);
      CallStep(CLeaf(Id(f)), ArgTokens(args) + ([RParen] + rest), Trees(args), rest);
      LeafStep(Id(f), [LParen] + (ArgTokens(args) + ([RParen] + rest)));
  }

  lemma {:induction false} BinParses(level: nat, p: Layout, rest: seq<Tok>)
    requires 1 <= level <= 6 && WellParenthesised(p) && Strength(p) >= level && Stops(level + 1, rest)
    ensures ParseBin(level, Tokens(p) + rest) == ParseTail(level, Tree(p), rest)
    decreases p, 8 - level, 1
  {
    if Strength(p) > level {
      NextLevelParses(level, p, rest);
    } else {
      SplitBin(p.left, p.op, p.right, rest);
      BinParses(level, p.left, [Op(p.op)] + (Tokens(p.right) + rest));
      NextLevelParses(level, p.right, rest);
      TailStep(p.op, Tree(p.left), Tokens(p.right) + rest, Tree(p.right), rest);
    }
  }

  lemma {:induction false} NextLevelParses(level: nat, p: Layout, rest: seq<Tok>)
    requires 1 <= level <= 6 && WellParenthesised(p) && Strength(p) > level && Stops(level + 1, rest)
    ensures ParseBin(level + 1, Tokens(p) + rest) == Ok(Tree(p), rest)
    decreases p, 8 - level, 0
  {
    if level == 6 {
      UnaryParses(p, rest);
    } else {
      BinParses(level + 1, p, rest);
    }
  }

  lemma {:induction false} CondParses(p: Layout, rest: seq<Tok>)
    requires WellParenthesised(p) && Closes(rest)
    ensures ParseCond(Tokens(p) + rest) == Ok(Tree(p), rest)
    decreases p, 9
  {
    if p.Cond? {
      CondFormParses(p.cond, p.yes, p.no, rest);
    } else {
      BinParses(1, p, rest);
    }
  }

  lemma {:induction false} CondFormParses(c: Layout, y: Layout, n: Layout, rest: seq<Tok>)
    requires WellParenthesised(Cond(c, y, n)) && Closes(rest)
    ensures ParseCond(Tokens(Cond(c, y, n)) + rest) == Ok(CCond(Tree(c), Tree(y), Tree(n)), rest)
    decreases Cond(c, y, n), 8
  {
    SplitCond(c, y, n, rest);
    var b := Tokens(n) + rest;
    var a := Tokens(y) + ([Colon] + b);
    BinParses(1, c, [Question] + a);
    CondParses(y, [Colon] + b);
    CondParses(n, rest);
    CondStep(Tokens(c) + ([Question] + a), Tree(c), a, Tree(y), b, Tree(n), rest);
  }

  lemma {:induction false} FirstToken(p: Layout)
    requires WellParenthesised(p)
    ensures Tokens(p) != [] && Tokens(p)[0] != RParen
  {
    match p
    case Leaf(_) =>
    case Paren(_) =>
    case Un(_, _) =>
    case Bin(_, l, _) => FirstToken(l);
    case Cond(c, _, _) => FirstToken(c);
    case Call(_, _) =>
  }

  lemma LastArgStep(a: seq<Tok>, x: CExpr, rest: seq<Tok>)
    requires ParseCond(a) == Ok(x, [RParen] + rest)
    ensures ParseMoreArgs(a) == Ok([x], rest)
  {
    assert ([RParen] + rest)[1..] == rest;
  }

  lemma ArgStep(a: seq<Tok>, x: CExpr, b: seq<Tok>, xs: seq<CExpr>, rest: seq<Tok>)
    requires ParseCond(a) == Ok(x, [Comma] + b) && ParseMoreArgs(b) == Ok(xs, rest)
    ensures ParseMoreArgs(a) == Ok([x] + xs, rest)
  {
    assert ([Comma] + b)[1..] == b;
  }

  lemma {:induction false} ArgsParse(args: seq<Layout>, rest: seq<Tok>)
    requires forall i | 0 <= i < |args| :: WellParenthesised(args[i])
    ensures ParseArgs(ArgTokens(args) + ([RParen] + rest)) == Ok(Trees(args), rest)
    decreases args, 1
  {
    if args == [] {
      assert [] + ([RParen] + rest) == [RParen] + rest && ([RParen] + rest)[1..] == rest;
    } else {
      FirstToken(args[0]);
      MoreArgsParse(args, rest);
    }
  }

  lemma {:induction false} MoreArgsParse(args: seq<Layout>, rest: seq<Tok>)
    requires args != [] && forall i | 0 <= i < |args| :: WellParenthesised(args[i])
    ensures ParseMoreArgs(ArgTokens(args) + ([RParen] + rest)) == Ok(Trees(args), rest)
    decreases args, 0
  {
    SplitArgs(args, rest);
    if |args| == 1 {
      CondParses(args[0], [RParen] + rest);
      LastArgStep(Tokens(args[0]) + ([RParen] + rest), Tree(args[0]), rest);
      assert Trees(args) == [Tree(args[0])];
    } else {
      var b := ArgTokens(args[1..]) + ([RParen] + rest);
      CondParses(args[0], [Comma] + b);
      MoreArgsParse(args[1..], rest);
      ArgStep(Tokens(args[0]) + ([Comma] + b), Tree(args[0]), b, Trees(args[1..]), rest);
    }
  }

  // ----- what goes wrong otherwise -----

  function Decrements(ts: seq<Tok>): nat {
    if ts == [] then 0 else (if ts[0] == Decr then 1 else 0) + Decrements(ts[1..])
  }

  function TreeDecrements(e: CExpr): nat {
    match e
    case CLeaf(_) => 0
    case CUn(op, x) => (if op == PreDecrement then 1 else 0) + TreeDecrements(x)
    case CBin(_, l, r) => TreeDecrements(l) + TreeDecrements(r)
    case CCond(c, y, n) => TreeDecrements(c) + TreeDecrements(y) + TreeDecrements(n)
    case CCall(f, args) => TreeDecrements(f) + ArgDecrements(args)
  }

  function ArgDecrements(args: seq<CExpr>): nat {
    if args == [] then 0 else TreeDecrements(args[0]) + ArgDecrements(args[1..])
  }

  // Parsing loses no decrement: each one read is one in the tree.

  lemma {:induction false} CondKeeps(ts: seq<Tok>)
    ensures var r := ParseCond(ts);
            r.Ok? ==> Decrements(ts) == TreeDecrements(r.value) + Decrements(r.rest)
    decreases |ts|, 20
  {
    BinKeeps(1, ts);
    var c := ParseBin(1, ts);
    if c.Ok? && c.rest != [] && c.rest[0] == Question {
      CondKeeps(c.rest[1..]);
      var y := ParseCond(c.rest[1..]);
      if y.Ok? && y.rest != [] && y.rest[0] == Colon {
        CondKeeps(y.rest[1..]);
      }
    }
  }

  lemma {:induction false} BinKeeps(level: nat, ts: seq<Tok>)
    requires 1 <= level <= 7
    ensures var r := ParseBin(level, ts);
            r.Ok? ==> Decrements(ts) == TreeDecrements(r.value) + Decrements(r.rest)
    decreases |ts|, 19 - level
  {
    if level == 7 {
      UnaryKeeps(ts);
    } else {
      BinKeeps(level + 1, ts);
      var l := ParseBin(level + 1, ts);
      if l.Ok? {
        TailKeeps(level, l.value, l.rest);
      }
    }
  }

  lemma {:induction false} TailKeeps(level: nat, left: CExpr, ts: seq<Tok>)
    requires 1 <= level <= 6
    ensures var r := ParseTail(level, left, ts);
            r.Ok? ==> TreeDecrements(left) + Decrements(ts) == TreeDecrements(r.value) + Decrements(r.rest)
    decreases |ts|, 0
  {
    if ts != [] && ts[0].Op? && Level(ts[0].op) == level {
      BinKeeps(level + 1, ts[1..]);
      var r := ParseBin(level + 1, ts[1..]);
      if r.Ok? {
        TailKeeps(level, CBin(ts[0].op, left, r.value), r.rest);
      }
    }
  }

  lemma {:induction false} UnaryKeeps(ts: seq<Tok>)
    ensures var r := ParseUnary(ts);
            r.Ok? ==> Decrements(ts) == TreeDecrements(r.value) + Decrements(r.rest)
    decreases |ts|, 9
  {
    if ts != [] {
      if ts[0] == Op(Sub) || ts[0] == Bang || ts[0] == Decr {
        UnaryKeeps(ts[1..]);
      } else {
        PrimaryKeeps(ts);
        var p := ParsePrimary(ts);
        if p.Ok? {
          CallsKeep(p.value, p.rest);
        }
      }
    }
  }

  lemma {:induction false} PrimaryKeeps(ts: seq<Tok>)
    ensures var r := ParsePrimary(ts);
            r.Ok? ==> Decrements(ts) == TreeDecrements(r.value) + Decrements(r.rest)
    decreases |ts|, 8
  {
    if ts != [] && ts[0] == LParen {
      CondKeeps(ts[1..]);
    }
  }

  lemma {:induction false} CallsKeep(fn: CExpr, ts: seq<Tok>)
    ensures var r := ParseCalls(fn, ts);
            r.Ok? ==> TreeDecrements(fn) + Decrements(ts) == TreeDecrements(r.value) + Decrements(r.rest)
    decreases |ts|, 7
  {
    if ts != [] && ts[0] == LParen {
      ArgsKeep(ts[1..]);
      var a := ParseArgs(ts[1..]);
      if a.Ok? {
        CallsKeep(CCall(fn, a.value), a.rest);
      }
    }
  }

  lemma {:induction false} ArgsKeep(ts: seq<Tok>)
    ensures var r := ParseArgs(ts);
            r.Ok? ==> Decrements(ts) == ArgDecrements(r.value) + Decrements(r.rest)
    decreases |ts|, 22
  {
    MoreArgsKeep(ts);
  }

  lemma {:induction false} MoreArgsKeep(ts: seq<Tok>)
    ensures var r := ParseMoreArgs(ts);
            r.Ok? ==> Decrements(ts) == ArgDecrements(r.value) + Decrements(r.rest)
    decreases |ts|, 21
  {
    CondKeeps(ts);
    var e := ParseCond(ts);
    if e.Ok? && e.rest != [] && e.rest[0] == Comma {
      MoreArgsKeep(e.rest[1..]);
    }
  }

  lemma {:induction false} DecrementsConcat(a: seq<Tok>, b: seq<Tok>)
    ensures Decrements(a + b) == Decrements(a) + Decrements(b)
  {
    if a == [] {
      assert a + b == b;
    } else {
      assert (a + b)[1..] == a[1..] + b;
      DecrementsConcat(a[1..], b);
    }
  }

  /** Lexing keeps the decrements of a piece that cannot merge with its neighbours. */
  lemma DecrementsIn(a: Text, b: Text, c: Text)
    requires a == [] || b == [] || a[|a| - 1] != MINUS || b[0] != MINUS
    requires a + b == [] || c == [] || (a + b)[|a + b| - 1] != MINUS || c[0] != MINUS
    ensures Decrements(Lex(a + b + c)) == Decrements(Lex(a)) + Decrements(Lex(b)) + Decrements(Lex(c))
  {
    LexConcat(a, b);
    LexConcat(a + b, c);
    DecrementsConcat(Lex(a), Lex(b));
    DecrementsConcat(Lex(a + b), Lex(c));
  }

  lemma {:induction false} DoubleMinusLexes(p: Layout)
    requires WellParenthesised(p) && !NoDoubleMinus(p)
    ensures Decrements(Lex(Print(p))) > 0
  {
    match p
    case Leaf(_) =>
    case Paren(x) =>
      DoubleMinusLexes(x);
      PrintEnds(x);
      DecrementsIn([T(LParen)], Print(x), [T(RParen)]);
    case Un(op, x) =>
      PrintEnds(x);
      if op == Neg && Print(x)[0] == MINUS {
        assert Lex(Print(p))[0] == Decr;
      } else {
        DoubleMinusLexes(x);
        LexConcat([T(UnTok(op))], Print(x));
        DecrementsConcat(Lex([T(UnTok(op))]), Lex(Print(x)));
      }
    case Bin(op, l, r) =>
      if !NoDoubleMinus(l) { DoubleMinusLexes(l); } else { DoubleMinusLexes(r); }
      DecrementsIn(Print(l), [Space, T(Op(op)), Space], Print(r));
    case Cond(c, y, n) =>
      if !NoDoubleMinus(c) { DoubleMinusLexes(c); }
      else if !NoDoubleMinus(y) { DoubleMinusLexes(y); }
      else { DoubleMinusLexes(n); }
      var q, k := [Space, T(Question), Space], [Space, T(Colon), Space];
      DecrementsIn(Print(c), q, Print(y));
      DecrementsIn(Print(c) + q + Print(y), k, Print(n));
    case Call(f, args) =>
      DoubleMinusLexesArgs(args);
      LexCall(f, args);
      DecrementsConcat([Id(f), LParen], Lex(PrintArgs(args)));
      DecrementsConcat([Id(f), LParen] + Lex(PrintArgs(args)), [RParen]);
  }

  lemma {:induction false} DoubleMinusLexesArgs(args: seq<Layout>)
    requires forall i | 0 <= i < |args| :: WellParenthesised(args[i])
    requires exists i | 0 <= i < |args| :: !NoDoubleMinus(args[i])
    ensures Decrements(Lex(PrintArgs(args))) > 0
  {
    var i :| 0 <= i < |args| && !NoDoubleMinus(args[i]);
    if i == 0 {
      DoubleMinusLexes(args[0]);
    } else {
      assert args[1..][i - 1] == args[i];
      DoubleMinusLexesArgs(args[1..]);
    }
    if |args| > 1 {
      LexArgsStep(args);
      DecrementsConcat(Lex(Print(args[0])), [Comma]);
      DecrementsConcat(Lex(Print(args[0])) + [Comma], Lex(PrintArgs(args[1..])));
    }
  }

  lemma {:induction false} TreeHasNoDecrement(p: Layout)
    requires WellParenthesised(p)
    ensures TreeDecrements(Tree(p)) == 0
  {
    match p
    case Leaf(_) =>
    case Paren(x) => TreeHasNoDecrement(x);
    case Un(_, x) => TreeHasNoDecrement(x);
    case Bin(_, l, r) => TreeHasNoDecrement(l); TreeHasNoDecrement(r);
    case Cond(c, y, n) => TreeHasNoDecrement(c); TreeHasNoDecrement(y); TreeHasNoDecrement(n);
    case Call(_, args) =>
      forall i | 0 <= i < |args| ensures TreeDecrements(Tree(args[i])) == 0 {
        TreeHasNoDecrement(args[i]);
      }
      NoArgDecrements(Trees(args));
  }

  lemma {:induction false} NoArgDecrements(args: seq<CExpr>)
    requires forall i | 0 <= i < |args| :: TreeDecrements(args[i]) == 0
    ensures ArgDecrements(args) == 0
  {
    if args != [] {
      NoArgDecrements(args[1..]);
    }
  }

  /** Read a whole text as one C expression. */
  function ReadBack(text: Text): Parse<CExpr> {
    ParseCond(Lex(text))
  }

  /** Printer/parser agreement, with its exact condition. */
  lemma PrintParse(p: Layout)
    requires WellParenthesised(p)
    ensures ReadBack(Print(p)) == Ok(Tree(p), []) <==> NoDoubleMinus(p)
  {
    if NoDoubleMinus(p) {
      LexPrint(p);
      CondParses(p, []);
      assert Tokens(p) + [] == Tokens(p);
    } else {
      DoubleMinusLexes(p);
      TreeHasNoDecrement(p);
      CondKeeps(Lex(Print(p)));
    }
  }

  // ----- precedence -----

  /** The binary operators from the loosest class to the tightest, 6.5.14 back to 6.5.5. */
  ghost const CLASSES: seq<set<BinOp>> := [{OrOr}, {AndAnd}, {Eq, Ne}, {Lt, Gt, Le, Ge}, {Add, Sub}, {Mul, Div}]

  lemma LevelOf(i: nat, op: BinOp)
    requires i < |CLASSES| && op in CLASSES[i]
    ensures Level(op) == i + 1
  {
  }

  /** Of two operators in a row the tighter one takes the middle operand, and of equally tight ones the first. */
  lemma Precedence(i: nat, j: nat, o: BinOp, p: BinOp, a: Tok, b: Tok, c: Tok)
    requires i < |CLASSES| && j < |CLASSES| && o in CLASSES[i] && p in CLASSES[j]
    requires IsLeaf(a) && IsLeaf(b) && IsLeaf(c)
    ensures ParseCond([a, Op(o), b, Op(p), c])
         == if i < j then Ok(CBin(o, CLeaf(a), CBin(p, CLeaf(b), CLeaf(c))), [])
            else Ok(CBin(p, CBin(o, CLeaf(a), CLeaf(b)), CLeaf(c)), [])
  {
    LevelOf(i, o);
    LevelOf(j, p);
    if i < j {
      LeafPair(p, b, c);
      var r := Bin(p, Leaf(b), Leaf(c));
      var q := Bin(o, Leaf(a), r);
      assert Tokens(q) == [a] + [Op(o)] + [b, Op(p), c] == [a, Op(o), b, Op(p), c];
      assert Tree(q) == CBin(o, CLeaf(a), CBin(p, CLeaf(b), CLeaf(c)));
      WholeParses(q);
    } else {
      LeafPair(o, a, b);
      var l := Bin(o, Leaf(a), Leaf(b));
      var q := Bin(p, l, Leaf(c));
      assert Tokens(q) == [a, Op(o), b] + [Op(p)] + [c] == [a, Op(o), b, Op(p), c];
      assert Tree(q) == CBin(p, CBin(o, CLeaf(a), CLeaf(b)), CLeaf(c));
      WholeParses(q);
    }
  }

  lemma LeafPair(op: BinOp, a: Tok, b: Tok)
    requires IsLeaf(a) && IsLeaf(b)
    ensures var p := Bin(op, Leaf(a), Leaf(b));
            && WellParenthesised(p) && Strength(p) == Level(op) && Tokens(p) == [a, Op(op), b]
            && Tree(p) == CBin(op, CLeaf(a), CLeaf(b))
  {
    assert WellParenthesised(Leaf(a)) && WellParenthesised(Leaf(b));
    assert Tokens(Leaf(a)) == [a] && Tokens(Leaf(b)) == [b];
  }

  lemma WholeParses(p: Layout)
    requires WellParenthesised(p)
    ensures ParseCond(Tokens(p)) == Ok(Tree(p), [])
  {
    CondParses(p, []);
    assert Tokens(p) + [] == Tokens(p);
  }
}
