/** What each operator means, on integer, boolean and real literals, emitted and evaluated. */
module Operators {
  import opened Common
  import opened CSyntax
  import opened Codegen
  import opened Meaning
  import opened CodegenMeaning
  import opened SeriesOffsets
  import ValueMeaning

  /** The value of what an expression is emitted as. */
  function Emitted<N>(A: Arith<N>, names: CNames<N>, e: Expr, k: nat, t: Target): Option<Val<N>> {
    var p := Plan(e, k, t);
    if p.None? then None else Denote(A, names, p.value)
  }

  /** Emitted and evaluated, an expression has a value. */
  ghost predicate Means<N>(A: Arith<N>, t: Target, env: Leaves<N>, names: CNames<N>, e: Expr, k: nat, v: Val<N>) {
    Emitted(A, names, e, k, t) == Some(v) && Eval(A, env, e, k) == Some(v)
  }

  /** Neither side gives a value. */
  ghost predicate MeansNothing<N>(A: Arith<N>, t: Target, env: Leaves<N>, names: CNames<N>, e: Expr, k: nat) {
    Emitted(A, names, e, k, t).None? && Eval(A, env, e, k).None?
  }

  lemma EmittedBinary<N>(A: Arith<N>, names: CNames<N>, op: BinaryOp, l: Expr, r: Expr, k: nat, t: Target)
    requires Plan(l, k, t).Some? && Plan(r, k, t).Some? && Operator(op).Some?
    ensures Emitted(A, names, Binary(op, l, r), k, t)
         == CBinary(A, Operator(op).value, Emitted(A, names, l, k, t), Emitted(A, names, r, k, t))
  {
    var p, q := Plan(l, k, t).value, Plan(r, k, t).value;
    assert Plan(Binary(op, l, r), k, t) == Some(Paren(Bin(Operator(op).value, p, q)));
    assert Tree(Paren(Bin(Operator(op).value, p, q))) == CBin(Operator(op).value, Tree(p), Tree(q));
  }

  /** On two values an operator gives a third, in C and for the evaluator. */
  ghost predicate Gives<N>(A: Arith<N>, op: BinaryOp, u: Val<N>, v: Val<N>, w: Val<N>) {
    Operator(op).Some? && CBinary(A, Operator(op).value, Some(u), Some(v)) == Some(w)
    && BinaryEval(A, op, Some(u), Some(v)) == Some(w)
  }

  lemma BinaryMeans<N>(A: Arith<N>, t: Target, env: Leaves<N>, names: CNames<N>, op: BinaryOp, x: Expr, y: Expr, k: nat,
                       u: Val<N>, v: Val<N>, w: Val<N>)
    requires Means(A, t, env, names, x, k, u) && Means(A, t, env, names, y, k, v) && Gives(A, op, u, v, w)
    ensures Means(A, t, env, names, Binary(op, x, y), k, w)
  {
    EmittedBinary(A, names, op, x, y, k, t);
  }

  lemma IntLiteral<N>(A: Arith<N>, t: Target, env: Leaves<N>, names: CNames<N>, i: int, k: nat)
    ensures Plan(Int64(i), k, t).Some? && Means(A, t, env, names, Int64(i), k, VInt(i))
  {
    assert Plan(Int64(i), k, t) == Some(Leaf(Int(i)));
    assert Tree(Leaf(Int(i))) == CLeaf(Int(i));
  }

  /** The six comparisons of int64 literals are the integer comparisons. */
  lemma ComparisonsMean<N>(A: Arith<N>, t: Target, env: Leaves<N>, names: CNames<N>, a: int, b: int, k: nat)
    ensures Means(A, t, env, names, Binary(Less, Int64(a), Int64(b)), k, VBool(a < b))
    ensures Means(A, t, env, names, Binary(LessEqual, Int64(a), Int64(b)), k, VBool(a <= b))
    ensures Means(A, t, env, names, Binary(Greater, Int64(a), Int64(b)), k, VBool(a > b))
    ensures Means(A, t, env, names, Binary(GreaterEqual, Int64(a), Int64(b)), k, VBool(a >= b))
    ensures Means(A, t, env, names, Binary(Equal, Int64(a), Int64(b)), k, VBool(a == b))
    ensures Means(A, t, env, names, Binary(NotEqual, Int64(a), Int64(b)), k, VBool(a != b))
  {
    IntLiteral(A, t, env, names, a, k);
    IntLiteral(A, t, env, names, b, k);
    IntsCompare(A, a, b);
    IntsEqual(A, a, b);
    var x, y, u, v := Int64(a), Int64(b), VInt(a), VInt(b);
    BinaryMeans(A, t, env, names, Less, x, y, k, u, v, VBool(a < b));
    BinaryMeans(A, t, env, names, LessEqual, x, y, k, u, v, VBool(a <= b));
    BinaryMeans(A, t, env, names, Greater, x, y, k, u, v, VBool(a > b));
    BinaryMeans(A, t, env, names, GreaterEqual, x, y, k, u, v, VBool(a >= b));
    BinaryMeans(A, t, env, names, Equal, x, y, k, u, v, VBool(a == b));
    BinaryMeans(A, t, env, names, NotEqual, x, y, k, u, v, VBool(a != b));
  }

  lemma IntsCompare<N>(A: Arith<N>, a: int, b: int)
    ensures Gives(A, Less, VInt(a), VInt(b), VBool(a < b)) && Gives(A, LessEqual, VInt(a), VInt(b), VBool(a <= b))
    ensures Gives(A, Greater, VInt(a), VInt(b), VBool(a > b)) && Gives(A, GreaterEqual, VInt(a), VInt(b), VBool(a >= b))
  {
  }

  lemma IntsEqual<N>(A: Arith<N>, a: int, b: int)
    ensures Gives(A, Equal, VInt(a), VInt(b), VBool(a == b)) && Gives(A, NotEqual, VInt(a), VInt(b), VBool(a != b))
  {
  }

  predicate Fits(n: int) { -0x8000_0000_0000_0000 <= n <= 0x7FFF_FFFF_FFFF_FFFF }

  /** A value if there is one, and nothing otherwise. */
  ghost predicate MeansIf<N>(A: Arith<N>, t: Target, env: Leaves<N>, names: CNames<N>, e: Expr, k: nat,
                             there: bool, v: int) {
    if there then Means(A, t, env, names, e, k, VInt(v)) else MeansNothing(A, t, env, names, e, k)
  }

  ghost predicate GivesIf<N>(A: Arith<N>, op: BinaryOp, a: int, b: int, there: bool, r: int) {
    && Operator(op).Some?
    && CBinary(A, Operator(op).value, Some(VInt(a)), Some(VInt(b))) == (if there then Some(VInt(r)) else None)
    && BinaryEval(A, op, Some(VInt(a)), Some(VInt(b))) == (if there then Some(VInt(r)) else None)
  }

  lemma IntsAdd<N>(A: Arith<N>, a: int, b: int, sum: int)
    requires sum == a + b
    ensures GivesIf(A, Plus, a, b, Fits(sum), sum)
  {
  }

  lemma IntsSubtract<N>(A: Arith<N>, a: int, b: int)
    ensures GivesIf(A, Minus, a, b, Fits(a - b), a - b)
  {
  }

  lemma IntsMultiply<N>(A: Arith<N>, a: int, b: int)
    ensures GivesIf(A, Star, a, b, Fits(a * b), a * b)
  {
  }

  lemma IntResult<N>(A: Arith<N>, t: Target, env: Leaves<N>, names: CNames<N>, op: BinaryOp, a: int, b: int, k: nat,
                     there: bool, r: int)
    requires Means(A, t, env, names, Int64(a), k, VInt(a)) && Means(A, t, env, names, Int64(b), k, VInt(b))
    requires GivesIf(A, op, a, b, there, r)
    ensures MeansIf(A, t, env, names, Binary(op, Int64(a), Int64(b)), k, there, r)
  {
    EmittedBinary(A, names, op, Int64(a), Int64(b), k, t);
  }

  /** Sums of int64 literals are the integer ones, wherever those fit 64 bits. */
  lemma SumMeans<N>(A: Arith<N>, t: Target, env: Leaves<N>, names: CNames<N>, a: int, b: int, k: nat)
    ensures MeansIf(A, t, env, names, Binary(Plus, Int64(a), Int64(b)), k, Fits(a + b), a + b)
  {
    var sum := a + b;
    IntsAdd(A, a, b, sum);
    IntsResult(A, t, env, names, Plus, a, b, k, Fits(sum), sum);
  }

  /** And so are differences and products. */
  lemma DifferenceMeans<N>(A: Arith<N>, t: Target, env: Leaves<N>, names: CNames<N>, a: int, b: int, k: nat)
    ensures MeansIf(A, t, env, names, Binary(Minus, Int64(a), Int64(b)), k, Fits(a - b), a - b)
  {
    IntsSubtract(A, a, b);
    IntsResult(A, t, env, names, Minus, a, b, k, Fits(a - b), a - b);
  }

  lemma ProductMeans<N>(A: Arith<N>, t: Target, env: Leaves<N>, names: CNames<N>, a: int, b: int, k: nat)
    ensures MeansIf(A, t, env, names, Binary(Star, Int64(a), Int64(b)), k, Fits(a * b), a * b)
  {
    IntsMultiply(A, a, b);
    IntsResult(A, t, env, names, Star, a, b, k, Fits(a * b), a * b);
  }

  lemma IntsResult<N>(A: Arith<N>, t: Target, env: Leaves<N>, names: CNames<N>, op: BinaryOp, a: int, b: int, k: nat,
                      there: bool, r: int)
    requires GivesIf(A, op, a, b, there, r)
    ensures MeansIf(A, t, env, names, Binary(op, Int64(a), Int64(b)), k, there, r)
  {
    IntLiteral(A, t, env, names, a, k);
    IntLiteral(A, t, env, names, b, k);
    IntResult(A, t, env, names, op, a, b, k, there, r);
  }

  /** The quotient of int64 literals is rounded toward zero; there is none by zero or beyond 64 bits. */
  lemma QuotientMeans<N>(A: Arith<N>, t: Target, env: Leaves<N>, names: CNames<N>, a: int, b: int, k: nat)
    returns (q: int)
    ensures MeansIf(A, t, env, names, Binary(Slash, Int64(a), Int64(b)), k,
                    b != 0 && !(a == -0x8000_0000_0000_0000 && b == -1), q)
    ensures b != 0 ==>
              var rem := a - q * b;
              && (if rem < 0 then -rem else rem) < (if b < 0 then -b else b)
              && (rem > 0 ==> a > 0) && (rem < 0 ==> a < 0)
  {
    IntLiteral(A, t, env, names, a, k);
    IntLiteral(A, t, env, names, b, k);
    EmittedBinary(A, names, Slash, Int64(a), Int64(b), k, t);
    q := 0;
    if b != 0 {
      q := Quotient(a, b);
      ValueMeaning.QuotientTruncates(a, b);
    }
  }

  lemma BoolLiteral<N>(A: Arith<N>, t: Target, env: Leaves<N>, names: CNames<N>, b: bool, k: nat)
    ensures Plan(Boolean(b), k, t).Some? && Means(A, t, env, names, Boolean(b), k, VBool(b))
  {
    assert Plan(Boolean(b), k, t) == Some(Leaf(Bool(b)));
    assert Tree(Leaf(Bool(b))) == CLeaf(Bool(b));
  }

  /** The unary operators. */
  lemma UnaryMeans<N>(A: Arith<N>, t: Target, env: Leaves<N>, names: CNames<N>, a: int, p: bool, k: nat)
    ensures MeansIf(A, t, env, names, Unary(Negate, Int64(a)), k, a != -0x8000_0000_0000_0000, -a)
    ensures Means(A, t, env, names, Unary(LogicalNot, Boolean(p)), k, VBool(!p))
  {
    IntLiteral(A, t, env, names, a, k);
    BoolLiteral(A, t, env, names, p, k);
    assert Plan(Unary(Negate, Int64(a)), k, t) == Some(Paren(Un(Neg, Leaf(Int(a)))));
    assert Plan(Unary(LogicalNot, Boolean(p)), k, t) == Some(Paren(Un(Not, Leaf(Bool(p)))));
    DenoteUnary(A, names, Negate, Leaf(Int(a)));
    DenoteUnary(A, names, LogicalNot, Leaf(Bool(p)));
  }

  /** The logical operators, on truth values. */
  lemma LogicMeans<N>(A: Arith<N>, t: Target, env: Leaves<N>, names: CNames<N>, p: bool, q: bool, k: nat)
    ensures Means(A, t, env, names, Binary(And, Boolean(p), Boolean(q)), k, VBool(p && q))
    ensures Means(A, t, env, names, Binary(Or, Boolean(p), Boolean(q)), k, VBool(p || q))
    ensures Means(A, t, env, names, Binary(Equal, Boolean(p), Boolean(q)), k, VBool(p <==> q))
    ensures Means(A, t, env, names, Binary(NotEqual, Boolean(p), Boolean(q)), k, VBool(p != q))
  {
    BoolLiteral(A, t, env, names, p, k);
    BoolLiteral(A, t, env, names, q, k);
    BoolsMean(A, p, q);
    var x, y, u, v := Boolean(p), Boolean(q), VBool(p), VBool(q);
    BinaryMeans(A, t, env, names, And, x, y, k, u, v, VBool(p && q));
    BinaryMeans(A, t, env, names, Or, x, y, k, u, v, VBool(p || q));
    BinaryMeans(A, t, env, names, Equal, x, y, k, u, v, VBool(p == q));
    BinaryMeans(A, t, env, names, NotEqual, x, y, k, u, v, VBool(p != q));
  }

  lemma BoolsMean<N>(A: Arith<N>, p: bool, q: bool)
    ensures Gives(A, And, VBool(p), VBool(q), VBool(p && q)) && Gives(A, Or, VBool(p), VBool(q), VBool(p || q))
    ensures Gives(A, Equal, VBool(p), VBool(q), VBool(p == q)) && Gives(A, NotEqual, VBool(p), VBool(q), VBool(p != q))
  {
  }

  lemma ChoiceMeans<N>(A: Arith<N>, t: Target, env: Leaves<N>, names: CNames<N>, p: bool, a: int, b: int, k: nat)
    ensures Means(A, t, env, names, Ternary(Boolean(p), Int64(a), Int64(b)), k, VInt(if p then a else b))
  {
    BoolLiteral(A, t, env, names, p, k);
    IntLiteral(A, t, env, names, a, k);
    IntLiteral(A, t, env, names, b, k);
    DenoteCond(A, names, Leaf(Bool(p)), Leaf(Int(a)), Leaf(Int(b)));
  }

  // ----- real numbers -----

  function SignedReal(negative: bool, m: real): real { if negative then -m else m }

  lemma RealLiteral(t: Target, env: Leaves<RealOrNaN>, names: CNames<RealOrNaN>, negative: bool, m: real, k: nat)
    ensures var e := Number(Finite(negative, m));
            && Plan(e, k, t).Some?
            && Means(RealNumbers(), t, env, names, e, k, VNum(Some(SignedReal(negative, m))))
  {
    RealNumbersAreIeee();
    LiteralDenotesExactly(RealNumbers(), names, Finite(negative, m));
  }

  /** Operators on real operands are those of the reals. */
  lemma RealsMean(t: Target, env: Leaves<RealOrNaN>, names: CNames<RealOrNaN>, x: Expr, y: Expr, k: nat,
                  a: real, b: real)
    requires Means(RealNumbers(), t, env, names, x, k, VNum(Some(a)))
    requires Means(RealNumbers(), t, env, names, y, k, VNum(Some(b)))
    ensures var A := RealNumbers();
            && Means(A, t, env, names, Binary(Plus, x, y), k, VNum(Some(a + b)))
            && Means(A, t, env, names, Binary(Minus, x, y), k, VNum(Some(a - b)))
            && Means(A, t, env, names, Binary(Star, x, y), k, VNum(Some(a * b)))
            && (b != 0.0 ==> Means(A, t, env, names, Binary(Slash, x, y), k, VNum(Some(a / b))))
            && (b == 0.0 ==> Eval(A, env, Binary(Slash, x, y), k).None?)
  {
    var A, u, v := RealNumbers(), VNum(Some(a)), VNum(Some(b));
    RealsCompute(a, b);
    BinaryMeans(A, t, env, names, Plus, x, y, k, u, v, VNum(Some(a + b)));
    BinaryMeans(A, t, env, names, Minus, x, y, k, u, v, VNum(Some(a - b)));
    BinaryMeans(A, t, env, names, Star, x, y, k, u, v, VNum(Some(a * b)));
    if b != 0.0 {
      BinaryMeans(A, t, env, names, Slash, x, y, k, u, v, VNum(Some(a / b)));
    }
  }

  /** And so are the comparisons. */
  lemma RealComparisonsMean(t: Target, env: Leaves<RealOrNaN>, names: CNames<RealOrNaN>, x: Expr, y: Expr, k: nat,
                            a: real, b: real)
    requires Means(RealNumbers(), t, env, names, x, k, VNum(Some(a)))
    requires Means(RealNumbers(), t, env, names, y, k, VNum(Some(b)))
    ensures var A := RealNumbers();
            && Means(A, t, env, names, Binary(Less, x, y), k, VBool(a < b))
            && Means(A, t, env, names, Binary(LessEqual, x, y), k, VBool(a <= b))
            && Means(A, t, env, names, Binary(Greater, x, y), k, VBool(a > b))
            && Means(A, t, env, names, Binary(GreaterEqual, x, y), k, VBool(a >= b))
            && Means(A, t, env, names, Binary(Equal, x, y), k, VBool(a == b))
            && Means(A, t, env, names, Binary(NotEqual, x, y), k, VBool(a != b))
  {
    var A, u, v := RealNumbers(), VNum(Some(a)), VNum(Some(b));
    RealsCompare(a, b);
    RealsEqual(a, b);
    BinaryMeans(A, t, env, names, Less, x, y, k, u, v, VBool(a < b));
    BinaryMeans(A, t, env, names, LessEqual, x, y, k, u, v, VBool(a <= b));
    BinaryMeans(A, t, env, names, Greater, x, y, k, u, v, VBool(a > b));
    BinaryMeans(A, t, env, names, GreaterEqual, x, y, k, u, v, VBool(a >= b));
    BinaryMeans(A, t, env, names, Equal, x, y, k, u, v, VBool(a == b));
    BinaryMeans(A, t, env, names, NotEqual, x, y, k, u, v, VBool(a != b));
  }

  lemma RealsCompare(a: real, b: real)
    ensures var A, u, v := RealNumbers(), VNum(Some(a)), VNum(Some(b));
            && Gives(A, Less, u, v, VBool(a < b)) && Gives(A, LessEqual, u, v, VBool(a <= b))
            && Gives(A, Greater, u, v, VBool(a > b)) && Gives(A, GreaterEqual, u, v, VBool(a >= b))
  {
  }

  lemma RealsEqual(a: real, b: real)
    ensures var A, u, v := RealNumbers(), VNum(Some(a)), VNum(Some(b));
            Gives(A, Equal, u, v, VBool(a == b)) && Gives(A, NotEqual, u, v, VBool(a != b))
  {
  }

  lemma RealsCompute(a: real, b: real)
    ensures var A, u, v := RealNumbers(), VNum(Some(a)), VNum(Some(b));
            && Gives(A, Plus, u, v, VNum(Some(a + b))) && Gives(A, Minus, u, v, VNum(Some(a - b)))
            && Gives(A, Star, u, v, VNum(Some(a * b)))
            && (b != 0.0 ==> Gives(A, Slash, u, v, VNum(Some(a / b))))
            && (b == 0.0 ==> BinaryEval(A, Slash, Some(u), Some(v)).None?)
  {
    assert Times(a, b) == a * b && (b != 0.0 ==> Over(a, b) == a / b);
  }

  /** Power and remainder call the C functions on their operands, in this order. */
  lemma PowerMeans<N>(A: Arith<N>, t: Target, env: Leaves<N>, names: CNames<N>, x: Expr, y: Expr, k: nat, a: N, b: N)
    requires Plan(x, k, t).Some? && Plan(y, k, t).Some?
    requires Means(A, t, env, names, x, k, VNum(a)) && Means(A, t, env, names, y, k, VNum(b))
    ensures Emitted(A, names, Binary(Power, x, y), k, t) == A.cFunction("pow", [VNum(a), VNum(b)])
    ensures Emitted(A, names, Binary(Percent, x, y), k, t) == A.cFunction("fmod", [VNum(a), VNum(b)])
    ensures Eval(A, env, Binary(Power, x, y), k) == A.cFunction("pow", [VNum(a), VNum(b)])
    ensures Eval(A, env, Binary(Percent, x, y), k)
         == if A.isZero(b) then None else A.cFunction("fmod", [VNum(a), VNum(b)])
  {
    DenotePair(A, names, "pow", Plan(x, k, t).value, Plan(y, k, t).value);
    DenotePair(A, names, "fmod", Plan(x, k, t).value, Plan(y, k, t).value);
  }

  // ----- lookback -----

  /** An index is an offset exactly if it is a number literal within the tolerance of a 32-bit natural number. */
  lemma OffsetExactly(index: Expr, n: nat)
    requires index.Number? && index.lit.Finite? ==> index.lit.magnitude >= 0.0
    ensures LiteralOffset(index) == Some(n) <==>
              && index.Number? && index.lit.Finite? && (index.lit.negative ==> index.lit.magnitude == 0.0)
              && n < 0x1_0000_0000 && -0.000000001 <= index.lit.magnitude - n as real <= 0.000000001
  {
    if index.Number? {
      NearUnsignedExact(index.lit, 0, n);
    }
  }

  /** `x[n]` at offset `k` is the leaf at `k + n`, emitted wherever that has a 32-bit offset, and evaluated. */
  lemma LookbackMeans<N>(A: Arith<N>, t: Target, env: Leaves<N>, x: Expr, n: nat, k: nat)
    requires NamesOffsets(t, x) && n < 0x1_0000_0000 && k < 0x1_0000_0000
    ensures var e := Index(x, Number(Finite(false, n as real)));
            && Plan(e, k, t) == (if k + n < 0x1_0000_0000 then Some(LeafAt(t, x, k + n)) else None)
            && Eval(A, env, e, k) == env(x, k + n)
  {
    var index := Number(Finite(false, n as real));
    OffsetExactly(index, n);
    if k + n < 0x1_0000_0000 {
      LeafPlanned(t, x, k + n);
    }
    LookbackValue(A, env, x, index, k, k + n);
  }

  /** Without a leaf hook there is nothing to look back with: only offset zero is emitted, as the bare name. */
  lemma NoHookNoLookback(t: Target, name: string, n: nat, k: nat)
    requires t.leafAtOffset.None? && n < 0x1_0000_0000 && k < 0x1_0000_0000
    ensures var e := Index(Identifier(name), Number(Finite(false, n as real)));
            Plan(e, k, t) == if k + n == 0 then Some(Leaf(Id(name))) else None
  {
    OffsetExactly(Number(Finite(false, n as real)), n);
  }
}
