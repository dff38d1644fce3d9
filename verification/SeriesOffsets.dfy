/**
 The unchecked offset additions of the series and cross expansions (src/codegen.c): exactly when they
 reach the bars they are meant to reach, and what the emitted text means when they do not.
 */
module SeriesOffsets {
  import opened Common
  import opened CSyntax
  import opened Codegen
  import opened Meaning
  import opened CodegenMeaning

  predicate IsNamedLeaf(x: Expr) { x.Identifier? || x.Parameter? || x.Access? }

  /** The target has a name for a leaf at every offset, and different names at different offsets. */
  ghost predicate NamesOffsets(t: Target, x: Expr) {
    && IsNamedLeaf(x) && t.leafAtOffset.Some?
    && (forall k: nat :: t.leafAtOffset.value(x, k).Some?)
    && (forall i: nat, j: nat :: t.leafAtOffset.value(x, i) == t.leafAtOffset.value(x, j) ==> i == j)
  }

  function LeafAt(t: Target, x: Expr, k: nat): Layout
    requires t.leafAtOffset.Some? && t.leafAtOffset.value(x, k).Some?
  {
    Leaf(Id(t.leafAtOffset.value(x, k).value))
  }

  lemma LeafPlanned(t: Target, x: Expr, k: nat)
    requires NamesOffsets(t, x)
    ensures Plan(x, k, t) == Some(LeafAt(t, x, k))
  {
  }

  lemma LeavesDiffer(t: Target, x: Expr, i: nat, j: nat)
    requires NamesOffsets(t, x) && i != j
    ensures LeafAt(t, x, i) != LeafAt(t, x, j)
  {
    assert t.leafAtOffset.value(x, i) != t.leafAtOffset.value(x, j);
  }

  /** The bars a series is meant to read. */
  ghost function MeantBars(t: Target, x: Expr, k: nat, n: nat): (ps: seq<Layout>)
    requires NamesOffsets(t, x)
    ensures |ps| == n
  {
    seq(n, i requires 0 <= i < n => LeafAt(t, x, k + i))
  }

  ghost function ReadBars(t: Target, x: Expr, k: nat, n: nat): (ps: seq<Layout>)
    requires NamesOffsets(t, x)
    ensures |ps| == n
  {
    seq(n, i requires 0 <= i < n => LeafAt(t, x, Shift(k, i)))
  }

  lemma {:induction false} SeriesReads(t: Target, x: Expr, k: nat, n: nat)
    requires NamesOffsets(t, x)
    ensures SeriesPlan(x, k, n, t) == Some(ReadBars(t, x, k, n))
  {
    if n > 0 {
      SeriesReads(t, x, k, n - 1);
      LeafPlanned(t, x, Shift(k, n - 1));
      assert ReadBars(t, x, k, n) == ReadBars(t, x, k, n - 1) + [LeafAt(t, x, Shift(k, n - 1))];
    }
  }

  lemma ShiftExactly(k: nat, i: nat)
    requires k < UNSIGNED_LIMIT
    ensures Shift(k, i) == k + i <==> k + i < UNSIGNED_LIMIT
  {
  }

  /**
   A series of `n` bars from offset `k` reads the bars it is meant to read if and only if they have
   32-bit offsets.
   */
  lemma SeriesExactly(t: Target, x: Expr, k: nat, n: nat)
    requires NamesOffsets(t, x) && k < UNSIGNED_LIMIT
    ensures SeriesPlan(x, k, n, t) == Some(MeantBars(t, x, k, n)) <==> k + n <= UNSIGNED_LIMIT
  {
    SeriesReads(t, x, k, n);
    var read, meant := ReadBars(t, x, k, n), MeantBars(t, x, k, n);
    if k + n <= UNSIGNED_LIMIT {
      forall i | 0 <= i < n ensures read[i] == meant[i] {
        ShiftExactly(k, i);
      }
      assert read == meant;
    } else {
      ShiftExactly(k, n - 1);
      LeavesDiffer(t, x, Shift(k, n - 1), k + (n - 1));
      assert read[n - 1] == LeafAt(t, x, Shift(k, n - 1)) && meant[n - 1] == LeafAt(t, x, k + (n - 1));
    }
  }

  /** A cross reads the bar before the current one if and only if that has a 32-bit offset. */
  lemma CrossExactly(t: Target, fn: string, x: Expr, y: Expr, k: nat)
    requires NamesOffsets(t, x) && NamesOffsets(t, y) && IsCross(fn, 2) && k < UNSIGNED_LIMIT
    ensures Plan(Expr.Call(fn, [x, y], []), k, t)
         == Some(CrossLayout(fn == "cross_above", [LeafAt(t, x, k), LeafAt(t, y, k)],
                             [LeafAt(t, x, Shift(k, 1)), LeafAt(t, y, Shift(k, 1))]))
    ensures Plan(Expr.Call(fn, [x, y], []), k, t)
         == Some(CrossLayout(fn == "cross_above", [LeafAt(t, x, k), LeafAt(t, y, k)],
                             [LeafAt(t, x, k + 1), LeafAt(t, y, k + 1)]))
         <==> k + 1 < UNSIGNED_LIMIT
  {
    TwoLeaves(t, x, y, k);
    TwoLeaves(t, x, y, Shift(k, 1));
    ShiftExactly(k, 1);
    CrossDiffers(fn == "cross_above", [LeafAt(t, x, k), LeafAt(t, y, k)],
                 [LeafAt(t, x, Shift(k, 1)), LeafAt(t, y, Shift(k, 1))], [LeafAt(t, x, k + 1), LeafAt(t, y, k + 1)]);
  }

  lemma CrossDiffers(above: bool, now: seq<Layout>, before: seq<Layout>, before': seq<Layout>)
    requires |now| == |before| == |before'| == 2
    ensures CrossLayout(above, now, before) == CrossLayout(above, now, before') ==> before[0] == before'[0]
  {
  }

  lemma TwoLeaves(t: Target, x: Expr, y: Expr, k: nat)
    requires NamesOffsets(t, x) && NamesOffsets(t, y)
    ensures ArgPlans([x, y], k, t) == Some([LeafAt(t, x, k), LeafAt(t, y, k)])
  {
    LeafPlanned(t, x, k);
    LeafPlanned(t, y, k);
    assert [x, y][1..] == [y] && [y][1..] == [];
    assert ArgPlans([], k, t) == Some([]);
    var p, q := LeafAt(t, x, k), LeafAt(t, y, k);
    assert [q] + [] == [q] && [p] + [q] == [p, q];
    assert ArgPlans([y], k, t) == Some([q]);
  }

  // ----- what the text means then -----

  const LAST: nat := UNSIGNED_LIMIT - 1

  function Rising2(x: Expr): Expr { Expr.Call("rising", [x, Number(Finite(false, 2.0))], []) }

  lemma Rising2Plan(t: Target, x: Expr, k: nat)
    requires NamesOffsets(t, x)
    ensures Plan(Rising2(x), k, t) == Some(TrendLayout(Gt, [LeafAt(t, x, Shift(k, 0)), LeafAt(t, x, Shift(k, 1))]))
  {
    SeriesReads(t, x, k, 2);
    assert ReadBars(t, x, k, 2) == [LeafAt(t, x, Shift(k, 0)), LeafAt(t, x, Shift(k, 1))];
    assert (2.0 + 0.5).Floor == 2;
    assert Bars(Number(Finite(false, 2.0)), 2.0) == Some(2);
  }

  lemma Rising2Value<N>(A: Arith<N>, env: Leaves<N>, x: Expr, k: nat, a: N, b: N)
    requires IsNamedLeaf(x) && env(x, k) == Some(VNum(a)) && env(x, k + 1) == Some(VNum(b))
    ensures Eval(A, env, Rising2(x), k) == Some(VBool(A.cmp(Gt, a, b)))
  {
    assert (2.0 + 0.5).Floor == 2;
    assert Samples(Number(Finite(false, 2.0)), 2) == Some(2);
    assert Eval(A, env, x, k) == Some(VNum(a)) && Eval(A, env, x, k + 1) == Some(VNum(b));
    assert TrendUpto(A, env, Gt, x, k, 0) == Some(true);
    assert TrendUpto(A, env, Gt, x, k, 1) == Some(A.cmp(Gt, a, b));
  }

  lemma LeafDenotes<N(!new)>(A: Arith<N>, t: Target, env: Leaves<N>, names: CNames<N>, x: Expr, k: nat, a: N)
    requires NamesAgree(t, env, names) && NamesOffsets(t, x) && env(x, k) == Some(VNum(a))
    ensures Denote(A, names, LeafAt(t, x, k)) == Some(VNum(a))
  {
    assert LeafPlan(x, k, t) == Some(LeafAt(t, x, k));
    assert LeafValue(names, LeafPlan(x, k, t).value) == env(x, k);
  }

  lemma TrendDenotes<N>(A: Arith<N>, names: CNames<N>, p: Layout, q: Layout, a: N, b: N)
    requires Denote(A, names, p) == Some(VNum(a)) && Denote(A, names, q) == Some(VNum(b))
    ensures Denote(A, names, TrendLayout(Gt, [p, q])) == Some(VBool(A.cmp(Gt, a, b)))
  {
    var term := Paren(Bin(Gt, p, q));
    assert TrendTerms(Gt, [p, q]) == [term];
    assert Chain([term]) == term;
    DenoteComparison(A, names, Gt, p, q);
    DenoteParen(A, names, term);
  }

  /**
   At the last 32-bit offset, `rising(x, 2)` is emitted as a comparison with offset 0 instead of the bar
   before: the emitted value is the evaluator's if and only if the two comparisons happen to agree.
   */
  lemma SeriesOffsetWraps<N(!new)>(A: Arith<N>, t: Target, env: Leaves<N>, names: CNames<N>, x: Expr, a: N, b: N, c: N)
    requires Setting(A, t, env, names) && NamesOffsets(t, x)
    requires env(x, LAST) == Some(VNum(a)) && env(x, LAST + 1) == Some(VNum(b)) && env(x, 0) == Some(VNum(c))
    ensures Plan(Rising2(x), LAST, t).Some?
    ensures Denote(A, names, Plan(Rising2(x), LAST, t).value) == Eval(A, env, Rising2(x), LAST)
            <==> A.cmp(Gt, a, c) == A.cmp(Gt, a, b)
  {
    assert Shift(LAST, 0) == LAST && Shift(LAST, 1) == 0;
    Rising2Plan(t, x, LAST);
    Rising2Value(A, env, x, LAST, a, b);
    LeafDenotes(A, t, env, names, x, LAST, a);
    LeafDenotes(A, t, env, names, x, 0, c);
    TrendDenotes(A, names, LeafAt(t, x, LAST), LeafAt(t, x, 0), a, c);
  }

  function CrossAbove(x: Expr, y: Expr): Expr { Expr.Call("cross_above", [x, y], []) }

  lemma CrossAboveValue<N>(A: Arith<N>, env: Leaves<N>, x: Expr, y: Expr, k: nat, now: seq<Val<N>>, before: seq<Val<N>>)
    requires IsNamedLeaf(x) && IsNamedLeaf(y) && |now| == |before| == 2 && AllNumbers(now) && AllNumbers(before)
    requires env(x, k) == Some(now[0]) && env(y, k) == Some(now[1])
    requires env(x, k + 1) == Some(before[0]) && env(y, k + 1) == Some(before[1])
    ensures Eval(A, env, CrossAbove(x, y), k) == Some(VBool(Crossed(A, true, now, before)))
  {
    TwoValues(A, env, x, y, k, now);
    TwoValues(A, env, x, y, k + 1, before);
  }

  lemma TwoValues<N>(A: Arith<N>, env: Leaves<N>, x: Expr, y: Expr, k: nat, vs: seq<Val<N>>)
    requires IsNamedLeaf(x) && IsNamedLeaf(y) && |vs| == 2 && env(x, k) == Some(vs[0]) && env(y, k) == Some(vs[1])
    ensures ArgValues(A, env, [x, y], k) == Some(vs)
  {
    assert [x, y][1..] == [y] && [y][1..] == [];
    assert [vs[1]] + [] == [vs[1]] && [vs[0]] + [vs[1]] == vs;
    assert ArgValues(A, env, [], k) == Some([]);
    assert ArgValues(A, env, [y], k) == Some([vs[1]]);
  }

  /** At the last 32-bit offset a cross compares the bars at offset 0 instead of the bars before. */
  lemma CrossOffsetWraps<N(!new)>(A: Arith<N>, t: Target, env: Leaves<N>, names: CNames<N>, x: Expr, y: Expr,
                                  now: seq<Val<N>>, before: seq<Val<N>>, first: seq<Val<N>>)
    requires Setting(A, t, env, names) && NamesOffsets(t, x) && NamesOffsets(t, y)
    requires |now| == |before| == |first| == 2 && AllNumbers(now) && AllNumbers(before) && AllNumbers(first)
    requires env(x, LAST) == Some(now[0]) && env(y, LAST) == Some(now[1])
    requires env(x, LAST + 1) == Some(before[0]) && env(y, LAST + 1) == Some(before[1])
    requires env(x, 0) == Some(first[0]) && env(y, 0) == Some(first[1])
    ensures Plan(CrossAbove(x, y), LAST, t).Some?
    ensures Denote(A, names, Plan(CrossAbove(x, y), LAST, t).value) == Eval(A, env, CrossAbove(x, y), LAST)
            <==> Crossed(A, true, now, first) == Crossed(A, true, now, before)
  {
    assert Shift(LAST, 1) == 0;
    CrossExactly(t, "cross_above", x, y, LAST);
    CrossAboveValue(A, env, x, y, LAST, now, before);
    LeafDenotes(A, t, env, names, x, LAST, now[0].n);
    LeafDenotes(A, t, env, names, y, LAST, now[1].n);
    LeafDenotes(A, t, env, names, x, 0, first[0].n);
    LeafDenotes(A, t, env, names, y, 0, first[1].n);
    DenoteCross(A, names, true, [LeafAt(t, x, LAST), LeafAt(t, y, LAST)], [LeafAt(t, x, 0), LeafAt(t, y, 0)],
                now, first);
  }

  // ----- a number system and a series in which they do not agree -----

  /** Reals and NaN. */
  type RealOrNaN = Option<real>

  predicate Compare(op: BinOp, a: RealOrNaN, b: RealOrNaN) {
    a.Some? && b.Some? &&
    match op
    case Lt => a.value < b.value
    case Gt => a.value > b.value
    case Le => a.value <= b.value
    case Ge => a.value >= b.value
    case Eq => a.value == b.value
    case _ => false
  }

  function Times(x: real, y: real): real { x * y }

  function Over(x: real, y: real): real
    requires y != 0.0
  {
    x / y
  }

  function Calculate(op: BinOp, a: RealOrNaN, b: RealOrNaN): RealOrNaN {
    if a.None? || b.None? then None
    else
      match op
      case Add => Some(a.value + b.value)
      case Sub => Some(a.value - b.value)
      case Mul => Some(Times(a.value, b.value))
      case Div => if b.value == 0.0 then None else Some(Over(a.value, b.value))
      case _ => None
  }

  function Better(op: BinOp, a: RealOrNaN, b: RealOrNaN): RealOrNaN {
    if a.None? then b else if b.None? then a else if Compare(op, b, a) then b else a
  }

  function Library(fn: string, vs: seq<Val<RealOrNaN>>): Option<Val<RealOrNaN>> {
    if |vs| == 2 && vs[0].VNum? && vs[1].VNum? && (fn == "fmin" || fn == "fmax")
    then Some(VNum(Better(if fn == "fmin" then Lt else Gt, vs[0].n, vs[1].n)))
    else None
  }

  function RealNumbers(): Arith<RealOrNaN> {
    Arith(
      (lit: Literal) => if lit.Finite? then Some(if lit.negative then -lit.magnitude else lit.magnitude) else None,
      None,
      (a: RealOrNaN) => a.None?,
      (a: RealOrNaN) => a == Some(0.0),
      (a: RealOrNaN) => if a.None? then None else Some(-a.value),
      Calculate,
      Compare,
      Library,
      (fn: string, vs: seq<Val<RealOrNaN>>) => if fn == "nan" && vs == [] then Some(VNum(None)) else None,
      (fn: string) => [])
  }

  lemma RealNumbersAreIeee()
    ensures Ieee(RealNumbers())
  {
    var A := RealNumbers();
    forall a: RealOrNaN, b: RealOrNaN
      ensures A.cFunction("fmin", [VNum(a), VNum(b)]) == Some(VNum(CExtreme(A, Lt, a, b)))
      ensures A.cFunction("fmax", [VNum(a), VNum(b)]) == Some(VNum(CExtreme(A, Gt, a, b)))
    {
    }
  }

  /** Bar `k` of a series is named by a word of `k + 1` letters. */
  function Word(letter: char, k: nat): (w: string)
    ensures |w| == k + 1 && w[0] == letter
  {
    seq(k + 1, _ => letter)
  }

  function WordTarget(y: Expr): Target {
    Target(Some((e: Expr, k: nat) => Some(Word(if e == y then 'y' else 'x', k))), None)
  }

  /** A series that is 2 at the current bar, 1 up to the last offset and 0 after it; and one that is always a half. */
  function Fading(letter: char, k: nat): Val<RealOrNaN> {
    VNum(Some(if letter == 'y' then 0.5 else if k == 0 then 2.0 else if k <= LAST then 1.0 else 0.0))
  }

  function FadingLeaves(x: Expr, y: Expr): Leaves<RealOrNaN> {
    (e: Expr, k: nat) => if e == x || e == y then Some(Fading(if e == y then 'y' else 'x', k)) else None
  }

  function FadingNames(): CNames<RealOrNaN> {
    (s: string) => if s == [] then None else Some(Fading(s[0], |s| - 1))
  }

  lemma WordsDiffer(y: Expr, e: Expr)
    requires IsNamedLeaf(e)
    ensures NamesOffsets(WordTarget(y), e)
  {
    var t := WordTarget(y);
    forall i: nat, j: nat | t.leafAtOffset.value(e, i) == t.leafAtOffset.value(e, j) ensures i == j {
      var letter := if e == y then 'y' else 'x';
      assert |Word(letter, i)| == |Word(letter, j)|;
    }
  }

  lemma FadingNamesAgree(x: Expr, y: Expr)
    ensures NamesAgree(WordTarget(y), FadingLeaves(x, y), FadingNames())
  {
    var t, env, names := WordTarget(y), FadingLeaves(x, y), FadingNames();
    forall e: Expr, k: nat |
      (e.Identifier? || e.Parameter? || e.Access?) && LeafPlan(e, k, t).Some? && env(e, k).Some?
      ensures LeafValue(names, LeafPlan(e, k, t).value) == env(e, k)
    {
      var w := Word(if e == y then 'y' else 'x', k);
      assert LeafPlan(e, k, t) == Some(Leaf(Id(w)));
      assert names(w) == Some(Fading(w[0], |w| - 1));
    }
  }

  lemma FadingSetting(x: Expr, y: Expr)
    ensures Setting(RealNumbers(), WordTarget(y), FadingLeaves(x, y), FadingNames())
  {
    RealNumbersAreIeee();
    FadingNamesAgree(x, y);
    RealFunctionsAgree(WordTarget(y));
  }

  lemma NanIsNotMapped(name: string)
    requires name == "nan"
    ensures DefaultFunction(name) == None
  {
    assert name[0] == 'n' && |name| == 3;
  }

  /** The library has one function of its own, `nan`, and no C function is mapped to it. */
  lemma RealFunctionsAgree(t: Target)
    requires t.mapFunction.None?
    ensures FunctionsAgree(RealNumbers(), t)
  {
    forall fn: string, vs: seq<Val<RealOrNaN>> | MappedFunction(t, fn, |vs|).Some?
      ensures RealNumbers().builtin(fn, vs).None?
    {
      if fn == "nan" {
        NanIsNotMapped(fn);
      }
    }
  }

  lemma FadingAt(x: Expr, y: Expr, e: Expr, k: nat)
    requires e == x || e == y
    ensures FadingLeaves(x, y)(e, k) == Some(Fading(if e == y then 'y' else 'x', k))
  {
  }

  /** The values that matter, and how they compare. */
  ghost predicate Disagreeing<N>(A: Arith<N>, env: Leaves<N>, x: Expr, y: Expr, a: N, b: N, c: N, h: N) {
    && env(x, LAST) == Some(VNum(a)) && env(x, LAST + 1) == Some(VNum(b)) && env(x, 0) == Some(VNum(c))
    && env(y, LAST) == Some(VNum(h)) && env(y, LAST + 1) == Some(VNum(h)) && env(y, 0) == Some(VNum(h))
    && A.cmp(Gt, a, b) && !A.cmp(Gt, a, c) && A.cmp(Gt, a, h) && A.cmp(Le, b, h) && !A.cmp(Le, c, h)
  }

  lemma FadingDisagrees(x: Expr, y: Expr)
    requires x != y
    ensures Disagreeing(RealNumbers(), FadingLeaves(x, y), x, y, Some(1.0), Some(0.0), Some(2.0), Some(0.5))
  {
    FadingAt(x, y, x, LAST); FadingAt(x, y, x, LAST + 1); FadingAt(x, y, x, 0);
    FadingAt(x, y, y, LAST); FadingAt(x, y, y, LAST + 1); FadingAt(x, y, y, 0);
  }

  /** With such values the emitted text denies what the evaluator finds, for `rising` and for `cross_above`. */
  lemma DisagreementShows<N(!new)>(A: Arith<N>, t: Target, env: Leaves<N>, names: CNames<N>, x: Expr, y: Expr,
                                   a: N, b: N, c: N, h: N)
    requires Setting(A, t, env, names) && NamesOffsets(t, x) && NamesOffsets(t, y)
    requires Disagreeing(A, env, x, y, a, b, c, h)
    ensures Plan(Rising2(x), LAST, t).Some? && Plan(CrossAbove(x, y), LAST, t).Some?
    ensures Denote(A, names, Plan(Rising2(x), LAST, t).value) != Eval(A, env, Rising2(x), LAST)
    ensures Denote(A, names, Plan(CrossAbove(x, y), LAST, t).value) != Eval(A, env, CrossAbove(x, y), LAST)
  {
    SeriesOffsetWraps(A, t, env, names, x, a, b, c);
    CrossOffsetWraps(A, t, env, names, x, y, [VNum(a), VNum(h)], [VNum(b), VNum(h)], [VNum(c), VNum(h)]);
  }

  /** There is a number system, a target and a pair of series in which the wrapped offset changes the meaning. */
  lemma WrapChangesMeaning(x: Expr, y: Expr)
    returns (A: Arith<RealOrNaN>, t: Target, env: Leaves<RealOrNaN>, names: CNames<RealOrNaN>)
    requires IsNamedLeaf(x) && IsNamedLeaf(y) && x != y
    ensures Setting(A, t, env, names)
    ensures Plan(Rising2(x), LAST, t).Some? && Plan(CrossAbove(x, y), LAST, t).Some?
    ensures Denote(A, names, Plan(Rising2(x), LAST, t).value) != Eval(A, env, Rising2(x), LAST)
    ensures Denote(A, names, Plan(CrossAbove(x, y), LAST, t).value) != Eval(A, env, CrossAbove(x, y), LAST)
  {
    A, t, env, names := RealNumbers(), WordTarget(y), FadingLeaves(x, y), FadingNames();
    FadingSetting(x, y);
    WordsDiffer(y, x);
    WordsDiffer(y, y);
    FadingDisagrees(x, y);
    DisagreementShows(A, t, env, names, x, y, Some(1.0), Some(0.0), Some(2.0), Some(0.5));
  }
}
