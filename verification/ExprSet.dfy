/**
 `cxpr_exprset_to_c` as a whole (src/codegen.c): order the definitions, emit one declaration for
 each, and what running the declarations computes.
 */
module ExprSet {
  import opened Common
  import opened CSyntax
  import opened Codegen
  import opened Meaning
  import opened ExprSetOrder
  import opened DependencyOrders
  import Emitter

  datatype Definition = Definition(name: string, expr: Expr)

  // ----- references (src/ast/references.c) -----

  function AddUnique(names: seq<string>, name: string): seq<string> {
    if name in names then names else names + [name]
  }

  /** `cxpr_collect_references`: identifiers and access paths, each once; parameters are not references. */
  function Collect(e: Expr, names: seq<string>): seq<string>
    decreases e
  {
    match e
    case Identifier(name) => AddUnique(names, name)
    case Access(path) => AddUnique(names, path)
    case Binary(_, l, r) => Collect(r, Collect(l, names))
    case Unary(_, x) => Collect(x, names)
    case Ternary(c, y, n) => Collect(n, Collect(y, Collect(c, names)))
    case Call(_, args, _) => CollectArgs(args, names)
    case Index(target, index) => Collect(index, Collect(target, names))
    case _ => names
  }

  function CollectArgs(args: seq<Expr>, names: seq<string>): seq<string>
    decreases args
  {
    if args == [] then names else CollectArgs(args[1..], Collect(args[0], names))
  }

  function DefsOf(defs: seq<Definition>): (d: Defs)
    ensures d.Valid() && |d.names| == |defs|
  {
    Defs(seq(|defs|, i requires 0 <= i < |defs| => defs[i].name),
         seq(|defs|, i requires 0 <= i < |defs| => Collect(defs[i].expr, [])))
  }

  // ----- emission -----

  datatype Declaration = Declaration(name: string, text: Text)

  datatype Block = Declarations(decls: seq<Declaration>) | CircularDependency | TooManyExpressions | NotEmittable

  /** The declarations in some order of the definitions. */
  ghost predicate Declares(defs: seq<Definition>, t: Target, order: seq<nat>, decls: seq<Declaration>) {
    && |decls| == |order|
    && forall k | 0 <= k < |order| ::
         && order[k] < |defs|
         && Plan(defs[order[k]].expr, 0, t).Some?
         && decls[k] == Declaration(defs[order[k]].name, Print(Plan(defs[order[k]].expr, 0, t).value))
  }

  method ExprSetToC(defs: seq<Definition>, t: Target) returns (r: Block, ghost order: seq<nat>)
    ensures r.TooManyExpressions? <==> |defs| > 256
    ensures r.CircularDependency? <==> |defs| <= 256 && !DefsOf(defs).Acyclic()
    ensures r.NotEmittable? ==> exists i | 0 <= i < |defs| :: Plan(defs[i].expr, 0, t).None?
    ensures r.Declarations? ==>
              && Permutation(order, |defs|) && DefsOf(defs).Ordered(order) && DefsOf(defs).Prompt(order)
              && Declares(defs, t, order, r.decls)
  {
    order := [];
    var outcome := OrderDefinitions(DefsOf(defs));
    if outcome.TooMany? {
      return TooManyExpressions, [];
    } else if outcome.Cycle? {
      return CircularDependency, [];
    }
    order := outcome.order;
    var ok, decls := EmitAll(defs, t, outcome.order);
    r := if ok then Declarations(decls) else NotEmittable;
  }

  /** The emission loop. */
  method EmitAll(defs: seq<Definition>, t: Target, order: seq<nat>) returns (ok: bool, decls: seq<Declaration>)
    requires forall k | 0 <= k < |order| :: order[k] < |defs|
    ensures ok ==> Declares(defs, t, order, decls)
    ensures !ok ==> exists i | 0 <= i < |defs| :: Plan(defs[i].expr, 0, t).None?
  {
    decls := [];
    for k := 0 to |order|
      invariant Declares(defs, t, order[..k], decls)
    {
      var d := defs[order[k]];
      var emitter := new Emitter.Emitter(t);
      ok := emitter.EmitAtOffset(d.expr, 0);
      if !ok {
        return;
      }
      assert [] + Print(Plan(d.expr, 0, t).value) == Print(Plan(d.expr, 0, t).value);
      decls := decls + [Declaration(d.name, emitter.buf)];
    }
    assert order[..|order|] == order;
    ok := true;
  }

  // ----- names an emitted expression reads -----

  function FreeNames(c: CExpr): set<string> {
    match c
    case CLeaf(t) => if t.Id? then {t.name} else {}
    case CUn(_, x) => FreeNames(x)
    case CBin(_, l, r) => FreeNames(l) + FreeNames(r)
    case CCond(q, y, n) => FreeNames(q) + FreeNames(y) + FreeNames(n)
    case CCall(_, args) => FreeInArgs(args)
  }

  function FreeInArgs(args: seq<CExpr>): set<string> {
    if args == [] then {} else FreeNames(args[0]) + FreeInArgs(args[1..])
  }

  /** The value of an expression depends on its free names only. */
  lemma {:induction false} CEvalFrame<N>(A: Arith<N>, f: CNames<N>, g: CNames<N>, c: CExpr)
    requires forall s | s in FreeNames(c) :: f(s) == g(s)
    ensures CEval(A, f, c) == CEval(A, g, c)
  {
    match c
    case CLeaf(_) =>
    case CUn(_, x) => CEvalFrame(A, f, g, x);
    case CBin(_, l, r) => CEvalFrame(A, f, g, l); CEvalFrame(A, f, g, r);
    case CCond(q, y, n) => CEvalFrame(A, f, g, q); CEvalFrame(A, f, g, y); CEvalFrame(A, f, g, n);
    case CCall(_, args) => CEvalsFrame(A, f, g, args);
  }

  lemma {:induction false} CEvalsFrame<N>(A: Arith<N>, f: CNames<N>, g: CNames<N>, args: seq<CExpr>)
    requires forall s | s in FreeInArgs(args) :: f(s) == g(s)
    ensures CEvals(A, f, args) == CEvals(A, g, args)
  {
    if args != [] {
      CEvalFrame(A, f, g, args[0]);
      CEvalsFrame(A, f, g, args[1..]);
    }
  }

  // ----- running declarations -----

  datatype Equation = Equation(name: string, tree: CExpr)

  function Assign<N>(names: CNames<N>, name: string, v: Option<Val<N>>): CNames<N> {
    (s: string) => if s == name then v else names(s)
  }

  /** `T name = expr;` for each equation in turn. */
  function Execute<N>(A: Arith<N>, names: CNames<N>, decls: seq<Equation>): CNames<N> {
    if decls == [] then names
    else
      var before, last := Execute(A, names, decls[..|decls| - 1]), decls[|decls| - 1];
      Assign(before, last.name, CEval(A, before, last.tree))
  }

  function InOrder(eqs: seq<Equation>, order: seq<nat>): (decls: seq<Equation>)
    requires forall k | 0 <= k < |order| :: order[k] < |eqs|
    ensures |decls| == |order|
  {
    seq(|order|, k requires 0 <= k < |order| => eqs[order[k]])
  }

  /** All defining equations hold at once, over the given external inputs. */
  ghost predicate Solves<N(!new)>(A: Arith<N>, inputs: CNames<N>, eqs: seq<Equation>, names: CNames<N>) {
    && (forall i | 0 <= i < |eqs| :: names(eqs[i].name) == CEval(A, names, eqs[i].tree))
    && (forall s | forall i | 0 <= i < |eqs| :: eqs[i].name != s :: names(s) == inputs(s))
  }

  ghost predicate DistinctNames(eqs: seq<Equation>) {
    forall i, j | 0 <= i < j < |eqs| :: eqs[i].name != eqs[j].name
  }

  /** Whatever an equation reads from the set stands earlier in the order. */
  ghost predicate ReadsEarlier(eqs: seq<Equation>, order: seq<nat>) {
    forall k, j | 0 <= k < |order| && 0 <= j < |eqs| && order[k] < |eqs|
                  && eqs[j].name in FreeNames(eqs[order[k]].tree) :: j in order[..k]
  }

  /** A name that no declaration from `k` on defines keeps the value it has after `k`. */
  lemma {:induction false} ExecuteKeeps<N>(A: Arith<N>, names: CNames<N>, decls: seq<Equation>, k: nat, s: string)
    requires k <= |decls| && forall i | k <= i < |decls| :: decls[i].name != s
    ensures Execute(A, names, decls)(s) == Execute(A, names, decls[..k])(s)
  {
    if k < |decls| {
      var front := decls[..|decls| - 1];
      ExecuteKeeps(A, names, front, k, s);
      assert front[..k] == decls[..k];
    } else {
      assert decls[..k] == decls;
    }
  }

  lemma DeclaredOnce(eqs: seq<Equation>, order: seq<nat>, k: nat, i: nat)
    requires Permutation(order, |eqs|) && DistinctNames(eqs) && k < |order| && i < |order| && i != k
    ensures InOrder(eqs, order)[i].name != eqs[order[k]].name
  {
    assert order[i] != order[k] by {
      if i < k { assert order[i] != order[k]; } else { assert order[k] != order[i]; }
    }
  }

  /** Running the declarations in a dependency order satisfies every defining equation at once. */
  lemma ExecuteSolves<N(!new)>(A: Arith<N>, inputs: CNames<N>, eqs: seq<Equation>, order: seq<nat>)
    requires Permutation(order, |eqs|) && DistinctNames(eqs) && ReadsEarlier(eqs, order)
    ensures Solves(A, inputs, eqs, Execute(A, inputs, InOrder(eqs, order)))
  {
    var decls := InOrder(eqs, order);
    var names := Execute(A, inputs, decls);
    forall i | 0 <= i < |eqs| ensures names(eqs[i].name) == CEval(A, names, eqs[i].tree) {
      assert i in order;
      var k :| 0 <= k < |order| && order[k] == i;
      EquationHolds(A, inputs, eqs, order, k);
    }
    forall s | forall i | 0 <= i < |eqs| :: eqs[i].name != s ensures names(s) == inputs(s) {
      ExecuteKeeps(A, inputs, decls, 0, s);
      assert decls[..0] == [];
    }
  }

  lemma EquationHolds<N(!new)>(A: Arith<N>, inputs: CNames<N>, eqs: seq<Equation>, order: seq<nat>, k: nat)
    requires Permutation(order, |eqs|) && DistinctNames(eqs) && ReadsEarlier(eqs, order) && k < |order|
    ensures var names, eq := Execute(A, inputs, InOrder(eqs, order)), eqs[order[k]];
            names(eq.name) == CEval(A, names, eq.tree)
  {
    var decls := InOrder(eqs, order);
    var names, before, eq := Execute(A, inputs, decls), Execute(A, inputs, decls[..k]), eqs[order[k]];
    forall s | s in FreeNames(eq.tree) ensures before(s) == names(s) {
      forall i | k <= i < |decls| ensures decls[i].name != s {
        assert order[i] !in order[..k];
      }
      ExecuteKeeps(A, inputs, decls, k, s);
    }
    CEvalFrame(A, before, names, eq.tree);
    forall i | k + 1 <= i < |decls| ensures decls[i].name != eq.name {
      DeclaredOnce(eqs, order, k, i);
    }
    ExecuteKeeps(A, inputs, decls, k + 1, eq.name);
    assert decls[..k + 1][..k] == decls[..k] && decls[..k + 1][k] == eq;
  }

  /** The equations have no other solution. */
  lemma SolutionUnique<N(!new)>(A: Arith<N>, inputs: CNames<N>, eqs: seq<Equation>, order: seq<nat>,
                                                   f: CNames<N>, g: CNames<N>, k: nat)
    requires Permutation(order, |eqs|) && ReadsEarlier(eqs, order) && k <= |order|
    requires Solves(A, inputs, eqs, f) && Solves(A, inputs, eqs, g)
    ensures AgreeOn(eqs, order, f, g, k)
  {
    forall m: nat | m < |order| && AgreeOn(eqs, order, f, g, m) ensures AgreeAt(eqs, order, f, g, m) {
      SolutionsAgreeNext(A, inputs, eqs, order, f, g, m);
    }
    AgreeStepwise(eqs, order, f, g, k);
  }

  lemma OneSolution<N(!new)>(A: Arith<N>, inputs: CNames<N>, eqs: seq<Equation>, order: seq<nat>,
                             f: CNames<N>, g: CNames<N>, s: string)
    requires Permutation(order, |eqs|) && ReadsEarlier(eqs, order)
    requires Solves(A, inputs, eqs, f) && Solves(A, inputs, eqs, g)
    ensures f(s) == g(s)
  {
    SolutionUnique(A, inputs, eqs, order, f, g, |order|);
    if i :| 0 <= i < |eqs| && eqs[i].name == s {
      assert AgreeAt(eqs, order, f, g, Position(order, i));
    } else {
      assert f(s) == inputs(s) && g(s) == inputs(s);
    }
  }

  /** Solving depends on which equations there are, not on their listing. */
  lemma SolvesRelisted<N(!new)>(A: Arith<N>, inputs: CNames<N>, eqs: seq<Equation>, eqs': seq<Equation>, g: CNames<N>)
    requires (forall eq :: eq in eqs <==> eq in eqs') && Solves(A, inputs, eqs', g)
    ensures Solves(A, inputs, eqs, g)
  {
    forall i | 0 <= i < |eqs| ensures g(eqs[i].name) == CEval(A, g, eqs[i].tree) {
      assert eqs[i] in eqs';
    }
    forall x | forall i | 0 <= i < |eqs| :: eqs[i].name != x ensures g(x) == inputs(x) {
      forall i | 0 <= i < |eqs'| ensures eqs'[i].name != x {
        assert eqs'[i] in eqs;
      }
    }
  }

  ghost predicate AgreeAt<N>(eqs: seq<Equation>, order: seq<nat>, f: CNames<N>, g: CNames<N>, i: nat) {
    i < |order| && order[i] < |eqs| && f(eqs[order[i]].name) == g(eqs[order[i]].name)
  }

  /** Two assignments agree on the first `k` definitions of an order. */
  ghost predicate AgreeOn<N>(eqs: seq<Equation>, order: seq<nat>, f: CNames<N>, g: CNames<N>, k: nat) {
    forall i: nat | i < k :: AgreeAt(eqs, order, f, g, i)
  }

  lemma {:induction false} AgreeStepwise<N>(eqs: seq<Equation>, order: seq<nat>, f: CNames<N>, g: CNames<N>, k: nat)
    requires k <= |order|
    requires forall m: nat | m < |order| && AgreeOn(eqs, order, f, g, m) :: AgreeAt(eqs, order, f, g, m)
    ensures AgreeOn(eqs, order, f, g, k)
  {
    if k > 0 {
      AgreeStepwise(eqs, order, f, g, k - 1);
    }
  }

  /** Solutions that agree on the first definitions agree on the next one. */
  lemma SolutionsAgreeNext<N(!new)>(A: Arith<N>, inputs: CNames<N>, eqs: seq<Equation>, order: seq<nat>,
                                    f: CNames<N>, g: CNames<N>, k: nat)
    requires Permutation(order, |eqs|) && ReadsEarlier(eqs, order) && k < |order|
    requires Solves(A, inputs, eqs, f) && Solves(A, inputs, eqs, g)
    requires AgreeOn(eqs, order, f, g, k)
    ensures AgreeAt(eqs, order, f, g, k)
  {
    var eq := eqs[order[k]];
    forall s | s in FreeNames(eq.tree) ensures f(s) == g(s) {
      SolutionsAgreeAt(A, inputs, eqs, order, f, g, k, s);
    }
    SolvedAt(A, inputs, eqs, f, order[k]);
    SolvedAt(A, inputs, eqs, g, order[k]);
    CEvalFrame(A, f, g, eq.tree);
  }

  lemma SolvedAt<N(!new)>(A: Arith<N>, inputs: CNames<N>, eqs: seq<Equation>, f: CNames<N>, i: nat)
    requires Solves(A, inputs, eqs, f) && i < |eqs|
    ensures f(eqs[i].name) == CEval(A, f, eqs[i].tree)
  {
  }

  /** Solutions that agree on the first definitions agree on what the next one reads. */
  lemma SolutionsAgreeAt<N(!new)>(A: Arith<N>, inputs: CNames<N>, eqs: seq<Equation>, order: seq<nat>,
                                  f: CNames<N>, g: CNames<N>, k: nat, s: string)
    requires Permutation(order, |eqs|) && ReadsEarlier(eqs, order) && k < |order|
    requires Solves(A, inputs, eqs, f) && Solves(A, inputs, eqs, g)
    requires AgreeOn(eqs, order, f, g, k)
    requires s in FreeNames(eqs[order[k]].tree)
    ensures f(s) == g(s)
  {
    if j :| 0 <= j < |eqs| && eqs[j].name == s {
      assert j in order[..k];
      var i :| 0 <= i < k && order[i] == j;
      assert AgreeAt(eqs, order, f, g, i);
    } else {
      assert f(s) == inputs(s) && g(s) == inputs(s);
    }
  }

  /**
   Running the emitted declarations computes the one assignment that satisfies all the definitions,
   so any two dependency orders, of the definitions listed in any order, give the same values.
   */
  lemma OrderIrrelevant<N(!new)>(A: Arith<N>, inputs: CNames<N>, eqs: seq<Equation>, order: seq<nat>,
                                 eqs': seq<Equation>, order': seq<nat>, s: string)
    requires Permutation(order, |eqs|) && DistinctNames(eqs) && ReadsEarlier(eqs, order)
    requires Permutation(order', |eqs'|) && DistinctNames(eqs') && ReadsEarlier(eqs', order')
    requires forall eq :: eq in eqs <==> eq in eqs'
    ensures Execute(A, inputs, InOrder(eqs, order))(s) == Execute(A, inputs, InOrder(eqs', order'))(s)
  {
    var f, g := Execute(A, inputs, InOrder(eqs, order)), Execute(A, inputs, InOrder(eqs', order'));
    ExecuteSolves(A, inputs, eqs, order);
    ExecuteSolves(A, inputs, eqs', order');
    SolvesRelisted(A, inputs, eqs, eqs', g);
    OneSolution(A, inputs, eqs, order, f, g, s);
  }

  // ----- from definitions to equations -----

  /** The names an expression emitted without a leaf hook can read. */
  function Mentions(e: Expr): set<string>
    decreases e
  {
    match e
    case Number(lit) => if lit.Finite? then {} else {"inf", "nan"}
    case Identifier(name) => {name}
    case Parameter(name) => {BareName(name)}
    case Binary(_, l, r) => Mentions(l) + Mentions(r)
    case Unary(_, x) => Mentions(x)
    case Ternary(c, y, n) => Mentions(c) + Mentions(y) + Mentions(n)
    case Call(_, args, _) => ArgMentions(args)
    case Index(target, _) => Mentions(target)
    case _ => {}
  }

  function ArgMentions(args: seq<Expr>): (r: set<string>)
    ensures forall i | 0 <= i < |args| :: Mentions(args[i]) <= r
    decreases args
  {
    if args == [] then {} else Mentions(args[0]) + ArgMentions(args[1..])
  }

  /** The layout reads only names in `s`. */
  ghost predicate Reads(p: Layout, s: set<string>) {
    FreeNames(Tree(p)) <= s
  }

  lemma {:induction false} ReadsCall(fn: string, ps: seq<Layout>, s: set<string>)
    requires forall i | 0 <= i < |ps| :: Reads(ps[i], s)
    ensures Reads(Layout.Call(fn, ps), s)
  {
    FreeInTrees(Trees(ps), s);
  }

  lemma {:induction false} FreeInTrees(cs: seq<CExpr>, s: set<string>)
    requires forall i | 0 <= i < |cs| :: FreeNames(cs[i]) <= s
    ensures FreeInArgs(cs) <= s
  {
    if cs != [] {
      FreeInTrees(cs[1..], s);
    }
  }

  lemma ReadsBin(op: BinOp, l: Layout, r: Layout, s: set<string>)
    requires Reads(l, s) && Reads(r, s)
    ensures Reads(Bin(op, l, r), s) && Reads(Paren(Bin(op, l, r)), s)
  {
    assert Tree(Paren(Bin(op, l, r))) == Tree(Bin(op, l, r));
  }

  lemma {:induction false} ReadsChain(cs: seq<Layout>, s: set<string>)
    requires cs != [] && forall i | 0 <= i < |cs| :: Reads(cs[i], s)
    ensures Reads(Chain(cs), s)
  {
    if |cs| > 1 {
      ReadsChain(cs[..|cs| - 1], s);
      ReadsBin(AndAnd, Chain(cs[..|cs| - 1]), cs[|cs| - 1], s);
    }
  }

  lemma {:induction false} ReadsExtreme(fn: string, ps: seq<Layout>, s: set<string>)
    requires ps != [] && forall i | 0 <= i < |ps| :: Reads(ps[i], s)
    ensures Reads(ExtremeLayout(fn, ps), s)
  {
    if |ps| > 1 {
      ReadsExtreme(fn, ps[..|ps| - 1], s);
      ReadsCall(fn, [ExtremeLayout(fn, ps[..|ps| - 1]), ps[|ps| - 1]], s);
    }
  }

  lemma ReadsBound(ps: seq<Layout>, bound: nat, flag: nat, inclusive: BinOp, exclusive: BinOp, s: set<string>)
    requires bound < |ps| && forall i | 0 <= i < |ps| :: Reads(ps[i], s)
    ensures Reads(BoundLayout(ps, bound, flag, inclusive, exclusive), s)
  {
    ReadsBin(inclusive, ps[0], ps[bound], s);
    ReadsBin(exclusive, ps[0], ps[bound], s);
    if flag < |ps| {
      var c := Cond(ps[flag], Bin(inclusive, ps[0], ps[bound]), Bin(exclusive, ps[0], ps[bound]));
      assert Tree(Paren(c)) == Tree(c);
    }
  }

  /** Without a leaf hook, emitted text reads only the names the expression mentions. */
  lemma {:induction false} PlanReads(e: Expr, k: nat, t: Target)
    requires t.leafAtOffset.None?
    ensures Plan(e, k, t).Some? ==> Reads(Plan(e, k, t).value, Mentions(e))
    decreases e, 0, 0
  {
    if Plan(e, k, t).Some? {
      match e
      case Binary(op, l, r) =>
        PlanReads(l, k, t);
        PlanReads(r, k, t);
        var p, q := Plan(l, k, t).value, Plan(r, k, t).value;
        if op == Power || op == Percent {
          ReadsCall(if op == Power then "pow" else "fmod", [p, q], Mentions(e));
        } else {
          ReadsBin(Operator(op).value, p, q, Mentions(e));
        }
      case Unary(_, x) =>
        PlanReads(x, k, t);
      case Ternary(c, y, n) =>
        PlanReads(c, k, t);
        PlanReads(y, k, t);
        PlanReads(n, k, t);
        var q := Cond(Plan(c, k, t).value, Plan(y, k, t).value, Plan(n, k, t).value);
        assert Tree(Paren(q)) == Tree(q);
      case Index(target, index) =>
        PlanReads(target, AddOffset(k, LiteralOffset(index).value).value, t);
      case Call(fn, args, tags) =>
        if IsTrend(fn) || fn == "repeat" {
          SeriesCallReads(fn, args, tags, k, t);
        } else {
          ArgCallReads(fn, args, tags, k, t);
        }
      case _ =>
    }
  }

  lemma {:induction false} SeriesCallReads(fn: string, args: seq<Expr>, tags: seq<Option<string>>, k: nat, t: Target)
    requires t.leafAtOffset.None? && (IsTrend(fn) || fn == "repeat") && CallPlan(fn, args, tags, k, t).Some?
    ensures Reads(CallPlan(fn, args, tags, k, t).value, ArgMentions(args))
    decreases args, 2, 0
  {
    var trend, s := IsTrend(fn), ArgMentions(args);
    var value := args[Chosen(tags, if trend then {"value"} else {"condition"}, 0)];
    var bars := Bars(args[Chosen(tags, BAR_LABELS, 1)], if trend then 2.0 else 0.0).value;
    if bars > 0 {
      SeriesReads(value, k, bars, t);
      var ps := SeriesPlan(value, k, bars, t).value;
      if trend {
        var op := if fn == "rising" then Gt else Lt;
        var cs := TrendTerms(op, ps);
        forall i | 0 <= i < |cs| ensures Reads(cs[i], s) {
          ReadsBin(op, ps[i], ps[i + 1], s);
        }
        ReadsChain(cs, s);
      } else {
        var cs := RepeatTerms(ps);
        forall i | 0 <= i < |cs| ensures Reads(cs[i], s) {
          assert Tree(cs[i]) == Tree(ps[i]);
        }
        ReadsChain(cs, s);
      }
    }
  }

  lemma {:induction false} SeriesReads(e: Expr, k: nat, n: nat, t: Target)
    requires t.leafAtOffset.None? && SeriesPlan(e, k, n, t).Some?
    ensures forall i | 0 <= i < n :: Reads(SeriesPlan(e, k, n, t).value[i], Mentions(e))
    decreases e, 1, n
  {
    if n > 0 {
      SeriesReads(e, k, n - 1, t);
      PlanReads(e, Shift(k, n - 1), t);
    }
  }

  lemma {:induction false} ArgCallReads(fn: string, args: seq<Expr>, tags: seq<Option<string>>, k: nat, t: Target)
    requires t.leafAtOffset.None? && !IsTrend(fn) && fn != "repeat" && CallPlan(fn, args, tags, k, t).Some?
    ensures Reads(CallPlan(fn, args, tags, k, t).value, ArgMentions(args))
    decreases args, 2, 0
  {
    if !(fn == "nan" && |args| == 0) {
      var s := ArgMentions(args);
      ArgsRead(args, k, t);
      var ps := ArgPlans(args, k, t).value;
      if IsCross(fn, |args|) {
        ArgsRead(args, Shift(k, 1), t);
        var above, before := fn == "cross_above", ArgPlans(args, Shift(k, 1), t).value;
        ReadsBin(if above then Gt else Lt, ps[0], ps[1], s);
        ReadsBin(if above then Le else Ge, before[0], before[1], s);
        ReadsBin(AndAnd, Bin(if above then Gt else Lt, ps[0], ps[1]),
                         Bin(if above then Le else Ge, before[0], before[1]), s);
      } else if IsWithin(fn, |args|) {
        ReadsBound(ps, 1, 3, Ge, Gt, s);
        ReadsBound(ps, 2, 4, Le, Lt, s);
        ReadsBin(AndAnd, BoundLayout(ps, 1, 3, Ge, Gt), BoundLayout(ps, 2, 4, Le, Lt), s);
      } else if IsExtreme(fn, |args|) {
        ReadsExtreme(if fn == "min" then "fmin" else "fmax", ps, s);
      } else {
        ReadsCall(MappedFunction(t, fn, |args|).value, ps, s);
      }
    }
  }

  lemma {:induction false} ArgsRead(args: seq<Expr>, k: nat, t: Target)
    requires t.leafAtOffset.None? && ArgPlans(args, k, t).Some?
    ensures forall i | 0 <= i < |args| :: Reads(ArgPlans(args, k, t).value[i], ArgMentions(args))
    decreases args, 0, 0
  {
    if args != [] {
      PlanReads(args[0], k, t);
      ArgsRead(args[1..], k, t);
      var ps := ArgPlans(args, k, t).value;
      assert forall i | 0 < i < |args| :: ps[i] == ArgPlans(args[1..], k, t).value[i - 1];
    }
  }

  function EquationsOf(defs: seq<Definition>, t: Target): (eqs: seq<Equation>)
    requires forall i | 0 <= i < |defs| :: Plan(defs[i].expr, 0, t).Some?
    ensures |eqs| == |defs|
  {
    seq(|defs|, i requires 0 <= i < |defs| => Equation(defs[i].name, Tree(Plan(defs[i].expr, 0, t).value)))
  }

  /** Whatever an equation reads from the set is reached through the references the ordering looks at. */
  ghost predicate Captures(d: Defs, eqs: seq<Equation>)
    requires d.Valid()
  {
    forall i: nat, j: nat | i < |eqs| && j < |eqs| && eqs[j].name in FreeNames(eqs[i].tree) :: d.NeedsDeep(i, j)
  }

  lemma CapturedReadsEarlier(d: Defs, eqs: seq<Equation>, order: seq<nat>)
    requires d.Valid() && |eqs| == |d.names| && Captures(d, eqs)
    requires Permutation(order, |eqs|) && d.Ordered(order)
    ensures ReadsEarlier(eqs, order)
  {
    forall k, j: nat | 0 <= k < |order| && j < |eqs| && order[k] < |eqs|
                       && eqs[j].name in FreeNames(eqs[order[k]].tree)
      ensures j in order[..k]
    {
      DeepIsEarlier(d, order, order[k], j);
      var p := Position(order, j);
      PositionOf(order, k);
      assert order[..k][p] == j;
    }
  }

  lemma EarlierIsDeep(d: Defs, eqs: seq<Equation>, i: nat, j: nat)
    requires d.Valid() && d.Acyclic() && |eqs| == |d.names| && i < |eqs| && j < |eqs|
    requires forall order: seq<nat> | Permutation(order, |eqs|) && d.Ordered(order) :: ReadsEarlier(eqs, order)
    requires eqs[j].name in FreeNames(eqs[i].tree)
    ensures d.NeedsDeep(i, j)
  {
    var order := ClosureFirst(d, i);
    var k := Position(order, i);
    assert ReadsEarlier(eqs, order) && j in order[..k];
    var p :| 0 <= p < k && order[..k][p] == j;
    assert order[p] == j && order[p] != order[k];
    LeadsElsewhere(d, i, j);
  }

  /**
   Every dependency order puts what is read before its reader if and only if each reader reaches what
   it reads through the references the ordering looks at: the first 64 names, without parameters and
   without the definition's own name.
   */
  lemma OrderingSeesReads(d: Defs, eqs: seq<Equation>)
    requires d.Valid() && d.Acyclic() && |eqs| == |d.names|
    ensures (forall order: seq<nat> | Permutation(order, |eqs|) && d.Ordered(order) :: ReadsEarlier(eqs, order))
            <==> Captures(d, eqs)
  {
    if Captures(d, eqs) {
      forall order: seq<nat> | Permutation(order, |eqs|) && d.Ordered(order) ensures ReadsEarlier(eqs, order) {
        CapturedReadsEarlier(d, eqs, order);
      }
    }
    if forall order: seq<nat> | Permutation(order, |eqs|) && d.Ordered(order) :: ReadsEarlier(eqs, order) {
      forall i: nat, j: nat | i < |eqs| && j < |eqs| && eqs[j].name in FreeNames(eqs[i].tree)
        ensures d.NeedsDeep(i, j)
      {
        EarlierIsDeep(d, eqs, i, j);
      }
    }
  }

  /** The emitted block computes the one assignment that satisfies all definitions at once. */
  lemma BlockComputesDefinitions<N(!new)>(A: Arith<N>, inputs: CNames<N>, defs: seq<Definition>, t: Target,
                                          order: seq<nat>)
    requires forall i | 0 <= i < |defs| :: Plan(defs[i].expr, 0, t).Some?
    requires Captures(DefsOf(defs), EquationsOf(defs, t)) && DistinctNames(EquationsOf(defs, t))
    requires Permutation(order, |defs|) && DefsOf(defs).Ordered(order)
    ensures var eqs := EquationsOf(defs, t);
            var names := Execute(A, inputs, InOrder(eqs, order));
            && Solves(A, inputs, eqs, names)
            && forall other: CNames<N>, s: string :: Solves(A, inputs, eqs, other) ==> other(s) == names(s)
  {
    var eqs := EquationsOf(defs, t);
    CapturedReadsEarlier(DefsOf(defs), eqs, order);
    ExecuteSolves(A, inputs, eqs, order);
    var names := Execute(A, inputs, InOrder(eqs, order));
    forall other: CNames<N>, s: string | Solves(A, inputs, eqs, other) ensures other(s) == names(s) {
      OneSolution(A, inputs, eqs, order, other, names, s);
    }
  }

  // ----- when the references capture every dependency -----

  /** Names that are printed but not collected: parameters, and the text of non-finite literals. */
  function Borrowed(e: Expr): set<string>
    decreases e
  {
    match e
    case Number(lit) => if lit.Finite? then {} else {"inf", "nan"}
    case Parameter(name) => {BareName(name)}
    case Binary(_, l, r) => Borrowed(l) + Borrowed(r)
    case Unary(_, x) => Borrowed(x)
    case Ternary(c, y, n) => Borrowed(c) + Borrowed(y) + Borrowed(n)
    case Call(_, args, _) => ArgBorrowed(args)
    case Index(target, _) => Borrowed(target)
    case _ => {}
  }

  function ArgBorrowed(args: seq<Expr>): set<string>
    decreases args
  {
    if args == [] then {} else Borrowed(args[0]) + ArgBorrowed(args[1..])
  }

  lemma {:induction false} CollectKeeps(e: Expr, names: seq<string>)
    ensures forall s | s in names :: s in Collect(e, names)
    ensures forall s | s in Mentions(e) :: s in Collect(e, names) || s in Borrowed(e)
    decreases e
  {
    match e
    case Binary(_, l, r) =>
      CollectKeeps(l, names);
      CollectKeeps(r, Collect(l, names));
    case Unary(_, x) => CollectKeeps(x, names);
    case Ternary(c, y, n) =>
      CollectKeeps(c, names);
      CollectKeeps(y, Collect(c, names));
      CollectKeeps(n, Collect(y, Collect(c, names)));
    case Call(_, args, _) => CollectArgsKeeps(args, names);
    case Index(target, index) =>
      CollectKeeps(target, names);
      CollectKeeps(index, Collect(target, names));
    case _ =>
  }

  lemma {:induction false} CollectArgsKeeps(args: seq<Expr>, names: seq<string>)
    ensures forall s | s in names :: s in CollectArgs(args, names)
    ensures forall s | s in ArgMentions(args) :: s in CollectArgs(args, names) || s in ArgBorrowed(args)
    decreases args
  {
    if args != [] {
      CollectKeeps(args[0], names);
      CollectArgsKeeps(args[1..], Collect(args[0], names));
    }
  }

  /**
   A condition on the expressions alone: the ordering sees every dependency if no expression has more
   than 64 references, mentions its own name, or borrows the name of a definition for a parameter.
   */
  lemma OrdinaryDefinitionsAreCaptured(defs: seq<Definition>, t: Target)
    requires t.leafAtOffset.None? && forall i | 0 <= i < |defs| :: Plan(defs[i].expr, 0, t).Some?
    requires forall i | 0 <= i < |defs| ::
               && |Collect(defs[i].expr, [])| <= 64
               && defs[i].name !in Mentions(defs[i].expr)
    requires forall i, j | 0 <= i < |defs| && 0 <= j < |defs| :: defs[j].name !in Borrowed(defs[i].expr)
    ensures Captures(DefsOf(defs), EquationsOf(defs, t))
  {
    var d, eqs := DefsOf(defs), EquationsOf(defs, t);
    forall i: nat, j: nat | i < |eqs| && j < |eqs| && eqs[j].name in FreeNames(eqs[i].tree)
      ensures d.NeedsDeep(i, j)
    {
      PlanReads(defs[i].expr, 0, t);
      assert defs[j].name in Mentions(defs[i].expr);
      CollectKeeps(defs[i].expr, []);
      assert d.Needs(i, j);
      LeadsSelf(d, j);
    }
  }
}
