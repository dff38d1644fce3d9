/** The text that `cxpr_exprset_to_c` returns, read as C and run, evaluates the definitions it came from. */
module ExprSetMeaning {
  import opened Common
  import opened CSyntax
  import opened CPrintParse
  import opened Codegen
  import opened CodegenText
  import opened Meaning
  import opened CodegenMeaning
  import opened ExprSetOrder
  import opened ExprSet

  /** Every declared expression is read completely. */
  ghost predicate Readable(decls: seq<Declaration>) {
    forall k | 0 <= k < |decls| :: ReadBack(decls[k].text).Ok? && ReadBack(decls[k].text).rest == []
  }

  /** The declarations as a C compiler reads them. */
  ghost function ReadEquations(decls: seq<Declaration>): (eqs: seq<Equation>)
    requires Readable(decls)
    ensures |eqs| == |decls|
  {
    seq(|decls|, k requires 0 <= k < |decls| => Equation(decls[k].name, ReadBack(decls[k].text).value))
  }

  ghost predicate AllPlanned(defs: seq<Definition>, t: Target) {
    forall i | 0 <= i < |defs| :: Plan(defs[i].expr, 0, t).Some?
  }

  ghost predicate AllReadable(defs: seq<Definition>) {
    forall i | 0 <= i < |defs| :: Printable(defs[i].expr)
  }

  lemma DeclarationsReadBack(defs: seq<Definition>, t: Target, order: seq<nat>, decls: seq<Declaration>)
    requires AllPlanned(defs, t) && AllReadable(defs) && Declares(defs, t, order, decls)
    ensures Readable(decls) && ReadEquations(decls) == InOrder(EquationsOf(defs, t), order)
  {
    forall k | 0 <= k < |decls|
      ensures ReadBack(decls[k].text) == Ok(Tree(Plan(defs[order[k]].expr, 0, t).value), [])
    {
      EmittedTextReadsBack(defs[order[k]].expr, 0, t);
    }
    assert Readable(decls);
    var l, r := ReadEquations(decls), InOrder(EquationsOf(defs, t), order);
    forall k | 0 <= k < |l| ensures l[k] == r[k] {
    }
  }

  /** The leaves of an expression, read from named values at the current bar. */
  function LeavesOf<N>(names: CNames<N>): Leaves<N> {
    (e: Expr, k: nat) =>
      if k > 0 then None
      else if e.Identifier? then names(e.name)
      else if e.Parameter? then names(BareName(e.name))
      else None
  }

  lemma LeavesAgree<N(!new)>(A: Arith<N>, t: Target, names: CNames<N>)
    requires Ieee(A) && FunctionsAgree(A, t) && t.leafAtOffset.None?
    ensures Setting(A, t, LeavesOf(names), names)
  {
    var env := LeavesOf(names);
    forall e: Expr, k: nat |
      (e.Identifier? || e.Parameter? || e.Access?) && LeafPlan(e, k, t).Some? && env(e, k).Some?
      ensures LeafValue(names, LeafPlan(e, k, t).value) == env(e, k)
    {
    }
  }

  /** A definition whose expression the evaluator can compute from the final values has that value. */
  ghost predicate Evaluated<N>(A: Arith<N>, names: CNames<N>, def: Definition) {
    var env := LeavesOf(names);
    Regular(A, env, names, def.expr, 0) && Eval(A, env, def.expr, 0).Some? ==>
      names(def.name) == Eval(A, env, def.expr, 0)
  }

  /**
   Reading the returned declarations as C and running them in order gives every definition the value
   that the evaluator gives its expression from the final values, and leaves all other names alone.
   */
  lemma BlockEvaluatesDefinitions<N(!new)>(A: Arith<N>, inputs: CNames<N>, defs: seq<Definition>, t: Target,
                                           order: seq<nat>, decls: seq<Declaration>)
    requires Ieee(A) && FunctionsAgree(A, t) && t.leafAtOffset.None?
    requires AllPlanned(defs, t) && AllReadable(defs) && Declares(defs, t, order, decls)
    requires Permutation(order, |defs|) && DefsOf(defs).Ordered(order)
    requires Captures(DefsOf(defs), EquationsOf(defs, t)) && DistinctNames(EquationsOf(defs, t))
    ensures Readable(decls)
    ensures var names := Execute(A, inputs, ReadEquations(decls));
            && (forall i | 0 <= i < |defs| :: Evaluated(A, names, defs[i]))
            && (forall s | forall i | 0 <= i < |defs| :: defs[i].name != s :: names(s) == inputs(s))
  {
    DeclarationsReadBack(defs, t, order, decls);
    BlockComputesDefinitions(A, inputs, defs, t, order);
    var eqs, names := EquationsOf(defs, t), Execute(A, inputs, ReadEquations(decls));
    forall i | 0 <= i < |defs| ensures Evaluated(A, names, defs[i]) {
      assert names(eqs[i].name) == CEval(A, names, eqs[i].tree);
      DefinitionEvaluated(A, names, t, defs[i]);
    }
    forall s | forall i | 0 <= i < |defs| :: defs[i].name != s ensures names(s) == inputs(s) {
      assert forall i | 0 <= i < |eqs| :: eqs[i].name == defs[i].name;
    }
  }

  lemma DefinitionEvaluated<N(!new)>(A: Arith<N>, names: CNames<N>, t: Target, def: Definition)
    requires Ieee(A) && FunctionsAgree(A, t) && t.leafAtOffset.None? && Plan(def.expr, 0, t).Some?
    requires names(def.name) == CEval(A, names, Tree(Plan(def.expr, 0, t).value))
    ensures Evaluated(A, names, def)
  {
    var env := LeavesOf(names);
    if Regular(A, env, names, def.expr, 0) && Eval(A, env, def.expr, 0).Some? {
      LeavesAgree(A, t, names);
      Preserves(A, t, env, names, def.expr, 0);
    }
  }
}
