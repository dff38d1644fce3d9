/**
 Reads between definitions that the ordering of `cxpr_exprset_to_c` does not see: what they do to the
 block, and for which definitions there are none.
 */
module HiddenReads {
  import opened Common
  import opened CSyntax
  import opened Codegen
  import opened Meaning
  import opened ExprSetOrder
  import opened DependencyOrders
  import opened ExprSet

  // ----- the order the search returns, for every listing -----

  /** What the search promises of the order it returns. */
  ghost predicate Searched(d: Defs, order: seq<nat>)
    requires d.Valid()
  {
    Permutation(order, |d.names|) && d.Ordered(order) && d.Prompt(order)
  }

  /** The definitions listed in another order. */
  function Relisted(defs: seq<Definition>, listing: seq<nat>): (r: seq<Definition>)
    requires forall i | 0 <= i < |listing| :: listing[i] < |defs|
    ensures |r| == |listing| && forall i | 0 <= i < |listing| :: r[i] == defs[listing[i]]
  {
    seq(|listing|, i requires 0 <= i < |listing| => defs[listing[i]])
  }

  /** The order of the original definitions that an order of the relisted ones stands for. */
  function Composed(listing: seq<nat>, order: seq<nat>): (c: seq<nat>)
    requires forall k | 0 <= k < |order| :: order[k] < |listing|
    ensures |c| == |order| && forall k | 0 <= k < |order| :: c[k] == listing[order[k]]
  {
    seq(|order|, k requires 0 <= k < |order| => listing[order[k]])
  }

  lemma RelistedNeeds(defs: seq<Definition>, listing: seq<nat>, i: nat, j: nat)
    requires Permutation(listing, |defs|) && i < |defs| && j < |defs|
    ensures DefsOf(Relisted(defs, listing)).Needs(i, j) <==> DefsOf(defs).Needs(listing[i], listing[j])
  {
    assert i != j ==> listing[i] != listing[j];
  }

  lemma ComposedPermutation(listing: seq<nat>, order: seq<nat>, n: nat)
    requires Permutation(listing, n) && Permutation(order, n)
    ensures Permutation(Composed(listing, order), n)
  {
    var c := Composed(listing, order);
    forall j: nat | j < n ensures j in c {
      var k := Position(listing, j);
      assert c[Position(order, k)] == j;
    }
  }

  lemma ComposedIn(listing: seq<nat>, order: seq<nat>, n: nat, j: nat, k: nat)
    requires Permutation(listing, n) && Permutation(order, n) && j < n && k <= n
    ensures listing[j] in Composed(listing, order)[..k] <==> j in order[..k]
  {
    var c := Composed(listing, order);
    if j in order[..k] {
      var p :| 0 <= p < k && order[..k][p] == j;
      assert c[..k][p] == listing[j];
    }
    if listing[j] in c[..k] {
      var p :| 0 <= p < k && c[..k][p] == listing[j];
      assert order[..k][p] == j;
    }
  }

  lemma ComposedOrdered(defs: seq<Definition>, listing: seq<nat>, order: seq<nat>)
    requires Permutation(listing, |defs|) && Permutation(order, |defs|)
    requires DefsOf(Relisted(defs, listing)).Ordered(order)
    ensures DefsOf(defs).Ordered(Composed(listing, order))
  {
    var c := Composed(listing, order);
    forall k, j | 0 <= k < |c| && DefsOf(defs).Needs(c[k], j) ensures j in c[..k] {
      var j' := Position(listing, j);
      RelistedNeeds(defs, listing, order[k], j');
      ComposedIn(listing, order, |defs|, j', k);
    }
  }

  /** With every read captured, the search puts reads first whatever the listing. */
  lemma CapturedInEveryListing(defs: seq<Definition>, t: Target, listing: seq<nat>, order: seq<nat>)
    requires forall i | 0 <= i < |defs| :: Plan(defs[i].expr, 0, t).Some?
    requires Captures(DefsOf(defs), EquationsOf(defs, t)) && Permutation(listing, |defs|)
    requires Searched(DefsOf(Relisted(defs, listing)), order)
    ensures ReadsEarlier(EquationsOf(Relisted(defs, listing), t), order)
  {
    var n, eqs, eqs' := |defs|, EquationsOf(defs, t), EquationsOf(Relisted(defs, listing), t);
    var c := Composed(listing, order);
    ComposedPermutation(listing, order, n);
    ComposedOrdered(defs, listing, order);
    CapturedReadsEarlier(DefsOf(defs), eqs, c);
    forall k, j | 0 <= k < |order| && 0 <= j < |eqs'| && order[k] < |eqs'|
                  && eqs'[j].name in FreeNames(eqs'[order[k]].tree)
      ensures j in order[..k]
    {
      assert eqs[listing[j]].name in FreeNames(eqs[c[k]].tree);
      ComposedIn(listing, order, n, j, k);
    }
  }

  /** Definitions listed in a dependency order need only what is listed before them. */
  lemma ListedInOrder(defs: seq<Definition>, listing: seq<nat>)
    requires Permutation(listing, |defs|) && DefsOf(defs).Ordered(listing)
    ensures DefsOf(Relisted(defs, listing)).Ordered(Listing(|defs|))
  {
    var n, d := |defs|, DefsOf(Relisted(defs, listing));
    forall k, j: nat | 0 <= k < n && d.Needs(Listing(n)[k], j) ensures j in Listing(n)[..k] {
      RelistedNeeds(defs, listing, k, j);
      var p :| 0 <= p < k && listing[..k][p] == listing[j];
      assert Listing(n)[..k][p] == j;
    }
  }

  /** If some read is not captured, for some listing the search returns it unchanged, with a read too early. */
  lemma HiddenReadMisordered(defs: seq<Definition>, t: Target, i: nat, j: nat) returns (listing: seq<nat>)
    requires DefsOf(defs).Acyclic() && i < |defs| && j < |defs|
    requires forall i | 0 <= i < |defs| :: Plan(defs[i].expr, 0, t).Some?
    requires defs[j].name in FreeNames(EquationsOf(defs, t)[i].tree) && !DefsOf(defs).NeedsDeep(i, j)
    ensures Permutation(listing, |defs|) && Searched(DefsOf(Relisted(defs, listing)), Listing(|defs|))
    ensures forall order | Searched(DefsOf(Relisted(defs, listing)), order) ::
              order == Listing(|defs|) && !ReadsEarlier(EquationsOf(Relisted(defs, listing), t), order)
  {
    var n := |defs|;
    listing := ClosureFirst(DefsOf(defs), i);
    ListedInOrder(defs, listing);
    ListingPrompt(DefsOf(Relisted(defs, listing)));
    var k, p := Position(listing, i), Position(listing, j);
    if p < k {
      LeadsElsewhere(DefsOf(defs), i, j);
    }
    var eqs := EquationsOf(Relisted(defs, listing), t);
    assert eqs[p].name in FreeNames(eqs[k].tree) && Listing(n)[k] == k;
    assert p !in Listing(n)[..k];
    forall order | Searched(DefsOf(Relisted(defs, listing)), order)
      ensures order == Listing(n) && !ReadsEarlier(eqs, order)
    {
      ListingKept(DefsOf(Relisted(defs, listing)), order);
    }
  }

  /**
   Whatever order the definitions are listed in, the order the search returns puts what is read before
   its reader, if and only if each reader reaches what it reads through the references the search sees.
   */
  lemma SearchSeesReads(defs: seq<Definition>, t: Target)
    requires DefsOf(defs).Acyclic() && forall i | 0 <= i < |defs| :: Plan(defs[i].expr, 0, t).Some?
    ensures (forall listing, order | Permutation(listing, |defs|) && Searched(DefsOf(Relisted(defs, listing)), order) ::
               ReadsEarlier(EquationsOf(Relisted(defs, listing), t), order))
            <==> Captures(DefsOf(defs), EquationsOf(defs, t))
  {
    var d, eqs := DefsOf(defs), EquationsOf(defs, t);
    if Captures(d, eqs) {
      forall listing, order | Permutation(listing, |defs|) && Searched(DefsOf(Relisted(defs, listing)), order)
        ensures ReadsEarlier(EquationsOf(Relisted(defs, listing), t), order)
      {
        CapturedInEveryListing(defs, t, listing, order);
      }
    } else {
      var i: nat, j: nat :| i < |eqs| && j < |eqs| && eqs[j].name in FreeNames(eqs[i].tree) && !d.NeedsDeep(i, j);
      var listing := HiddenReadMisordered(defs, t, i, j);
      assert !ReadsEarlier(EquationsOf(Relisted(defs, listing), t), Listing(|defs|));
    }
  }

  // ----- definitions whose reads the search does not see -----

  /** `a = $b; b = 1` */
  function ParameterDefs(): seq<Definition> {
    [Definition("a", Parameter("$b")), Definition("b", Number(Finite(false, 1.0)))]
  }

  lemma ParameterEquations(t: Target, defs: seq<Definition>)
    requires t.leafAtOffset.None? && defs == ParameterDefs()
    ensures forall i | 0 <= i < |defs| :: Plan(defs[i].expr, 0, t).Some?
    ensures EquationsOf(defs, t) == [Equation("a", CLeaf(Id("b"))), Equation("b", CLeaf(Num(1.0)))]
    ensures forall i, j :: !DefsOf(defs).Needs(i, j)
  {
    assert BareName("$b") == "b";
    assert Plan(defs[0].expr, 0, t) == Some(Leaf(Id("b"))) && Plan(defs[1].expr, 0, t) == Some(Leaf(Num(1.0)));
    assert DefsOf(defs).refs[0] == [] && DefsOf(defs).refs[1] == [];
  }

  /** `a = tree; b = literal` in that order, where the tree may read `b`. */
  lemma MisreadBlock<N(!new)>(A: Arith<N>, inputs: CNames<N>, eqs: seq<Equation>, a: string, tree: CExpr,
                              b: string, m: real)
    requires a != b && a !in FreeNames(tree) && eqs == [Equation(a, tree), Equation(b, CLeaf(Num(m)))]
    ensures Solves(A, inputs, eqs, Execute(A, inputs, eqs))
            <==> CEval(A, Assign(inputs, b, Some(VNum(A.literal(Finite(false, m))))), tree) == CEval(A, inputs, tree)
  {
    var one, names := Some(VNum(A.literal(Finite(false, m)))), Execute(A, inputs, eqs);
    ExecuteTwo(A, inputs, eqs[0], eqs[1]);
    assert CEval(A, names, eqs[1].tree) == one;
    CEvalFrame(A, names, Assign(inputs, b, one), tree);
    assert names(a) == CEval(A, inputs, tree) && names(b) == one;
    TwoSolved(A, inputs, eqs, names);
  }

  lemma TwoSolved<N(!new)>(A: Arith<N>, inputs: CNames<N>, eqs: seq<Equation>, names: CNames<N>)
    requires |eqs| == 2 && names(eqs[1].name) == CEval(A, names, eqs[1].tree)
    requires forall s | s != eqs[0].name && s != eqs[1].name :: names(s) == inputs(s)
    ensures Solves(A, inputs, eqs, names) <==> names(eqs[0].name) == CEval(A, names, eqs[0].tree)
  {
    forall s | forall i | 0 <= i < |eqs| :: eqs[i].name != s ensures names(s) == inputs(s) {
      assert eqs[0].name != s && eqs[1].name != s;
    }
  }

  /** `a = a + literal`: one declaration that reads its own name from the inputs. */
  lemma SelfReadBlock<N(!new)>(A: Arith<N>, inputs: CNames<N>, eqs: seq<Equation>, a: string, m: real, x: N)
    requires eqs == [Equation(a, CBin(Add, CLeaf(Id(a)), CLeaf(Num(m))))] && inputs(a) == Some(VNum(x))
    ensures var y := A.literal(Finite(false, m));
            Solves(A, inputs, eqs, Execute(A, inputs, eqs))
            <==> A.arith(Add, A.arith(Add, x, y), y) == A.arith(Add, x, y)
  {
    var y, names := A.literal(Finite(false, m)), Execute(A, inputs, eqs);
    var once := A.arith(Add, x, y);
    assert eqs[..0] == [] && Execute(A, inputs, []) == inputs;
    assert names == Assign(inputs, a, CEval(A, inputs, eqs[0].tree));
    SumValue(A, inputs, CLeaf(Id(a)), CLeaf(Num(m)), x, y);
    assert names(a) == Some(VNum(once));
    SumValue(A, names, CLeaf(Id(a)), CLeaf(Num(m)), once, y);
    OneSolved(A, inputs, eqs, names);
  }

  lemma SumValue<N>(A: Arith<N>, names: CNames<N>, l: CExpr, r: CExpr, x: N, y: N)
    requires CEval(A, names, l) == Some(VNum(x)) && CEval(A, names, r) == Some(VNum(y))
    ensures CEval(A, names, CBin(Add, l, r)) == Some(VNum(A.arith(Add, x, y)))
  {
  }

  lemma OneSolved<N(!new)>(A: Arith<N>, inputs: CNames<N>, eqs: seq<Equation>, names: CNames<N>)
    requires |eqs| == 1 && forall s | s != eqs[0].name :: names(s) == inputs(s)
    ensures Solves(A, inputs, eqs, names) <==> names(eqs[0].name) == CEval(A, names, eqs[0].tree)
  {
    forall s | forall i | 0 <= i < |eqs| :: eqs[i].name != s ensures names(s) == inputs(s) {
      assert eqs[0].name != s;
    }
  }

  /** Two declarations run one after the other. */
  lemma ExecuteTwo<N>(A: Arith<N>, inputs: CNames<N>, x: Equation, y: Equation)
    ensures var first := Assign(inputs, x.name, CEval(A, inputs, x.tree));
            Execute(A, inputs, [x, y]) == Assign(first, y.name, CEval(A, first, y.tree))
  {
    assert [x, y][..1] == [x] && [x][..0] == [];
    assert Execute(A, inputs, []) == inputs;
    assert Execute(A, inputs, [x]) == Assign(inputs, x.name, CEval(A, inputs, x.tree));
  }

  /**
   The parameter prints as `b`, but the ordering does not see that `a` reads it: the search returns the
   listed order, and running the block misses the definition of `a` unless an input `b` happened to be 1.
   */
  lemma ParameterHidesDependency<N(!new)>(A: Arith<N>, inputs: CNames<N>, t: Target, defs: seq<Definition>,
                                          order: seq<nat>)
    requires t.leafAtOffset.None? && defs == ParameterDefs()
    requires Permutation(order, |defs|) && DefsOf(defs).Ordered(order) && DefsOf(defs).Prompt(order)
    ensures order == [0, 1]
    ensures forall i | 0 <= i < |defs| :: Plan(defs[i].expr, 0, t).Some?
    ensures var eqs := EquationsOf(defs, t);
            Solves(A, inputs, eqs, Execute(A, inputs, InOrder(eqs, order)))
            <==> inputs("b") == Some(VNum(A.literal(Finite(false, 1.0))))
  {
    ParameterEquations(t, defs);
    ListingKept(DefsOf(defs), order);
    assert order == [0, 1];
    var eqs := EquationsOf(defs, t);
    assert InOrder(eqs, order) == eqs;
    MisreadBlock(A, inputs, eqs, "a", CLeaf(Id("b")), "b", 1.0);
  }

  /** `a = a + 1` */
  function SelfDefs(): seq<Definition> {
    [Definition("a", Binary(Plus, Identifier("a"), Number(Finite(false, 1.0))))]
  }

  lemma SelfEquations(t: Target, defs: seq<Definition>)
    requires t.leafAtOffset.None? && defs == SelfDefs()
    ensures forall i | 0 <= i < |defs| :: Plan(defs[i].expr, 0, t).Some?
    ensures EquationsOf(defs, t) == [Equation("a", CBin(Add, CLeaf(Id("a")), CLeaf(Num(1.0))))]
    ensures forall i, j :: !DefsOf(defs).Needs(i, j)
  {
    var l, r := Identifier("a"), Number(Finite(false, 1.0));
    assert Plan(l, 0, t) == Some(Leaf(Id("a"))) && Plan(r, 0, t) == Some(Leaf(Num(1.0)));
    assert Plan(defs[0].expr, 0, t) == Some(Paren(Bin(Add, Leaf(Id("a")), Leaf(Num(1.0)))));
  }

  /**
   A self reference passes the ordering; the block solves its equation only where adding one twice is
   adding it once.
   */
  lemma SelfReferenceAccepted<N(!new)>(A: Arith<N>, inputs: CNames<N>, t: Target, defs: seq<Definition>, x: N)
    requires t.leafAtOffset.None? && defs == SelfDefs() && inputs("a") == Some(VNum(x))
    ensures DefsOf(defs).Acyclic() && forall i | 0 <= i < |defs| :: Plan(defs[i].expr, 0, t).Some?
    ensures var eqs, one := EquationsOf(defs, t), A.literal(Finite(false, 1.0));
            Solves(A, inputs, eqs, Execute(A, inputs, InOrder(eqs, [0])))
            <==> A.arith(Add, A.arith(Add, x, one), one) == A.arith(Add, x, one)
  {
    SelfEquations(t, defs);
    OrderedMeansAcyclic(DefsOf(defs), [0]);
    var eqs := EquationsOf(defs, t);
    assert InOrder(eqs, [0]) == eqs;
    SelfReadBlock(A, inputs, eqs, "a", 1.0, x);
  }

  /** `x`, `xx`, `xxx`, ... */
  function Nth(i: nat): (s: string)
    ensures |s| == i + 1 && s[0] == 'x'
  {
    seq(i + 1, _ => 'x')
  }

  function FirstNames(n: nat): (names: seq<string>)
    ensures |names| == n && forall i | 0 <= i < n :: names[i] == Nth(i)
  {
    seq(n, i requires 0 <= i < n => Nth(i))
  }

  /** The sum of the first `n + 1` of them. */
  function SumOf(n: nat): Expr {
    if n == 0 then Identifier(Nth(0)) else Binary(Plus, SumOf(n - 1), Identifier(Nth(n)))
  }

  function SumTree(n: nat): CExpr {
    if n == 0 then CLeaf(Id(Nth(0))) else CBin(Add, SumTree(n - 1), CLeaf(Id(Nth(n))))
  }

  lemma {:induction false} SumCollects(n: nat)
    ensures Collect(SumOf(n), []) == FirstNames(n + 1)
  {
    if n > 0 {
      SumCollects(n - 1);
      assert Nth(n) !in FirstNames(n);
      assert FirstNames(n + 1) == FirstNames(n) + [Nth(n)];
    } else {
      assert FirstNames(1) == [] + [Nth(0)];
    }
  }

  /** The emission of a sum. */
  lemma PlusPlans(l: Expr, r: Expr, t: Target)
    requires Plan(l, 0, t).Some? && Plan(r, 0, t).Some?
    ensures Plan(Binary(Plus, l, r), 0, t).Some?
    ensures Tree(Plan(Binary(Plus, l, r), 0, t).value)
         == CBin(Add, Tree(Plan(l, 0, t).value), Tree(Plan(r, 0, t).value))
  {
    assert Plan(Binary(Plus, l, r), 0, t) == Some(Paren(Bin(Add, Plan(l, 0, t).value, Plan(r, 0, t).value)));
  }

  lemma {:induction false} SumPlans(n: nat, t: Target)
    requires t.leafAtOffset.None?
    ensures Plan(SumOf(n), 0, t).Some? && Tree(Plan(SumOf(n), 0, t).value) == SumTree(n)
  {
    assert Plan(Identifier(Nth(n)), 0, t) == Some(Leaf(Id(Nth(n))));
    if n > 0 {
      SumPlans(n - 1, t);
      PlusPlans(SumOf(n - 1), Identifier(Nth(n)), t);
    }
  }

  lemma {:induction false} SumReads(n: nat)
    ensures forall s | s in FreeNames(SumTree(n)) :: s != "" && s[0] == 'x'
  {
    if n > 0 {
      SumReads(n - 1);
      assert FreeNames(SumTree(n)) == FreeNames(SumTree(n - 1)) + {Nth(n)};
    } else {
      assert FreeNames(SumTree(n)) == {Nth(0)};
    }
  }

  /** `a = x + xx + ... + b; b = 1`, with `b` after `n + 1` other references of `a`. */
  function ManyDefs(n: nat): seq<Definition> {
    [Definition("a", Binary(Plus, SumOf(n), Identifier("b"))), Definition("b", Number(Finite(false, 1.0)))]
  }

  lemma ManyNeedNothing(defs: seq<Definition>, n: nat)
    requires defs == ManyDefs(n) && n + 1 >= 64
    ensures forall i, j :: !DefsOf(defs).Needs(i, j)
  {
    var d, names := DefsOf(defs), FirstNames(n + 1);
    SumCollects(n);
    assert "b"[0] != 'x' && "b" !in names;
    assert Collect(defs[0].expr, []) == names + ["b"];
    assert d.refs[0] == names + ["b"] && d.refs[1] == [];
    assert d.Seen(0) == names[..MAX_REFS];
  }

  lemma ManyEquations(t: Target, defs: seq<Definition>, n: nat)
    requires t.leafAtOffset.None? && defs == ManyDefs(n)
    ensures forall i | 0 <= i < |defs| :: Plan(defs[i].expr, 0, t).Some?
    ensures EquationsOf(defs, t) == ManyTrees(SumTree(n))
  {
    SumPlans(n, t);
    assert Plan(Identifier("b"), 0, t) == Some(Leaf(Id("b"))) && Plan(defs[1].expr, 0, t) == Some(Leaf(Num(1.0)));
    PlusPlans(SumOf(n), Identifier("b"), t);
    var eqs := EquationsOf(defs, t);
    assert eqs[0] == ManyTrees(SumTree(n))[0] && eqs[1] == ManyTrees(SumTree(n))[1];
  }

  function ManyTrees(sum: CExpr): seq<Equation> {
    [Equation("a", CBin(Add, sum, CLeaf(Id("b")))), Equation("b", CLeaf(Num(1.0)))]
  }

  /** `a = sum + b; b = 1` in that order. */
  lemma ManyBlock<N(!new)>(A: Arith<N>, inputs: CNames<N>, tree: CExpr, sum: N, x: N)
    requires "a" !in FreeNames(tree) && "b" !in FreeNames(tree)
    requires CEval(A, inputs, tree) == Some(VNum(sum)) && inputs("b") == Some(VNum(x))
    ensures Solves(A, inputs, ManyTrees(tree), Execute(A, inputs, ManyTrees(tree)))
            <==> A.arith(Add, sum, A.literal(Finite(false, 1.0))) == A.arith(Add, sum, x)
  {
    var one := A.literal(Finite(false, 1.0));
    var later := Assign(inputs, "b", Some(VNum(one)));
    CEvalFrame(A, inputs, later, tree);
    SumValue(A, inputs, tree, CLeaf(Id("b")), sum, x);
    SumValue(A, later, tree, CLeaf(Id("b")), sum, one);
    MisreadBlock(A, inputs, ManyTrees(tree), "a", CBin(Add, tree, CLeaf(Id("b"))), "b", 1.0);
  }

  /**
   References after the first 64 are not looked at: the search returns the listed order, and running the
   block misses the definition of `a` unless adding the input `b` happened to be adding 1.
   */
  lemma LateReferenceIgnored<N(!new)>(A: Arith<N>, inputs: CNames<N>, t: Target, defs: seq<Definition>, n: nat,
                                      order: seq<nat>, sum: N, x: N)
    requires t.leafAtOffset.None? && defs == ManyDefs(n) && n + 1 >= 64 && Searched(DefsOf(defs), order)
    requires CEval(A, inputs, SumTree(n)) == Some(VNum(sum)) && inputs("b") == Some(VNum(x))
    ensures order == [0, 1] && forall i | 0 <= i < |defs| :: Plan(defs[i].expr, 0, t).Some?
    ensures var eqs := EquationsOf(defs, t);
            Solves(A, inputs, eqs, Execute(A, inputs, InOrder(eqs, order)))
            <==> A.arith(Add, sum, A.literal(Finite(false, 1.0))) == A.arith(Add, sum, x)
  {
    ManyNeedNothing(defs, n);
    ManyEquations(t, defs, n);
    ListingKept(DefsOf(defs), order);
    var eqs := EquationsOf(defs, t);
    assert order == [0, 1] && InOrder(eqs, order) == eqs;
    SumReads(n);
    ManyBlock(A, inputs, SumTree(n), sum, x);
  }
}
