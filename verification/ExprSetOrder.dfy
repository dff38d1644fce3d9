/**
 The ordering phase of `cxpr_exprset_to_c` (src/codegen.c): an iterative depth-first search over
 the references between named definitions, with `emitted`, `temp`, `order` and `stack` arrays.
 */
module ExprSetOrder {
  import opened Common

  const MAX_REFS: nat := 64
  const MAX_EXPRS: nat := 256

  /** A set of definitions: their names and, for each, the names its expression refers to. */
  datatype Defs = Defs(names: seq<string>, refs: seq<seq<string>>) {
    ghost predicate Valid() {
      |names| == |refs|
    }

    /** The references the search looks at: no more than the first 64. */
    function Seen(i: nat): seq<string>
      requires Valid() && i < |refs|
    {
      if |refs[i]| > MAX_REFS then refs[i][..MAX_REFS] else refs[i]
    }

    /** Definition `i` needs definition `j`; a reference to itself does not count. */
    ghost predicate Needs(i: nat, j: nat)
      requires Valid()
    {
      i < |names| && j < |names| && i != j && names[j] in Seen(i)
    }

    ghost predicate IsPath(path: seq<nat>)
      requires Valid()
    {
      forall t | 0 < t < |path| :: Needs(path[t - 1], path[t])
    }

    /** A dependency cycle of two or more definitions. */
    ghost predicate IsCycle(c: seq<nat>)
      requires Valid()
    {
      |c| >= 2 && IsPath(c) && Needs(c[|c| - 1], c[0])
    }

    ghost predicate Acyclic()
      requires Valid()
    {
      forall c: seq<nat> :: !IsCycle(c)
    }

    /** Definition `i` is `j`, or needs it through some chain of definitions. */
    ghost predicate Leads(i: nat, j: nat)
      requires Valid()
    {
      exists path: seq<nat> :: path != [] && IsPath(path) && path[0] == i && path[|path| - 1] == j
    }

    /** The same through a chain of at least one step. */
    ghost predicate NeedsDeep(i: nat, j: nat)
      requires Valid()
    {
      exists k: nat :: Needs(i, k) && Leads(k, j)
    }

    /** A definition stands before another only if it, or something that leads to it, is listed no later. */
    ghost predicate Prompt(order: seq<nat>)
      requires Valid()
    {
      forall p, q | 0 <= p < q < |order| :: ListedBy(order[p], order[q])
    }

    /** A definition listed at `start` or before leads to `j`. */
    ghost predicate ListedBy(j: nat, start: nat)
      requires Valid()
    {
      exists i: nat :: i <= start && Leads(i, j)
    }

    /** Everything a definition needs stands before it. */
    ghost predicate Ordered(order: seq<nat>)
      requires Valid()
    {
      forall k, j | 0 <= k < |order| && Needs(order[k], j) :: j in order[..k]
    }
  }

  /** Each of `0..n` exactly once. */
  ghost predicate Permutation(s: seq<nat>, n: nat) {
    && |s| == n && Distinct(s)
    && (forall k | 0 <= k < |s| :: s[k] < n)
    && (forall j: nat | j < n :: j in s)
  }

  datatype Outcome = Order(order: seq<nat>) | Cycle | TooMany

  /**
   What the search keeps: `done` is a dependency-closed order, `stack` a dependency path of
   distinct unemitted definitions, and every definition is in `done`, on `stack` or in `white`.
   */
  ghost predicate Searching(d: Defs, emitted: seq<bool>, temp: seq<bool>,
                            done: seq<nat>, stack: seq<nat>, white: set<nat>)
    requires d.Valid()
  {
    var n := |d.names|;
    && |emitted| == n && |temp| == n
    && Distinct(done) && Distinct(stack)
    && (forall k | 0 <= k < |done| :: done[k] < n) && (forall k | 0 <= k < |stack| :: stack[k] < n)
    && (forall j: nat | j < n :: emitted[j] <==> j in done)
    && (forall j: nat | j < n :: temp[j] <==> j in stack)
    && (forall j: nat | j < n :: !(emitted[j] && temp[j]))
    && (forall j: nat :: j in white <==> j < n && !emitted[j] && !temp[j])
    && |white| + |stack| + |done| == n
    && d.IsPath(stack) && d.Ordered(done)
  }

  /** Push a definition that is neither emitted nor on the stack. */
  lemma Push(d: Defs, emitted: seq<bool>, temp: seq<bool>, done: seq<nat>, stack: seq<nat>,
             white: set<nat>, j: nat)
    requires d.Valid() && Searching(d, emitted, temp, done, stack, white)
    requires j < |d.names| && !emitted[j] && !temp[j]
    requires stack == [] || d.Needs(stack[|stack| - 1], j)
    ensures Searching(d, emitted, temp[j := true], done, stack + [j], white - {j})
    ensures |white - {j}| == |white| - 1
  {
    var stack' := stack + [j];
    forall i: nat | i < |d.names| ensures temp[j := true][i] <==> i in stack' {
      assert stack'[|stack|] == j;
      assert forall k | 0 <= k < |stack| :: stack'[k] == stack[k];
    }
  }

  /** Pop and emit the top of the stack once all it needs has been emitted. */
  lemma Emit(d: Defs, emitted: seq<bool>, temp: seq<bool>, done: seq<nat>, stack: seq<nat>, white: set<nat>)
    requires d.Valid() && Searching(d, emitted, temp, done, stack, white) && stack != []
    requires AllMet(d, stack[|stack| - 1], emitted)
    ensures var i := stack[|stack| - 1];
            Searching(d, emitted[i := true], temp[i := false], done + [i], stack[..|stack| - 1], white)
  {
    var i := stack[|stack| - 1];
    var done', stack' := done + [i], stack[..|stack| - 1];
    assert i in stack;
    OrderedSnoc(d, done, i);
    WithoutLast(stack);
    InSnoc(done, i);
    PathFront(d, stack);
  }

  lemma InSnoc(s: seq<nat>, i: nat)
    ensures forall j :: j in s + [i] <==> j in s || j == i
  {
  }

  lemma PathFront(d: Defs, stack: seq<nat>)
    requires d.Valid() && d.IsPath(stack) && stack != []
    ensures d.IsPath(stack[..|stack| - 1])
  {
  }

  lemma WithoutLast(stack: seq<nat>)
    requires Distinct(stack) && stack != []
    ensures var front, i := stack[..|stack| - 1], stack[|stack| - 1];
            Distinct(front) && forall j :: j in front <==> j in stack && j != i
  {
    var front, i := stack[..|stack| - 1], stack[|stack| - 1];
    assert stack == front + [i];
    assert i !in front by {
      forall k | 0 <= k < |front| ensures front[k] != i {
        assert front[k] == stack[k];
      }
    }
  }

  lemma OrderedSnoc(d: Defs, done: seq<nat>, i: nat)
    requires d.Valid() && d.Ordered(done) && forall j: nat | d.Needs(i, j) :: j in done
    ensures d.Ordered(done + [i])
  {
    var done' := done + [i];
    forall k, j | 0 <= k < |done'| && d.Needs(done'[k], j) ensures j in done'[..k] {
      assert k < |done| ==> done'[..k] == done[..k];
      assert k == |done| ==> done'[..k] == done;
    }
  }

  /** Where the search from `start` stands: all earlier definitions are done, and what is done was called for. */
  ghost predicate Explained(d: Defs, done: seq<nat>, start: nat)
    requires d.Valid()
  {
    && d.Prompt(done)
    && (forall j | j in done :: d.ListedBy(j, start))
    && (forall j: nat | j < start :: j in done)
  }

  lemma EmitExplained(d: Defs, done: seq<nat>, stack: seq<nat>, start: nat)
    requires d.Valid() && Explained(d, done, start) && d.IsPath(stack) && stack != [] && stack[0] == start
    requires stack[|stack| - 1] !in done
    ensures Explained(d, done + [stack[|stack| - 1]], start)
  {
    var x := stack[|stack| - 1];
    var done' := done + [x];
    assert d.Leads(start, x);
    assert d.ListedBy(x, start);
    forall p, q | 0 <= p < q < |done'| ensures d.ListedBy(done'[p], done'[q]) {
      if q == |done| {
        assert done'[p] in done;
        var i: nat :| i <= start && d.Leads(i, done'[p]);
        assert i <= x;
      }
    }
  }

  lemma NextStart(d: Defs, done: seq<nat>, start: nat)
    requires d.Valid() && Explained(d, done, start) && start in done
    ensures Explained(d, done, start + 1)
  {
    forall j | j in done ensures d.ListedBy(j, start + 1) {
      var i: nat :| i <= start && d.Leads(i, j);
      assert i <= start + 1;
    }
  }

  /** A definition needed by the top of the stack that is itself on the stack closes a cycle. */
  lemma StackCycle(d: Defs, stack: seq<nat>, j: nat)
    requires d.Valid() && d.IsPath(stack) && stack != [] && j in stack
    requires d.Needs(stack[|stack| - 1], j)
    ensures !d.Acyclic()
  {
    var t :| 0 <= t < |stack| && stack[t] == j;
    var c := stack[t..];
    assert d.IsPath(c) by {
      forall u | 0 < u < |c| ensures d.Needs(c[u - 1], c[u]) {
        assert c[u - 1] == stack[t + u - 1] && c[u] == stack[t + u];
      }
    }
    assert d.IsCycle(c);
  }

  /**
   Reference `k` of definition `i` names `pending`; no unemitted definition but `i` is named by an
   earlier reference, or by this one and listed earlier.
   */
  ghost predicate FirstPending(d: Defs, i: nat, emitted: seq<bool>, k: nat, pending: nat)
    requires d.Valid() && i < |d.names| == |emitted| && k < |d.Seen(i)|
  {
    && pending < |d.names| && d.names[pending] == d.Seen(i)[k]
    && (forall j: nat | j < |d.names| && j != i && d.names[j] in d.Seen(i)[..k] :: emitted[j])
    && (forall j: nat | j < pending && j != i && d.names[j] == d.Seen(i)[k] :: emitted[j])
  }

  ghost predicate IsFirstPending(d: Defs, i: nat, emitted: seq<bool>, pending: nat)
    requires d.Valid() && i < |d.names| == |emitted|
  {
    exists k | 0 <= k < |d.Seen(i)| :: FirstPending(d, i, emitted, k, pending)
  }

  /** All that `i` needs has been emitted. */
  ghost predicate AllMet(d: Defs, i: nat, emitted: seq<bool>)
    requires d.Valid() && |emitted| == |d.names|
  {
    forall j: nat | d.Needs(i, j) :: emitted[j]
  }

  /** The scan for the first unemitted definition that the references of `i` name. */
  method FindPending(d: Defs, i: nat, emitted: array<bool>) returns (found: bool, pending: nat)
    requires d.Valid() && i < |d.names| == emitted.Length
    ensures found ==> d.Needs(i, pending) && !emitted[pending] && IsFirstPending(d, i, emitted[..], pending)
    ensures !found ==> AllMet(d, i, emitted[..])
  {
    var refs := d.Seen(i);
    for k := 0 to |refs|
      invariant forall j: nat | j < |d.names| && j != i && d.names[j] in refs[..k] :: emitted[j]
    {
      for j := 0 to |d.names|
        invariant forall j': nat | j' < j && j' != i && d.names[j'] == refs[k] :: emitted[j']
      {
        if j == i || emitted[j] || refs[k] != d.names[j] {
          continue;
        }
        assert FirstPending(d, i, emitted[..], k, j);
        return true, j;
      }
      assert refs[..k + 1] == refs[..k] + [refs[k]];
    }
    assert refs[..|refs|] == refs;
    return false, 0;
  }

  /** The state of the search from `start`: the stack begins with it until it is emitted. */
  ghost predicate Round(d: Defs, emitted: seq<bool>, temp: seq<bool>, done: seq<nat>, stack: seq<nat>,
                        white: set<nat>, start: nat)
    requires d.Valid()
  {
    && Searching(d, emitted, temp, done, stack, white) && Explained(d, done, start)
    && if stack != [] then stack[0] == start else start in done
  }

  lemma RoundPush(d: Defs, emitted: seq<bool>, temp: seq<bool>, done: seq<nat>, stack: seq<nat>, white: set<nat>,
                  start: nat, j: nat)
    requires d.Valid() && Round(d, emitted, temp, done, stack, white, start) && stack != []
    requires d.Needs(stack[|stack| - 1], j) && !emitted[j] && !temp[j]
    ensures Round(d, emitted, temp[j := true], done, stack + [j], white - {j}, start)
    ensures |white - {j}| == |white| - 1 && |stack| < |d.names|
  {
    Push(d, emitted, temp, done, stack, white, j);
  }

  lemma RoundEmit(d: Defs, emitted: seq<bool>, temp: seq<bool>, done: seq<nat>, stack: seq<nat>, white: set<nat>,
                  start: nat)
    requires d.Valid() && Round(d, emitted, temp, done, stack, white, start) && stack != []
    requires AllMet(d, stack[|stack| - 1], emitted)
    ensures var i := stack[|stack| - 1];
            && i < |d.names| && |done| < |d.names|
            && Round(d, emitted[i := true], temp[i := false], done + [i], stack[..|stack| - 1], white, start)
  {
    var i := stack[|stack| - 1];
    assert i in stack;
    Emit(d, emitted, temp, done, stack, white);
    EmitExplained(d, done, stack, start);
    assert i in done + [i];
  }

  lemma RoundCycle(d: Defs, emitted: seq<bool>, temp: seq<bool>, done: seq<nat>, stack: seq<nat>, white: set<nat>,
                   start: nat, j: nat)
    requires d.Valid() && Round(d, emitted, temp, done, stack, white, start) && stack != []
    requires d.Needs(stack[|stack| - 1], j) && temp[j]
    ensures !d.Acyclic()
  {
    assert j in stack;
    StackCycle(d, stack, j);
  }

  /** Push `j`, which the top of the stack needs. */
  method PushPending(d: Defs, ghost emitted: seq<bool>, temp: array<bool>, ghost done: seq<nat>,
                     stack: array<nat>, sp: nat, ghost white: set<nat>, ghost start: nat, j: nat)
    requires d.Valid() && 0 < sp <= |d.names| <= stack.Length
    requires Round(d, emitted, temp[..], done, stack[..sp], white, start)
    requires d.Needs(stack[sp - 1], j) && !emitted[j] && !temp[j]
    modifies temp, stack
    ensures Round(d, emitted, temp[..], done, stack[..sp + 1], white - {j}, start)
    ensures |white - {j}| == |white| - 1 && sp < |d.names|
  {
    ghost var was, top := temp[..], stack[..sp];
    assert top[sp - 1] == stack[sp - 1];
    RoundPush(d, emitted, was, done, top, white, start, j);
    temp[j] := true;
    stack[sp] := j;
    assert temp[..] == was[j := true] && stack[..sp + 1] == top + [j];
  }

  /** Pop the top of the stack and emit it. */
  method EmitTop(d: Defs, emitted: array<bool>, temp: array<bool>, order: array<nat>, orderN: nat,
                 stack: array<nat>, sp: nat, ghost white: set<nat>, ghost start: nat)
    requires d.Valid() && emitted != temp && order != stack && orderN <= order.Length == |d.names|
    requires 0 < sp <= stack.Length
    requires Round(d, emitted[..], temp[..], order[..orderN], stack[..sp], white, start)
    requires AllMet(d, stack[sp - 1], emitted[..])
    modifies emitted, temp, order
    ensures orderN < order.Length
    ensures Round(d, emitted[..], temp[..], order[..orderN + 1], stack[..sp - 1], white, start)
  {
    ghost var wasE, wasT, done, top := emitted[..], temp[..], order[..orderN], stack[..sp];
    var i := stack[sp - 1];
    assert top[sp - 1] == i && top[..sp - 1] == stack[..sp - 1];
    RoundEmit(d, wasE, wasT, done, top, white, start);
    emitted[i] := true;
    temp[i] := false;
    order[orderN] := i;
    assert emitted[..] == wasE[i := true] && temp[..] == wasT[i := false] && order[..orderN + 1] == done + [i];
  }

  /** One round of the inner loop: push what the top of the stack still needs, or emit the top. */
  method Step(d: Defs, emitted: array<bool>, temp: array<bool>, order: array<nat>, orderN: nat,
              stack: array<nat>, sp: nat, ghost white: set<nat>, ghost start: nat)
    returns (ok: bool, orderN': nat, sp': nat, ghost white': set<nat>)
    requires d.Valid() && |d.names| <= MAX_EXPRS == stack.Length
    requires emitted != temp && order != stack && orderN <= order.Length == |d.names|
    requires 0 < sp <= |d.names|
    requires Round(d, emitted[..], temp[..], order[..orderN], stack[..sp], white, start)
    modifies emitted, temp, order, stack
    ensures !ok ==> !d.Acyclic()
    ensures ok ==> orderN' <= order.Length && sp' <= |d.names|
                   && Round(d, emitted[..], temp[..], order[..orderN'], stack[..sp'], white', start)
                   && 2 * |white'| + sp' < 2 * |white| + sp
  {
    ok, orderN', sp', white' := true, orderN, sp, white;
    assert stack[..sp][sp - 1] == stack[sp - 1];
    var found, j := FindPending(d, stack[sp - 1], emitted);
    if !found {
      EmitTop(d, emitted, temp, order, orderN, stack, sp, white, start);
      orderN', sp' := orderN + 1, sp - 1;
    } else if temp[j] {
      RoundCycle(d, emitted[..], temp[..], order[..orderN], stack[..sp], white, start, j);
      ok := false;
    } else {
      PushPending(d, emitted[..], temp, order[..orderN], stack, sp, white, start, j);
      sp', white' := sp + 1, white - {j};
    }
  }

  /** Put `start` on the empty stack. */
  method StartStack(d: Defs, ghost emitted: seq<bool>, temp: array<bool>, ghost done: seq<nat>, stack: array<nat>,
                    ghost white: set<nat>, start: nat)
    requires d.Valid() && stack.Length > 0 && Searching(d, emitted, temp[..], done, [], white)
    requires start < |d.names| && !emitted[start] && Explained(d, done, start)
    modifies temp, stack
    ensures Round(d, emitted, temp[..], done, stack[..1], white - {start}, start)
  {
    ghost var was := temp[..];
    Push(d, emitted, was, done, [], white, start);
    temp[start] := true;
    stack[0] := start;
    assert temp[..] == was[start := true] && stack[..1] == [] + [start];
  }

  /** The inner loop: search from `start` until the stack is empty or a cycle shows up. */
  method Visit(d: Defs, emitted: array<bool>, temp: array<bool>, order: array<nat>, orderN: nat,
               stack: array<nat>, start: nat, ghost white: set<nat>)
    returns (ok: bool, orderN': nat, ghost white': set<nat>)
    requires d.Valid() && |d.names| <= MAX_EXPRS == stack.Length
    requires emitted != temp && order != stack && orderN <= order.Length == |d.names|
    requires Searching(d, emitted[..], temp[..], order[..orderN], [], white)
    requires start < |d.names| && !emitted[start] && Explained(d, order[..orderN], start)
    modifies emitted, temp, order, stack
    ensures !ok ==> !d.Acyclic()
    ensures ok ==> orderN' <= order.Length
                   && Round(d, emitted[..], temp[..], order[..orderN'], [], white', start)
  {
    var sp: nat := 1;
    ok, orderN', white' := true, orderN, white - {start};
    StartStack(d, emitted[..], temp, order[..orderN], stack, white, start);
    while sp > 0
      invariant sp <= |d.names| && orderN' <= order.Length
      invariant Round(d, emitted[..], temp[..], order[..orderN'], stack[..sp], white', start)
      decreases 2 * |white'| + sp
    {
      ok, orderN', sp, white' := Step(d, emitted, temp, order, orderN', stack, sp, white', start);
      if !ok {
        return;
      }
    }
    assert stack[..sp] == [];
  }

  /**
   The ordering loop.  It succeeds exactly when there is no cycle of two or more definitions,
   and then yields every definition once, each after all the definitions it needs.
   */
  method OrderDefinitions(d: Defs) returns (r: Outcome)
    requires d.Valid()
    ensures r.TooMany? <==> |d.names| > 256
    ensures r.Order? ==> Permutation(r.order, |d.names|) && d.Ordered(r.order) && d.Prompt(r.order)
    ensures !r.TooMany? ==> (r.Order? <==> d.Acyclic())
  {
    var count := |d.names|;
    var emitted := new bool[count](_ => false);
    var temp := new bool[count](_ => false);
    var order := new nat[count];
    if count > MAX_EXPRS {
      return TooMany;
    }
    var stack := new nat[MAX_EXPRS];
    Unvisited(d, emitted[..], temp[..]);
    var ok := VisitAll(d, emitted, temp, order, stack);
    if !ok {
      return Cycle;
    }
    OrderedMeansAcyclic(d, order[..]);
    r := Order(order[..]);
  }

  /** The outer loop: search from every definition that is not emitted yet. */
  method VisitAll(d: Defs, emitted: array<bool>, temp: array<bool>, order: array<nat>, stack: array<nat>)
    returns (ok: bool)
    requires d.Valid() && |d.names| <= MAX_EXPRS == stack.Length
    requires emitted != temp && order != stack && order.Length == |d.names|
    requires Searching(d, emitted[..], temp[..], [], [], Range(|d.names|))
    modifies emitted, temp, order, stack
    ensures if ok then Permutation(order[..], |d.names|) && d.Ordered(order[..]) && d.Prompt(order[..])
            else !d.Acyclic()
  {
    ghost var white := Range(|d.names|);
    var orderN: nat := 0;
    ok := true;
    assert order[..orderN] == [];
    for start := 0 to |d.names|
      invariant orderN <= order.Length && emitted.Length == |d.names|
      invariant Searching(d, emitted[..], temp[..], order[..orderN], [], white)
      invariant Explained(d, order[..orderN], start)
    {
      if !emitted[start] {
        ok, orderN, white := Visit(d, emitted, temp, order, orderN, stack, start, white);
        if !ok {
          return;
        }
      }
      NextStart(d, order[..orderN], start);
    }
    AllEmitted(d, emitted[..], temp[..], order[..orderN], white);
    assert order[..orderN] == order[..];
  }

  lemma Unvisited(d: Defs, emitted: seq<bool>, temp: seq<bool>)
    requires d.Valid() && |emitted| == |temp| == |d.names|
    requires forall j | 0 <= j < |d.names| :: !emitted[j] && !temp[j]
    ensures Searching(d, emitted, temp, [], [], Range(|d.names|))
  {
  }

  lemma AllEmitted(d: Defs, emitted: seq<bool>, temp: seq<bool>, done: seq<nat>, white: set<nat>)
    requires d.Valid() && Searching(d, emitted, temp, done, [], white) && Explained(d, done, |d.names|)
    ensures Permutation(done, |d.names|) && d.Ordered(done)
  {
    assert white == {};
  }

  ghost function Range(n: nat): (r: set<nat>)
    ensures |r| == n && forall j: nat :: j in r <==> j < n
  {
    if n == 0 then {} else Range(n - 1) + {n - 1}
  }

  /** Where a definition stands in an order. */
  ghost function Position(order: seq<nat>, j: nat): (k: nat)
    requires j in order
    ensures k < |order| && order[k] == j
  {
    var k :| 0 <= k < |order| && order[k] == j; k
  }

  lemma PositionOf(order: seq<nat>, k: nat)
    requires Distinct(order) && k < |order|
    ensures Position(order, order[k]) == k
  {
  }

  lemma NeedsEarlier(d: Defs, order: seq<nat>, i: nat, j: nat)
    requires d.Valid() && Permutation(order, |d.names|) && d.Ordered(order) && d.Needs(i, j)
    ensures Position(order, j) < Position(order, i)
  {
    var k := Position(order, i);
    assert j in order[..k];
  }

  lemma {:induction false} PathDescends(d: Defs, order: seq<nat>, path: seq<nat>)
    requires d.Valid() && Permutation(order, |d.names|) && d.Ordered(order)
    requires path != [] && d.IsPath(path) && forall t | 0 <= t < |path| :: path[t] < |d.names|
    ensures Position(order, path[|path| - 1]) <= Position(order, path[0])
  {
    if |path| > 1 {
      var shorter := path[..|path| - 1];
      assert d.IsPath(shorter);
      PathDescends(d, order, shorter);
      NeedsEarlier(d, order, path[|path| - 2], path[|path| - 1]);
    }
  }

  /** A dependency order exists only for acyclic definitions. */
  lemma OrderedMeansAcyclic(d: Defs, order: seq<nat>)
    requires d.Valid() && Permutation(order, |d.names|) && d.Ordered(order)
    ensures d.Acyclic()
  {
    forall c: seq<nat> ensures !d.IsCycle(c) {
      if d.IsCycle(c) {
        forall t | 0 <= t < |c| ensures c[t] < |d.names| {
          assert t > 0 ==> d.Needs(c[t - 1], c[t]);
        }
        PathDescends(d, order, c);
        NeedsEarlier(d, order, c[|c| - 1], c[0]);
      }
    }
  }
}
