/** Which dependency orders a set of definitions has. */
module DependencyOrders {
  import opened Common
  import opened ExprSetOrder

  // ----- chains -----

  lemma LeadsSelf(d: Defs, i: nat)
    requires d.Valid()
    ensures d.Leads(i, i)
  {
    assert d.IsPath([i]);
  }

  lemma LeadsOneMore(d: Defs, i: nat, j: nat, k: nat)
    requires d.Valid() && d.Leads(i, j) && d.Needs(j, k)
    ensures d.Leads(i, k) && d.NeedsDeep(i, k)
  {
    var path: seq<nat> :| path != [] && d.IsPath(path) && path[0] == i && path[|path| - 1] == j;
    var longer := path + [k];
    assert d.IsPath(longer);
    var rest := longer[1..];
    assert d.Needs(longer[0], longer[1]);
    assert d.IsPath(rest) by {
      forall t | 0 < t < |rest| ensures d.Needs(rest[t - 1], rest[t]) {
        assert rest[t - 1] == longer[t] && rest[t] == longer[t + 1];
      }
    }
    assert d.Leads(longer[1], k);
  }

  /** A chain of at least one step is `NeedsDeep`. */
  lemma LeadsElsewhere(d: Defs, i: nat, j: nat)
    requires d.Valid() && d.Leads(i, j) && i != j
    ensures d.NeedsDeep(i, j)
  {
    var path: seq<nat> :| path != [] && d.IsPath(path) && path[0] == i && path[|path| - 1] == j;
    var n := |path| - 2;
    assert d.Needs(path[n], path[n + 1]);
    assert d.IsPath(path[..n + 1]);
    assert d.Leads(i, path[n]);
    LeadsOneMore(d, i, path[n], j);
  }

  lemma LeadsStays(d: Defs, i: nat, j: nat)
    requires d.Valid() && d.Leads(i, j) && i < |d.names|
    ensures j < |d.names|
  {
    var path: seq<nat> :| path != [] && d.IsPath(path) && path[0] == i && path[|path| - 1] == j;
    assert |path| > 1 ==> d.Needs(path[|path| - 2], path[|path| - 1]);
  }

  /** In a dependency order, everything a definition leads to stands no later. */
  lemma DeepIsEarlier(d: Defs, order: seq<nat>, i: nat, j: nat)
    requires d.Valid() && Permutation(order, |d.names|) && d.Ordered(order) && d.NeedsDeep(i, j)
    ensures i in order && j in order && Position(order, j) < Position(order, i)
  {
    var k: nat :| d.Needs(i, k) && d.Leads(k, j);
    var path: seq<nat> :| path != [] && d.IsPath(path) && path[0] == k && path[|path| - 1] == j;
    forall t | 0 <= t < |path| ensures path[t] < |d.names| {
      assert t > 0 ==> d.Needs(path[t - 1], path[t]);
    }
    PathDescends(d, order, path);
    NeedsEarlier(d, order, i, k);
  }

  // ----- extending a partial order -----

  /** A set of definitions that holds what its members need. */
  ghost predicate Closed(d: Defs, s: set<nat>)
    requires d.Valid()
  {
    forall i, j | i in s && d.Needs(i, j) :: j in s
  }

  /** A dependency order of some of the definitions of `s`. */
  ghost predicate Partial(d: Defs, done: seq<nat>, s: set<nat>)
    requires d.Valid()
  {
    Distinct(done) && d.Ordered(done) && forall j | j in done :: j in s
  }

  /** `i` is pending and all it needs is done. */
  ghost predicate Ready(d: Defs, done: seq<nat>, s: set<nat>, i: nat)
    requires d.Valid()
  {
    i in s && i !in done && forall j: nat | d.Needs(i, j) :: j in done
  }

  lemma {:induction false} PathSize(path: seq<nat>, s: set<nat>)
    requires Distinct(path) && forall j | j in path :: j in s
    ensures |path| <= |s|
  {
    if path != [] {
      var front, last := path[..|path| - 1], path[|path| - 1];
      assert last !in front;
      assert forall j | j in front :: j in path;
      PathSize(front, s - {last});
    }
  }

  /** Following pending needs from `path` ends at a ready definition, unless there is a cycle. */
  lemma {:induction false} FindReady(d: Defs, done: seq<nat>, s: set<nat>, path: seq<nat>) returns (i: nat)
    requires d.Valid() && d.Acyclic() && Closed(d, s)
    requires path != [] && d.IsPath(path) && Distinct(path) && forall j | j in path :: j in s && j !in done
    ensures Ready(d, done, s, i)
    decreases |s| - |path|
  {
    PathSize(path, s);
    var top := path[|path| - 1];
    assert top in path;
    if j: nat :| d.Needs(top, j) && j !in done {
      if j in path {
        StackCycle(d, path, j);
      }
      var longer := path + [j];
      assert d.IsPath(longer);
      PathSize(longer, s);
      i := FindReady(d, done, s, longer);
    } else {
      i := top;
    }
  }

  /** Every partial dependency order extends to all of a closed set. */
  lemma {:induction false} Extend(d: Defs, done: seq<nat>, s: set<nat>) returns (order: seq<nat>)
    requires d.Valid() && d.Acyclic() && Closed(d, s) && Partial(d, done, s)
    ensures Partial(d, order, s) && (forall j | j in s :: j in order)
    ensures |done| <= |order| && order[..|done|] == done
    decreases |s| - |done|
  {
    PathSize(done, s);
    if i :| i in s && i !in done {
      var ready := FindReady(d, done, s, [i]);
      OrderedSnoc(d, done, ready);
      var longer := done + [ready];
      PathSize(longer, s);
      order := Extend(d, longer, s);
      assert order[..|done|] == order[..|longer|][..|done|];
    } else {
      order := done;
      assert order[..|done|] == done;
    }
  }

  /** What `i` leads to, as a set. */
  ghost function Below(d: Defs, i: nat): (s: set<nat>)
    requires d.Valid() && i < |d.names|
    ensures forall j: nat :: j in s <==> d.Leads(i, j)
    ensures Closed(d, s)
  {
    var s := set j: nat | j < |d.names| && d.Leads(i, j);
    BelowClosed(d, i, s);
    s
  }

  lemma BelowClosed(d: Defs, i: nat, s: set<nat>)
    requires d.Valid() && i < |d.names| && s == set j: nat | j < |d.names| && d.Leads(i, j)
    ensures forall j: nat :: j in s <==> d.Leads(i, j)
    ensures Closed(d, s)
  {
    forall j: nat | d.Leads(i, j) ensures j in s {
      LeadsStays(d, i, j);
    }
    forall j, k | j in s && d.Needs(j, k) ensures k in s {
      LeadsOneMore(d, i, j, k);
    }
  }

  lemma FullOrder(d: Defs, order: seq<nat>)
    requires d.Valid() && Partial(d, order, Range(|d.names|)) && forall j | j in Range(|d.names|) :: j in order
    ensures Permutation(order, |d.names|)
  {
    var n := |d.names|;
    PathSize(order, Range(n));
    assert Range(n) <= Elements(order);
    CardinalityMonotone(Range(n), Elements(order));
    ElementsCounted(order);
    forall k | 0 <= k < |order| ensures order[k] < n {
      assert order[k] in order;
    }
  }

  ghost function Elements(s: seq<nat>): set<nat> {
    set j | j in s
  }

  lemma {:induction false} ElementsCounted(s: seq<nat>)
    ensures |Elements(s)| <= |s|
  {
    if s != [] {
      var front, last := s[..|s| - 1], s[|s| - 1];
      ElementsCounted(front);
      assert s == front + [last];
      assert Elements(s) == Elements(front) + {last};
    }
  }

  /** Acyclic definitions have a dependency order in which only what `i` leads to stands before `i`. */
  lemma ClosureFirst(d: Defs, i: nat) returns (order: seq<nat>)
    requires d.Valid() && d.Acyclic() && i < |d.names|
    ensures Permutation(order, |d.names|) && d.Ordered(order)
    ensures forall k | 0 <= k < Position(order, i) :: d.Leads(i, order[k])
  {
    LeadsSelf(d, i);
    var first := Extend(d, [], Below(d, i));
    var n := |d.names|;
    forall j | j in first ensures j in Range(n) {
      LeadsStays(d, i, j);
    }
    order := Extend(d, first, Range(n));
    FullOrder(d, order);
    var p :| 0 <= p < |first| && first[p] == i;
    assert order[..|first|][p] == i;
    forall k | 0 <= k < Position(order, i) ensures d.Leads(i, order[k]) {
      assert k < p;
      assert order[..|first|][k] == first[k];
    }
  }

  // ----- definitions listed in a dependency order -----

  /** The order in which definitions are listed. */
  function Listing(n: nat): (s: seq<nat>)
    ensures |s| == n && forall k | 0 <= k < n :: s[k] == k
  {
    seq(n, k requires 0 <= k < n => k)
  }

  /** If what a definition needs is listed before it, it leads to nothing listed later. */
  lemma {:induction false} LeadsDown(d: Defs, path: seq<nat>)
    requires d.Valid() && d.Ordered(Listing(|d.names|)) && path != [] && d.IsPath(path)
    ensures path[|path| - 1] <= path[0]
  {
    if |path| > 1 {
      var n, front := |path| - 1, path[..|path| - 1];
      assert d.IsPath(front);
      LeadsDown(d, front);
      assert d.Needs(path[n - 1], path[n]);
      assert path[n] in Listing(|d.names|)[..path[n - 1]];
    }
  }

  /** A listing that is a dependency order is what the search returns. */
  lemma ListingKept(d: Defs, order: seq<nat>)
    requires d.Valid() && Permutation(order, |d.names|) && d.Prompt(order)
    requires d.Ordered(Listing(|d.names|))
    ensures order == Listing(|d.names|)
  {
    forall p, q | 0 <= p < q < |order| ensures order[p] < order[q] {
      var i: nat :| i <= order[q] && d.Leads(i, order[p]);
      var path: seq<nat> :| path != [] && d.IsPath(path) && path[0] == i && path[|path| - 1] == order[p];
      LeadsDown(d, path);
    }
    forall k | 0 <= k < |order| ensures order[k] == k {
      AtLeast(order, k);
      AtMost(order, |d.names|, k);
    }
  }

  /** The listing meets the part of the promise that ties an order to the listing. */
  lemma ListingPrompt(d: Defs)
    requires d.Valid()
    ensures d.Prompt(Listing(|d.names|)) && Permutation(Listing(|d.names|), |d.names|)
  {
    var s := Listing(|d.names|);
    forall p, q | 0 <= p < q < |s| ensures d.ListedBy(s[p], s[q]) {
      LeadsSelf(d, s[p]);
    }
    forall j: nat | j < |s| ensures j in s {
      assert s[j] == j;
    }
  }

  lemma {:induction false} AtLeast(order: seq<nat>, k: nat)
    requires k < |order| && forall p, q | 0 <= p < q < |order| :: order[p] < order[q]
    ensures order[k] >= k
  {
    if k > 0 {
      AtLeast(order, k - 1);
    }
  }

  lemma {:induction false} AtMost(order: seq<nat>, n: nat, k: nat)
    requires k < |order| == n && (forall p | 0 <= p < n :: order[p] < n)
    requires forall p, q | 0 <= p < q < |order| :: order[p] < order[q]
    ensures order[k] <= k
    decreases n - k
  {
    if k + 1 < n {
      AtMost(order, n, k + 1);
    }
  }
}
