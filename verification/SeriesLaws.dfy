/** What the named series functions decide, over the real numbers. */
module SeriesLaws {
  import opened Common
  import opened CSyntax
  import opened Codegen
  import opened Meaning
  import opened SeriesOffsets
  import opened Timeseries

  /** `x` is a series of reals from offset `k` on. */
  ghost predicate Series(env: Leaves<RealOrNaN>, x: Expr, k: nat, f: nat -> real) {
    IsNamedLeaf(x) && forall i: nat :: env(x, k + i) == Some(VNum(Some(f(i))))
  }

  lemma SeriesAt(env: Leaves<RealOrNaN>, x: Expr, k: nat, f: nat -> real, i: nat)
    requires Series(env, x, k, f)
    ensures Eval(RealNumbers(), env, x, k + i) == Some(VNum(Some(f(i))))
  {
  }

  function CountLiteral(n: nat): Expr { Number(Finite(false, n as real)) }

  lemma CountRead(n: nat, least: nat)
    requires n >= least
    ensures Samples(CountLiteral(n), least) == Some(n)
  {
    assert (n as real + 0.5).Floor == n;
  }

  /** Every step of the last `n` bars goes up, or down, toward the current bar. */
  ghost predicate Climbs(f: nat -> real, n: nat) { forall i: nat | i + 1 < n :: f(i) > f(i + 1) }

  ghost predicate Falls(f: nat -> real, n: nat) { forall i: nat | i + 1 < n :: f(i) < f(i + 1) }

  /** Bar `i` goes the right way from the bar before it. */
  predicate Steps(f: nat -> real, up: bool, i: nat) { if up then f(i) > f(i + 1) else f(i) < f(i + 1) }

  lemma {:induction false} AllDecided(bars: nat -> Option<bool>, f: nat -> real, up: bool, n: nat)
    requires forall i: nat | i < n :: bars(i) == Some(Steps(f, up, i))
    ensures AllUpto(bars, n) == Some(forall i: nat | i < n :: Steps(f, up, i))
  {
    if n > 0 {
      AllDecided(bars, f, up, n - 1);
    }
  }

  lemma TrendDecides(env: Leaves<RealOrNaN>, up: bool, x: Expr, k: nat, f: nat -> real, n: nat)
    requires Series(env, x, k, f)
    ensures TrendUpto(RealNumbers(), env, if up then Gt else Lt, x, k, n)
         == Some(if up then Climbs(f, n + 1) else Falls(f, n + 1))
  {
    var A, op := RealNumbers(), if up then Gt else Lt;
    TrendIsAll(A, env, op, x, k, n);
    forall i: nat | i < n ensures TrendBars(A, env, op, x, k)(i) == Some(Steps(f, up, i)) {
      BarDecides(env, up, x, k, f, i);
    }
    AllDecided(TrendBars(A, env, op, x, k), f, up, n);
    StepsAre(f, n + 1);
  }

  lemma BarDecides(env: Leaves<RealOrNaN>, up: bool, x: Expr, k: nat, f: nat -> real, i: nat)
    requires Series(env, x, k, f)
    ensures TrendBars(RealNumbers(), env, if up then Gt else Lt, x, k)(i)
         == Some(Steps(f, up, i))
  {
    var A, op := RealNumbers(), if up then Gt else Lt;
    SeriesAt(env, x, k, f, i);
    SeriesAt(env, x, k, f, i + 1);
    assert TrendBars(A, env, op, x, k)(i) == CompareBars(A, op, Eval(A, env, x, k + i), Eval(A, env, x, k + (i + 1)));
    assert A.cmp(op, Some(f(i)), Some(f(i + 1))) == Compare(op, Some(f(i)), Some(f(i + 1)));
  }

  lemma StepsAre(f: nat -> real, n: nat)
    requires n > 0
    ensures Climbs(f, n) <==> forall i: nat | i < n - 1 :: Steps(f, true, i)
    ensures Falls(f, n) <==> forall i: nat | i < n - 1 :: Steps(f, false, i)
  {
    if forall i: nat | i < n - 1 :: Steps(f, true, i) {
      forall i: nat | i + 1 < n ensures f(i) > f(i + 1) {
        assert Steps(f, true, i);
      }
    }
    if forall i: nat | i < n - 1 :: Steps(f, false, i) {
      forall i: nat | i + 1 < n ensures f(i) < f(i + 1) {
        assert Steps(f, false, i);
      }
    }
  }

  /** `rising(x, n)` holds exactly if each of the last `n` bars exceeds the one before, `falling` if it is below. */
  lemma TrendsMean(env: Leaves<RealOrNaN>, x: Expr, k: nat, f: nat -> real, n: nat)
    requires Series(env, x, k, f) && n >= 2
    ensures Eval(RealNumbers(), env, Expr.Call("rising", [x, CountLiteral(n)], []), k) == Some(VBool(Climbs(f, n)))
    ensures Eval(RealNumbers(), env, Expr.Call("falling", [x, CountLiteral(n)], []), k) == Some(VBool(Falls(f, n)))
  {
    CountRead(n, 2);
    TrendDecides(env, true, x, k, f, n - 1);
    TrendDecides(env, false, x, k, f, n - 1);
  }

  /** A cross needs the order to have turned between the bar before and the current one. */
  lemma CrossesMean(env: Leaves<RealOrNaN>, x: Expr, y: Expr, k: nat, f: nat -> real, g: nat -> real)
    requires Series(env, x, k, f) && Series(env, y, k, g)
    ensures Eval(RealNumbers(), env, Expr.Call("cross_above", [x, y], []), k)
         == Some(VBool(f(1) <= g(1) && f(0) > g(0)))
    ensures Eval(RealNumbers(), env, Expr.Call("cross_below", [x, y], []), k)
         == Some(VBool(f(1) >= g(1) && f(0) < g(0)))
  {
    var now, before := [VNum(Some(f(0))), VNum(Some(g(0)))], [VNum(Some(f(1))), VNum(Some(g(1)))];
    assert env(x, k + 0) == Some(now[0]) && env(y, k + 0) == Some(now[1]);
    TwoValues(RealNumbers(), env, x, y, k, now);
    TwoValues(RealNumbers(), env, x, y, k + 1, before);
  }

  // ----- min and max -----

  function Reals(xs: seq<real>): (vs: seq<Val<RealOrNaN>>)
    ensures |vs| == |xs| && AllNumbers(vs) && forall i | 0 <= i < |xs| :: vs[i] == VNum(Some(xs[i]))
  {
    seq(|xs|, i requires 0 <= i < |xs| => VNum(Some(xs[i])))
  }

  lemma {:induction false} ExtremeOfReals(least: bool, xs: seq<real>) returns (e: real)
    requires xs != []
    ensures Extreme(RealNumbers(), if least then Lt else Gt, Reals(xs)) == Some(e)
    ensures e in xs && forall x | x in xs :: if least then e <= x else x <= e
  {
    var n := |xs| - 1;
    e := xs[n];
    if n > 0 {
      var front := xs[..n];
      assert Reals(xs)[..n] == Reals(front);
      var best := ExtremeOfReals(least, front);
      if if least then e < best else e > best {
      } else {
        e := best;
      }
      assert xs == front + [xs[n]];
    }
  }

  /** `min` of up to eight reals is the least of them, and `max` the greatest. */
  lemma ExtremesMean(xs: seq<real>) returns (low: real, high: real)
    requires 0 < |xs| <= 8
    ensures PlainValue(RealNumbers(), "min", Reals(xs)) == Some(VNum(Some(low)))
    ensures PlainValue(RealNumbers(), "max", Reals(xs)) == Some(VNum(Some(high)))
    ensures low in xs && high in xs && forall x | x in xs :: low <= x <= high
  {
    low := ExtremeOfReals(true, xs);
    high := ExtremeOfReals(false, xs);
  }

  /** `within` without flags includes both bounds; a false flag excludes its own. */
  lemma WithinMeans(x: real, lo: real, hi: real, below: bool, above: bool)
    ensures PlainValue(RealNumbers(), "within", Reals([x, lo, hi])) == Some(VBool(lo <= x <= hi))
    ensures PlainValue(RealNumbers(), "within", Reals([x, lo, hi]) + [VBool(below), VBool(above)])
         == Some(VBool((if below then lo <= x else lo < x) && (if above then x <= hi else x < hi)))
  {
    var vs := Reals([x, lo, hi]) + [VBool(below), VBool(above)];
    assert vs[0] == VNum(Some(x)) && vs[1] == VNum(Some(lo)) && vs[2] == VNum(Some(hi));
    assert vs[3] == VBool(below) && vs[4] == VBool(above);
  }
}
