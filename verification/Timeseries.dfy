/** The evaluator's trend and repeat loops (src/timeseries.c), and what they decide. */
module Timeseries {
  import opened Common
  import opened CSyntax
  import opened Codegen
  import opened Meaning

  /** What one comparison of the trend loop decides; None stands for an evaluation error. */
  function CompareBars<N>(A: Arith<N>, op: BinOp, l: Option<Val<N>>, r: Option<Val<N>>): Option<bool> {
    if l.None? || r.None? || !l.value.VNum? || !r.value.VNum? then None else Some(A.cmp(op, l.value.n, r.value.n))
  }

  function TestBar<N>(v: Option<Val<N>>): Option<bool> {
    if v.None? || !v.value.VBool? then None else Some(v.value.b)
  }

  /** What each bar of a window contributes: whether it compares with the bar before it, or whether it is true. */
  function TrendBars<N>(A: Arith<N>, env: Leaves<N>, op: BinOp, value: Expr, k: nat): nat -> Option<bool> {
    (i: nat) => CompareBars(A, op, Eval(A, env, value, k + i), Eval(A, env, value, k + (i + 1)))
  }

  function RepeatBars<N>(A: Arith<N>, env: Leaves<N>, condition: Expr, k: nat): nat -> Option<bool> {
    (i: nat) => TestBar(Eval(A, env, condition, k + i))
  }

  /** The first of `n` bars that is not true decides; if there is none, the answer is true. */
  function AllUpto(bars: nat -> Option<bool>, n: nat): (r: Option<bool>)
    ensures r == Some(true) <==> forall i: nat | i < n :: bars(i) == Some(true)
  {
    if n == 0 then Some(true)
    else
      var before := AllUpto(bars, n - 1);
      if before != Some(true) then before else bars(n - 1)
  }

  lemma TrendNext<N>(A: Arith<N>, env: Leaves<N>, op: BinOp, value: Expr, k: nat, i: nat)
    ensures TrendUpto(A, env, op, value, k, i + 1)
         == if TrendUpto(A, env, op, value, k, i) != Some(true) then TrendUpto(A, env, op, value, k, i)
            else TrendBars(A, env, op, value, k)(i)
  {
    assert TrendBars(A, env, op, value, k)(i)
        == CompareBars(A, op, Eval(A, env, value, k + i), Eval(A, env, value, k + (i + 1)));
    assert k + (i + 1) - 1 == k + i;
  }

  lemma RepeatNext<N>(A: Arith<N>, env: Leaves<N>, condition: Expr, k: nat, i: nat)
    ensures RepeatUpto(A, env, condition, k, i + 1)
         == if RepeatUpto(A, env, condition, k, i) != Some(true) then RepeatUpto(A, env, condition, k, i)
            else RepeatBars(A, env, condition, k)(i)
  {
    assert RepeatBars(A, env, condition, k)(i) == TestBar(Eval(A, env, condition, k + i));
    assert k + (i + 1) - 1 == k + i;
  }

  lemma {:induction false} TrendIsAll<N>(A: Arith<N>, env: Leaves<N>, op: BinOp, value: Expr, k: nat, n: nat)
    ensures TrendUpto(A, env, op, value, k, n) == AllUpto(TrendBars(A, env, op, value, k), n)
  {
    if n > 0 {
      TrendIsAll(A, env, op, value, k, n - 1);
      TrendNext(A, env, op, value, k, n - 1);
    }
  }

  lemma {:induction false} RepeatIsAll<N>(A: Arith<N>, env: Leaves<N>, condition: Expr, k: nat, n: nat)
    ensures RepeatUpto(A, env, condition, k, n) == AllUpto(RepeatBars(A, env, condition, k), n)
  {
    if n > 0 {
      RepeatIsAll(A, env, condition, k, n - 1);
      RepeatNext(A, env, condition, k, n - 1);
    }
  }

  lemma {:induction false} AllStops(bars: nat -> Option<bool>, i: nat, n: nat)
    requires i <= n && AllUpto(bars, i) != Some(true)
    ensures AllUpto(bars, n) == AllUpto(bars, i)
  {
    if i < n {
      AllStops(bars, i, n - 1);
    }
  }

  /** The loop of `cxpr_timeseries_trend_eval` over `samples` bars. */
  method TrendEval<N>(A: Arith<N>, env: Leaves<N>, op: BinOp, value: Expr, k: nat,
                      samples: nat) returns (r: Option<bool>)
    requires samples >= 2
    ensures r == TrendUpto(A, env, op, value, k, samples - 1)
    ensures r == Some(true) <==> forall i: nat | i < samples - 1 :: TrendBars(A, env, op, value, k)(i) == Some(true)
  {
    var bars := TrendBars(A, env, op, value, k);
    TrendIsAll(A, env, op, value, k, samples - 1);
    for i := 0 to samples - 1
      invariant AllUpto(bars, i) == Some(true)
    {
      var step := bars(i);
      assert step == AllUpto(bars, i + 1);
      if step != Some(true) {
        AllStops(bars, i + 1, samples - 1);
        return step;
      }
    }
    r := Some(true);
  }

  /** The loop of `cxpr_timeseries_repeat`. */
  method RepeatEval<N>(A: Arith<N>, env: Leaves<N>, condition: Expr, k: nat, samples: nat) returns (r: Option<bool>)
    ensures r == RepeatUpto(A, env, condition, k, samples)
    ensures r == Some(true) <==> forall i: nat | i < samples :: RepeatBars(A, env, condition, k)(i) == Some(true)
  {
    var bars := RepeatBars(A, env, condition, k);
    RepeatIsAll(A, env, condition, k, samples);
    for i := 0 to samples
      invariant AllUpto(bars, i) == Some(true)
    {
      var bar := bars(i);
      assert bar == AllUpto(bars, i + 1);
      if bar != Some(true) {
        AllStops(bars, i + 1, samples);
        return bar;
      }
    }
    r := Some(true);
  }
}
