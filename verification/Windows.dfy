/** The window functions of src/timeseries.c over a sampled series; numbers are reals. */
module Windows {
  import opened Common

  /** What reading one bar gives: an evaluation error, NaN, or a number. */
  datatype Reading = Unreadable | Missing | Known(x: real)

  datatype Mode = Sum | Mean | Highest | Lowest | Deviation

  ghost predicate Readable(s: seq<Reading>) {
    forall i | 0 <= i < |s| :: !s[i].Unreadable?
  }

  /** The numbers among the samples, newest first. */
  function Numbers(s: seq<Reading>): (xs: seq<real>)
    ensures |xs| <= |s|
  {
    if s == [] then []
    else
      var front, last := Numbers(s[..|s| - 1]), s[|s| - 1];
      if last.Known? then front + [last.x] else front
  }

  lemma NumbersGrow(s: seq<Reading>, n: nat)
    requires n < |s|
    ensures Numbers(s[..n + 1]) == if s[n].Known? then Numbers(s[..n]) + [s[n].x] else Numbers(s[..n])
  {
    assert s[..n + 1][..n] == s[..n];
  }

  // ----- sums -----

  function Total(xs: seq<real>): real {
    if xs == [] then 0.0 else Total(xs[..|xs| - 1]) + xs[|xs| - 1]
  }

  function TotalSquares(xs: seq<real>): real {
    if xs == [] then 0.0 else TotalSquares(xs[..|xs| - 1]) + xs[|xs| - 1] * xs[|xs| - 1]
  }

  /** The sum of squared distances from `c`. */
  function TotalDeviation(xs: seq<real>, c: real): real {
    if xs == [] then 0.0
    else TotalDeviation(xs[..|xs| - 1], c) + (xs[|xs| - 1] - c) * (xs[|xs| - 1] - c)
  }

  lemma TotalsGrow(xs: seq<real>, x: real)
    ensures Total(xs + [x]) == Total(xs) + x
    ensures TotalSquares(xs + [x]) == TotalSquares(xs) + x * x
  {
    assert (xs + [x])[..|xs|] == xs;
  }

  function Average(xs: seq<real>): real
    requires xs != []
  {
    Total(xs) / |xs| as real
  }

  /** The two-pass variance: the mean squared distance from the mean. */
  function Variance(xs: seq<real>): real
    requires xs != []
  {
    TotalDeviation(xs, Average(xs)) / |xs| as real
  }

  function Expanded(n: real, c: real, squares: real, total: real): real {
    squares - 2.0 * c * total + n * (c * c)
  }

  lemma SquareOfDifference(x: real, c: real)
    ensures (x - c) * (x - c) == x * x - 2.0 * c * x + c * c
  {
  }

  lemma ExpandedGrows(n: real, c: real, squares: real, total: real, x: real)
    ensures Expanded(n + 1.0, c, squares + x * x, total + x) == Expanded(n, c, squares, total) + (x - c) * (x - c)
  {
    SquareOfDifference(x, c);
    assert 2.0 * c * (total + x) == 2.0 * c * total + 2.0 * c * x;
    assert (n + 1.0) * (c * c) == n * (c * c) + c * c;
  }

  lemma {:induction false} DeviationExpands(xs: seq<real>, c: real)
    ensures TotalDeviation(xs, c) == Expanded(|xs| as real, c, TotalSquares(xs), Total(xs))
  {
    if xs == [] {
      assert Expanded(0.0, c, 0.0, 0.0) == 0.0;
    } else {
      var front, x := xs[..|xs| - 1], xs[|xs| - 1];
      DeviationExpands(front, c);
      ExpandedGrows(|front| as real, c, TotalSquares(front), Total(front), x);
      assert |xs| as real == |front| as real + 1.0;
    }
  }

  lemma {:induction false} DeviationNonNegative(xs: seq<real>, c: real)
    ensures TotalDeviation(xs, c) >= 0.0
  {
    if xs != [] {
      DeviationNonNegative(xs[..|xs| - 1], c);
      var y := xs[|xs| - 1] - c;
      assert y * y >= 0.0;
    }
  }

  lemma ScaledBack(a: real, n: real)
    requires n > 0.0
    ensures n * a / n == a
  {
  }

  lemma QuotientOfDifference(a: real, b: real, n: real)
    requires n > 0.0
    ensures (a - b) / n == a / n - b / n
  {
  }

  lemma ExpandedAtMean(n: real, mean: real, squares: real, total: real)
    requires total == mean * n
    ensures Expanded(n, mean, squares, total) == squares - n * (mean * mean)
  {
    var p := n * (mean * mean);
    assert mean * total == p;
    assert 2.0 * mean * total == 2.0 * (mean * total);
  }

  lemma Cancel(n: real, mean: real, squares: real, total: real)
    requires n > 0.0 && mean == total / n
    ensures Expanded(n, mean, squares, total) / n == squares / n - mean * mean
  {
    assert total == mean * n;
    ExpandedAtMean(n, mean, squares, total);
    QuotientOfDifference(squares, n * (mean * mean), n);
    ScaledBack(mean * mean, n);
  }

  lemma QuotientSign(a: real, n: real)
    requires a >= 0.0 && n > 0.0
    ensures a / n >= 0.0
  {
  }

  /** The one-pass formula gives this variance, which is not negative. */
  ghost predicate OnePass(n: real, mean: real, squares: real, variance: real)
    requires n > 0.0
  {
    squares / n - mean * mean == variance >= 0.0
  }

  lemma FromExpansion(n: real, mean: real, squares: real, total: real, deviation: real, variance: real)
    requires n > 0.0 && mean == total / n && deviation == Expanded(n, mean, squares, total) && deviation >= 0.0
    requires variance == deviation / n
    ensures OnePass(n, mean, squares, variance)
  {
    Cancel(n, mean, squares, total);
    QuotientSign(deviation, n);
  }

  /** The one-pass formula is the variance, and the clamp at zero never acts. */
  lemma OnePassVariance(xs: seq<real>)
    requires xs != []
    ensures TotalSquares(xs) / |xs| as real - Average(xs) * Average(xs) == Variance(xs) >= 0.0
  {
    OnePassHolds(xs);
  }

  lemma OnePassHolds(xs: seq<real>)
    requires xs != []
    ensures OnePass(|xs| as real, Average(xs), TotalSquares(xs), Variance(xs))
  {
    var mean := Average(xs);
    DeviationExpands(xs, mean);
    DeviationNonNegative(xs, mean);
    FromExpansion(|xs| as real, mean, TotalSquares(xs), Total(xs), TotalDeviation(xs, mean), Variance(xs));
  }

  // ----- bounds -----

  ghost predicate Bounds(lo: real, hi: real, xs: seq<real>) {
    forall i | 0 <= i < |xs| :: lo <= xs[i] <= hi
  }

  lemma TimesNext(c: real, n: nat)
    ensures c * (n + 1) as real == c * n as real + c
  {
  }

  lemma {:induction false} TotalBetween(xs: seq<real>, lo: real, hi: real)
    requires Bounds(lo, hi, xs)
    ensures lo * |xs| as real <= Total(xs) <= hi * |xs| as real
  {
    if xs != [] {
      var front := xs[..|xs| - 1];
      TotalBetween(front, lo, hi);
      TimesNext(lo, |front|);
      TimesNext(hi, |front|);
    }
  }

  lemma QuotientBetween(a: real, n: real, lo: real, hi: real)
    requires n > 0.0 && lo * n <= a <= hi * n
    ensures lo <= a / n <= hi
  {
    var q := a / n;
    assert q * n == a;
    assert (q - lo) * n >= 0.0 && (hi - q) * n >= 0.0;
  }

  /** The mean lies between any bounds of the samples. */
  lemma MeanBetween(xs: seq<real>, lo: real, hi: real)
    requires xs != [] && Bounds(lo, hi, xs)
    ensures lo <= Average(xs) <= hi
  {
    TotalBetween(xs, lo, hi);
    QuotientBetween(Total(xs), |xs| as real, lo, hi);
  }

  // ----- cxpr_timeseries_window_agg_eval -----

  /** `x` beats `y` in the direction of a mode. */
  predicate Beats(highest: bool, x: real, y: real) { if highest then x > y else x < y }

  ghost predicate IsExtreme(highest: bool, xs: seq<real>, e: real) {
    e in xs && forall i | 0 <= i < |xs| :: if highest then xs[i] <= e else e <= xs[i]
  }

  /** What an aggregate of at least one number is. */
  ghost predicate Aggregates(root: real -> real, mode: Mode, xs: seq<real>, r: real)
    requires xs != []
  {
    match mode
    case Sum => r == Total(xs)
    case Mean => r == Average(xs)
    case Highest => IsExtreme(true, xs, r)
    case Lowest => IsExtreme(false, xs, r)
    case Deviation => r == root(Variance(xs))
  }

  ghost predicate Scanned(mode: Mode, xs: seq<real>, sum: real, squares: real, extreme: real, count: nat) {
    && sum == Total(xs) && squares == TotalSquares(xs) && count == |xs|
    && (xs != [] && (mode == Highest || mode == Lowest) ==> IsExtreme(mode == Highest, xs, extreme))
  }

  lemma ExtremeGrows(highest: bool, xs: seq<real>, e: real, x: real)
    requires xs == [] || IsExtreme(highest, xs, e)
    ensures IsExtreme(highest, xs + [x], if xs == [] || Beats(highest, x, e) then x else e)
  {
    var ys, e' := xs + [x], if xs == [] || Beats(highest, x, e) then x else e;
    assert ys[|xs|] == x;
    if e' != x {
      var i :| 0 <= i < |xs| && xs[i] == e;
      assert ys[i] == e;
    }
  }

  /** What is known after `i` samples. */
  ghost predicate Progress(s: seq<Reading>, i: nat, mode: Mode, sum: real, squares: real, extreme: real, count: nat) {
    i <= |s| && Readable(s[..i]) && Scanned(mode, Numbers(s[..i]), sum, squares, extreme, count)
  }

  lemma ReadableGrows(s: seq<Reading>, i: nat)
    requires i < |s| && Readable(s[..i]) && !s[i].Unreadable?
    ensures Readable(s[..i + 1])
  {
    assert s[..i + 1] == s[..i] + [s[i]];
  }

  /** One sample that is a number. */
  method ScanNumber(s: seq<Reading>, i: nat, mode: Mode, sum: real, squares: real, extreme: real, count: nat)
    returns (sum': real, squares': real, extreme': real)
    requires i < |s| && s[i].Known? && Progress(s, i, mode, sum, squares, extreme, count)
    ensures Progress(s, i + 1, mode, sum', squares', extreme', count + 1)
  {
    var value := s[i].x;
    ghost var xs := Numbers(s[..i]);
    ReadableGrows(s, i);
    NumbersGrow(s, i);
    TotalsGrow(xs, value);
    if mode == Highest || mode == Lowest {
      ExtremeGrows(mode == Highest, xs, extreme, value);
    }
    extreme' := extreme;
    if count == 0 || (mode == Highest && value > extreme) || (mode == Lowest && value < extreme) {
      extreme' := value;
    }
    sum' := sum + value;
    squares' := squares + value * value;
  }

  lemma SkipMissing(s: seq<Reading>, i: nat, mode: Mode, sum: real, squares: real, extreme: real, count: nat)
    requires i < |s| && s[i].Missing? && Progress(s, i, mode, sum, squares, extreme, count)
    ensures Progress(s, i + 1, mode, sum, squares, extreme, count)
  {
    ReadableGrows(s, i);
    NumbersGrow(s, i);
  }

  /** The loop over the samples. */
  method ScanWindow(s: seq<Reading>, mode: Mode) returns (ok: bool, sum: real, squares: real, extreme: real, count: nat)
    ensures ok <==> Readable(s)
    ensures ok ==> Scanned(mode, Numbers(s), sum, squares, extreme, count)
  {
    sum, squares, extreme, count := 0.0, 0.0, 0.0, 0;
    for i := 0 to |s|
      invariant Progress(s, i, mode, sum, squares, extreme, count)
    {
      if s[i].Unreadable? {
        ok := false;
        return;
      }
      if s[i].Known? {
        sum, squares, extreme := ScanNumber(s, i, mode, sum, squares, extreme, count);
        count := count + 1;
      } else {
        SkipMissing(s, i, mode, sum, squares, extreme, count);
      }
    }
    assert s[..|s|] == s;
    ok := true;
  }

  /** None stands for an evaluation error; `root` is the square root. */
  method WindowAggregate(root: real -> real, s: seq<Reading>, mode: Mode) returns (r: Option<real>)
    ensures r.Some? <==> Readable(s)
    ensures r.Some? ==> if Numbers(s) == [] then r.value == 0.0 else Aggregates(root, mode, Numbers(s), r.value)
  {
    var ok, sum, squares, extreme, count := ScanWindow(s, mode);
    if !ok {
      return None;
    }
    if count == 0 {
      return Some(0.0);
    }
    match mode {
      case Highest => r := Some(extreme);
      case Lowest => r := Some(extreme);
      case Mean => r := Some(sum / count as real);
      case Deviation =>
        var mean := sum / count as real;
        var variance := squares / count as real - mean * mean;
        OnePassVariance(Numbers(s));
        assert variance == Variance(Numbers(s)) && (if variance > 0.0 then variance else 0.0) == variance;
        r := Some(root(if variance > 0.0 then variance else 0.0));
      case Sum => r := Some(sum);
    }
  }

  // ----- cxpr_timeseries_window_wma -----

  /** The weighted sum of the first `n` samples and the sum of their weights. */
  function Weighted(s: seq<Reading>, n: nat): real
    requires n <= |s|
  {
    if n == 0 then 0.0
    else Weighted(s, n - 1) + (if s[n - 1].Known? then s[n - 1].x * (|s| - (n - 1)) as real else 0.0)
  }

  function Weights(s: seq<Reading>, n: nat): real
    requires n <= |s|
  {
    if n == 0 then 0.0
    else Weights(s, n - 1) + (if s[n - 1].Known? then (|s| - (n - 1)) as real else 0.0)
  }

  lemma {:induction false} WeightsPositive(s: seq<Reading>, n: nat)
    requires n <= |s|
    ensures Weights(s, n) >= 0.0 && (Weights(s, n) > 0.0 <==> exists i :: 0 <= i < n && s[i].Known?)
  {
    if n > 0 {
      WeightsPositive(s, n - 1);
      if s[n - 1].Known? {
        assert (|s| - (n - 1)) as real > 0.0;
      }
    }
  }

  lemma TimesOrdered(a: real, b: real, w: real)
    requires a <= b && w >= 0.0
    ensures a * w <= b * w
  {
    assert (b - a) * w >= 0.0;
  }

  ghost predicate Between(lo: real, hi: real, weights: real, total: real) {
    lo * weights <= total <= hi * weights
  }

  /** A total between multiples of the weights stays so with one more sample. */
  lemma BetweenStep(lo: real, hi: real, weights: real, total: real, x: real, w: real, weights': real, total': real)
    requires Between(lo, hi, weights, total) && lo <= x <= hi && w >= 0.0
    requires weights' == weights + w && total' == total + x * w
    ensures Between(lo, hi, weights', total')
  {
    TimesOrdered(lo, x, w);
    TimesOrdered(x, hi, w);
    assert lo * weights' == lo * weights + lo * w;
    assert hi * weights' == hi * weights + hi * w;
  }

  lemma {:induction false} WeightedBetween(s: seq<Reading>, n: nat, lo: real, hi: real)
    requires n <= |s| && forall i | 0 <= i < n && s[i].Known? :: lo <= s[i].x <= hi
    ensures Between(lo, hi, Weights(s, n), Weighted(s, n))
  {
    if n > 0 {
      WeightedBetween(s, n - 1, lo, hi);
      WeightedBetweenNext(s, n - 1, lo, hi);
    }
  }

  lemma WeightedBetweenNext(s: seq<Reading>, n: nat, lo: real, hi: real)
    requires n < |s| && (s[n].Known? ==> lo <= s[n].x <= hi)
    requires Between(lo, hi, Weights(s, n), Weighted(s, n))
    ensures Between(lo, hi, Weights(s, n + 1), Weighted(s, n + 1))
  {
    var w := (|s| - n) as real;
    WeightedNext(s, n, w);
    if s[n].Known? {
      BetweenStep(lo, hi, Weights(s, n), Weighted(s, n), s[n].x, w, Weights(s, n + 1), Weighted(s, n + 1));
    }
  }

  lemma WeightedNext(s: seq<Reading>, n: nat, w: real)
    requires n < |s| && w == (|s| - n) as real
    ensures s[n].Known? ==>
              Weighted(s, n + 1) == Weighted(s, n) + s[n].x * w && Weights(s, n + 1) == Weights(s, n) + w
    ensures !s[n].Known? ==> Weighted(s, n + 1) == Weighted(s, n) && Weights(s, n + 1) == Weights(s, n)
  {
  }

  /** A sample of one among zeros. */
  function OneAt(n: nat, i: nat): (s: seq<Reading>)
    ensures |s| == n && forall k | 0 <= k < n :: s[k] == Known(if k == i then 1.0 else 0.0)
  {
    seq(n, k requires 0 <= k < n => Known(if k == i then 1.0 else 0.0))
  }

  lemma {:induction false} OneWeighted(n: nat, i: nat, m: nat)
    requires i < n && m <= n
    ensures Weighted(OneAt(n, i), m) == if i < m then (n - i) as real else 0.0
  {
    if m > 0 {
      OneWeighted(n, i, m - 1);
      WeightedNext(OneAt(n, i), m - 1, (n - (m - 1)) as real);
    }
  }

  lemma {:induction false} WeightsSum(n: nat, i: nat, m: nat)
    requires m <= n
    ensures 2.0 * Weights(OneAt(n, i), m) == (2 * n * m - m * (m - 1)) as real
  {
    if m > 0 {
      var w := n - (m - 1);
      WeightsSum(n, i, m - 1);
      WeightedNext(OneAt(n, i), m - 1, w as real);
      SumGrows(n, m - 1);
    }
  }

  lemma SumGrows(n: int, m: int)
    ensures 2 * n * (m + 1) - (m + 1) * m == 2 * n * m - m * (m - 1) + 2 * (n - m)
  {
  }

  /** The sample `i` bars back counts `n - i` parts in `n * (n + 1) / 2`: the current one most, the oldest once. */
  lemma WeightsFallOff(n: nat, i: nat)
    requires i < n
    ensures Weights(OneAt(n, i), n) == (n * (n + 1)) as real / 2.0 > 0.0
    ensures Weighted(OneAt(n, i), n) / Weights(OneAt(n, i), n) == (n - i) as real / ((n * (n + 1)) as real / 2.0)
  {
    OneWeighted(n, i, n);
    WeightsSum(n, i, n);
    assert 2 * n * n - n * (n - 1) == n * (n + 1);
    MulMonotone(1, n, n + 1);
  }

  ghost predicate SomeKnown(s: seq<Reading>) {
    exists i :: 0 <= i < |s| && s[i].Known?
  }

  /** Weighted sum over weights; it lies between any bounds of the known samples. */
  ghost predicate IsWeightedMean(s: seq<Reading>, r: real) {
    && Weights(s, |s|) > 0.0 && r == Weighted(s, |s|) / Weights(s, |s|)
    && forall lo, hi | BoundsKnown(s, lo, hi) :: lo <= r <= hi
  }

  lemma WeightedMeanBetween(s: seq<Reading>)
    requires Weights(s, |s|) > 0.0
    ensures IsWeightedMean(s, Weighted(s, |s|) / Weights(s, |s|))
  {
    var total, weights := Weighted(s, |s|), Weights(s, |s|);
    forall lo, hi | BoundsKnown(s, lo, hi) ensures lo <= total / weights <= hi {
      WeightedBetween(s, |s|, lo, hi);
      QuotientBetween(total, weights, lo, hi);
    }
  }

  /** The loop over the samples. */
  method ScanWeights(s: seq<Reading>) returns (ok: bool, total: real, weights: real)
    ensures ok <==> Readable(s)
    ensures ok ==> total == Weighted(s, |s|) && weights == Weights(s, |s|)
  {
    total, weights := 0.0, 0.0;
    for i := 0 to |s|
      invariant Readable(s[..i]) && total == Weighted(s, i) && weights == Weights(s, i)
    {
      assert s[..i + 1] == s[..i] + [s[i]];
      var weight := (|s| - i) as real;
      match s[i] {
        case Unreadable =>
          ok := false;
          return;
        case Missing =>
        case Known(value) =>
          total := total + value * weight;
          weights := weights + weight;
      }
    }
    assert s[..|s|] == s;
    ok := true;
  }

  method WeightedMean(s: seq<Reading>) returns (r: Option<real>)
    ensures r.Some? <==> Readable(s)
    ensures r.Some? ==> if SomeKnown(s) then IsWeightedMean(s, r.value) else r.value == 0.0
  {
    var ok, total, weights := ScanWeights(s);
    if !ok {
      return None;
    }
    WeightsPositive(s, |s|);
    if weights > 0.0 {
      WeightedMeanBetween(s);
    }
    r := Some(if weights > 0.0 then total / weights else 0.0);
  }

  ghost predicate BoundsKnown(s: seq<Reading>, lo: real, hi: real) {
    forall i | 0 <= i < |s| && s[i].Known? :: lo <= s[i].x <= hi
  }

  // ----- cxpr_timeseries_bars_since_extreme -----

  /** `value` replaces the extreme; the sign of the direction says which way, and a NaN direction never does. */
  predicate Replaces(direction: Option<real>, value: real, extreme: real) {
    direction.Some? && if direction.value >= 0.0 then value > extreme else value < extreme
  }

  /** Offset `k` holds the first of the numbers that no other number would replace. */
  ghost predicate FirstExtreme(s: seq<Reading>, direction: Option<real>, k: nat) {
    && k < |s| && s[k].Known?
    && (forall i | 0 <= i < |s| && s[i].Known? :: !Replaces(direction, s[i].x, s[k].x))
    && (forall i | 0 <= i < k && s[i].Known? :: Replaces(direction, s[k].x, s[i].x))
  }

  method BarsSinceExtreme(s: seq<Reading>, direction: Option<real>) returns (r: Option<nat>)
    ensures r.Some? <==> Readable(s)
    ensures r.Some? ==> if SomeKnown(s) then FirstExtreme(s, direction, r.value) else r.value == 0
  {
    var extreme, index, count := 0.0, 0, 0;
    for i := 0 to |s|
      invariant Readable(s[..i])
      invariant count == 0 ==> index == 0 && forall j | 0 <= j < i :: !s[j].Known?
      invariant count > 0 ==> FirstExtreme(s[..i], direction, index) && extreme == s[index].x
    {
      ghost var before := s[..i];
      assert s[..i + 1] == before + [s[i]];
      match s[i] {
        case Unreadable => return None;
        case Missing =>
        case Known(value) =>
          if count == 0 || (direction.Some? && ((direction.value >= 0.0 && value > extreme)
                                                || (direction.value < 0.0 && value < extreme))) {
            extreme, index := value, i;
          }
          count := count + 1;
      }
    }
    assert s[..|s|] == s;
    r := Some(if count == 0 then 0 else index);
  }

  // ----- cxpr_timeseries_overlap_eval -----

  /** `e` is true at one of the first `n` bars, and readable until then. */
  ghost predicate TrueWithin(e: seq<Option<bool>>, n: nat) {
    exists i :: 0 <= i < n && i < |e| && e[i] == Some(true) && forall j | 0 <= j < i :: e[j].Some?
  }

  /** With latches, each side is asked only until it was true once. */
  method Overlaps(left: seq<Option<bool>>, right: seq<Option<bool>>) returns (r: bool)
    requires |left| == |right|
    ensures (forall i | 0 <= i < |left| :: left[i].Some? && right[i].Some?) ==>
              (r <==> (exists i :: 0 <= i < |left| && left[i] == Some(true))
                      && (exists j :: 0 <= j < |right| && right[j] == Some(true)))
    ensures r <==> TrueWithin(left, |left|) && TrueWithin(right, |right|)
  {
    var leftSeen, rightSeen := false, false;
    for i := 0 to |left|
      invariant leftSeen <==> TrueWithin(left, i)
      invariant rightSeen <==> TrueWithin(right, i)
      invariant !leftSeen ==> forall j | 0 <= j < i :: left[j] == Some(false)
      invariant !rightSeen ==> forall j | 0 <= j < i :: right[j] == Some(false)
      invariant !(leftSeen && rightSeen)
    {
      if !leftSeen && left[i].None? {
        return false;
      }
      if !rightSeen && right[i].None? {
        return false;
      }
      leftSeen := leftSeen || left[i].value;
      rightSeen := rightSeen || right[i].value;
      if leftSeen && rightSeen {
        return true;
      }
    }
    r := false;
  }
}
