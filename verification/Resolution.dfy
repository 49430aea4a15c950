/** Where a series of readings separates: `partition`, `separated` and `signal_end` of
    `resolution.py`, with floats read as reals. */
module Resolution {

  import opened Sorting

  type Series = seq<real>

  /** The sum of the first k readings. */
  function Sum(vals: Series, k: nat): real
    requires k <= |vals|
  {
    if k == 0 then 0.0 else Sum(vals, k - 1) + vals[k - 1]
  }

  function Sq(x: real): (y: real)
    ensures y >= 0.0
  {
    x * x
  }

  /** The sum of squared deviations from c of the readings from `from` to `to`. */
  function Deviation(vals: Series, from: nat, to: nat, c: real): (d: real)
    requires from <= to <= |vals|
    ensures d >= 0.0
  {
    if from == to then 0.0 else Deviation(vals, from, to - 1, c) + Sq(vals[to - 1] - c)
  }

  function Mean(vals: Series): real
    requires vals != []
  {
    Sum(vals, |vals|) / |vals| as real
  }

  /** `var_total`. */
  function Variance(vals: Series): (v: real)
    requires vals != []
    ensures v >= 0.0
  {
    Deviation(vals, 0, |vals|, Mean(vals))
  }

  function LeftMean(vals: Series, i: nat): real
    requires 0 < i < |vals|
  {
    Sum(vals, i) / i as real
  }

  function RightMean(vals: Series, i: nat): real
    requires 0 < i < |vals|
  {
    (Sum(vals, |vals|) - Sum(vals, i)) / (|vals| - i) as real
  }

  /** How far the means of two groups of i and n - i readings sit from the mean of all. */
  function Pooled(i: nat, n: nat, m: real, m1: real, m2: real): real {
    i as real * Sq(m1 - m) + (n - i) as real * Sq(m2 - m)
  }

  /** The between-class variance of the split after i readings. */
  function Between(vals: Series, i: nat): real
    requires 0 < i < |vals|
  {
    Pooled(i, |vals|, Mean(vals), LeftMean(vals, i), RightMean(vals, i))
  }

  /** cut is the first split of greatest between-class variance. */
  ghost predicate FirstBest(vals: Series, cut: nat) {
    && 0 < cut < |vals|
    && (forall i :: 0 < i < |vals| ==> Between(vals, i) <= Between(vals, cut))
    && (forall i :: 0 < i < cut ==> Between(vals, i) < Between(vals, cut))
  }

  // ---- the between-class variance never exceeds the total ----

  lemma ShiftStep(k: real, s: real, v: real, m: real, c: real)
    ensures 2.0 * (m - c) * s + k * Sq(m - c) + Sq(v - c)
         == Sq(v - m) + 2.0 * (m - c) * (s + (v - m)) + (k + 1.0) * Sq(m - c)
  {
    var a, b := m - c, v - m;
    assert v - c == a + b;
    assert Sq(a + b) == Sq(a) + 2.0 * a * b + Sq(b);
    assert 2.0 * a * (s + b) == 2.0 * a * s + 2.0 * a * b;
    assert (k + 1.0) * Sq(a) == k * Sq(a) + Sq(a);
  }

  /** How far the readings from `from` to `to` sum to more than m each. */
  function Excess(vals: Series, from: nat, to: nat, m: real): real
    requires from <= to <= |vals|
  {
    if from == to then 0.0 else Excess(vals, from, to - 1, m) + (vals[to - 1] - m)
  }

  lemma {:induction false} ExcessValue(vals: Series, from: nat, to: nat, m: real)
    requires from <= to <= |vals|
    ensures Excess(vals, from, to, m) == Sum(vals, to) - Sum(vals, from) - (to - from) as real * m
  {
    if from < to {
      ExcessValue(vals, from, to - 1, m);
      var k := (to - 1 - from) as real;
      assert (k + 1.0) * m == k * m + m;
    }
  }

  /** Moving the centre of a sum of squares from m to c. */
  lemma {:induction false} ShiftDeviation(vals: Series, from: nat, to: nat, m: real, c: real)
    requires from <= to <= |vals|
    ensures Deviation(vals, from, to, c) ==
            Deviation(vals, from, to, m) + (2.0 * (m - c) * Excess(vals, from, to, m) + (to - from) as real * Sq(m - c))
  {
    hide Sq;
    if from < to {
      ShiftDeviation(vals, from, to - 1, m, c);
      ShiftStep((to - 1 - from) as real, Excess(vals, from, to - 1, m), vals[to - 1], m, c);
      assert (to - 1 - from) as real + 1.0 == (to - from) as real;
    } else {
      ZeroProduct(2.0 * (m - c), 0.0);
      ZeroProduct(Sq(m - c), 0.0);
    }
  }

  lemma ZeroProduct(x: real, y: real)
    requires y == 0.0
    ensures x * y == 0.0 && y * x == 0.0
  {}

  lemma NonNegativeProduct(x: real, y: real)
    requires x >= 0.0 && y >= 0.0
    ensures x * y >= 0.0
  {}

  /** A segment's deviation from c, split at the segment's own mean. */
  lemma SegmentVariance(vals: Series, from: nat, to: nat, m: real, c: real)
    requires from < to <= |vals| && m == (Sum(vals, to) - Sum(vals, from)) / (to - from) as real
    ensures Deviation(vals, from, to, c) == Deviation(vals, from, to, m) + (to - from) as real * Sq(m - c)
    ensures (to - from) as real * Sq(m - c) >= 0.0
  {
    hide Sq, Deviation, Sum;
    ShiftDeviation(vals, from, to, m, c);
    ExcessValue(vals, from, to, m);
    DivisionInverts(Sum(vals, to) - Sum(vals, from), (to - from) as real);
    ZeroProduct(2.0 * (m - c), Excess(vals, from, to, m));
    NonNegativeProduct((to - from) as real, Sq(m - c));
  }

  lemma DivisionInverts(x: real, k: real)
    requires k != 0.0
    ensures k * (x / k) == x
  {}

  lemma {:induction false} SplitDeviation(vals: Series, i: nat, to: nat, c: real)
    requires i <= to <= |vals|
    ensures Deviation(vals, 0, to, c) == Deviation(vals, 0, i, c) + Deviation(vals, i, to, c)
  {
    if i < to { SplitDeviation(vals, i, to - 1, c); }
  }

  /** The total variance is the between-class variance and what each group varies about its own mean. */
  lemma TotalVariance(vals: Series, i: nat)
    requires 0 < i < |vals|
    ensures Variance(vals) == Between(vals, i) + Deviation(vals, 0, i, LeftMean(vals, i))
                              + Deviation(vals, i, |vals|, RightMean(vals, i))
    ensures 0.0 <= Between(vals, i) <= Variance(vals)
  {
    hide Sq, Deviation, Sum;
    var n, m := |vals|, Mean(vals);
    SplitDeviation(vals, i, n, m);
    SumNone(vals);
    SegmentVariance(vals, 0, i, LeftMean(vals, i), m);
    SegmentVariance(vals, i, n, RightMean(vals, i), m);
  }

  lemma SumNone(vals: Series)
    ensures Sum(vals, 0) == 0.0
  {}

  // ---- partition ----

  /** `max(0.0, min(1.0, x))`. */
  function Clamped(x: real): real {
    var y := if x < 1.0 then x else 1.0;
    if y > 0.0 then y else 0.0
  }

  /** The first split of greatest between-class variance, and the share of the total it explains. */
  ghost predicate IsPartition(vals: Series, cut: nat, separability: real) {
    && (|vals| <= 1 || Variance(vals) == 0.0 ==> cut == |vals| && separability == 0.0)
    && (|vals| > 1 && Variance(vals) > 0.0 ==>
          FirstBest(vals, cut) && separability == Between(vals, cut) / Variance(vals))
  }

  method Partition(vals: Series) returns (cut: nat, separability: real)
    ensures IsPartition(vals, cut, separability) && 0.0 <= separability <= 1.0
  {
    var n := |vals|;
    if n <= 1 {
      return n, 0.0;
    }
    var total := Sum(vals, n);
    var mean := total / n as real;
    var varTotal := Deviation(vals, 0, n, mean);
    if varTotal <= 0.0 {
      return n, 0.0;
    }
    var bestBetween := -1.0;
    cut := n;
    var run := 0.0;
    for i := 1 to n
      invariant run == Sum(vals, i - 1)
      invariant i == 1 ==> bestBetween == -1.0
      invariant i > 1 ==> 0 < cut < i && bestBetween == Between(vals, cut)
      invariant forall k :: 0 < k < i ==> Between(vals, k) <= bestBetween
      invariant forall k :: 0 < k < i && k < cut ==> Between(vals, k) < bestBetween
    {
      hide Pooled, Variance;
      run := run + vals[i - 1];
      var m1 := run / i as real;
      var m2 := (total - run) / (n - i) as real;
      var between := Pooled(i, n, mean, m1, m2);
      assert between == Between(vals, i);
      TotalVariance(vals, i);
      if between > bestBetween {
        bestBetween, cut := between, i;
      }
    }
    TotalVariance(vals, cut);
    RatioInUnit(bestBetween, varTotal);
    separability := Clamped(bestBetween / varTotal);
  }

  lemma RatioInUnit(x: real, y: real)
    requires 0.0 <= x <= y && y > 0.0
    ensures 0.0 <= x / y <= 1.0
  {}

  lemma PartitionUnique(vals: Series, cut: nat, separability: real, cut': nat, separability': real)
    requires IsPartition(vals, cut, separability) && IsPartition(vals, cut', separability')
    ensures cut == cut' && separability == separability'
  {
    if |vals| > 1 && Variance(vals) > 0.0 {
      assert Between(vals, cut) <= Between(vals, cut') <= Between(vals, cut);
    }
  }

  // ---- a change of scale and offset changes nothing ----

  function Line(a: real, b: real, x: real): real {
    a * x + b
  }

  /** The sum of k readings on the line, from the sum s of the readings themselves. */
  function LineSum(a: real, b: real, s: real, k: real): real {
    a * s + k * b
  }

  function Scale(c: real, x: real): real {
    c * x
  }

  function Affine(vals: Series, a: real, b: real): (r: Series)
    ensures |r| == |vals| && forall i :: 0 <= i < |vals| ==> r[i] == Line(a, b, vals[i])
  {
    seq(|vals|, i requires 0 <= i < |vals| => Line(a, b, vals[i]))
  }

  lemma {:induction false} AffineSum(vals: Series, a: real, b: real, k: nat)
    requires k <= |vals|
    ensures Sum(Affine(vals, a, b), k) == LineSum(a, b, Sum(vals, k), k as real)
  {
    hide Line, LineSum;
    if k > 0 {
      AffineSum(vals, a, b, k - 1);
      LineSumStep(a, b, Sum(vals, k - 1), (k - 1) as real, vals[k - 1]);
      assert (k - 1) as real + 1.0 == k as real;
    } else {
      LineSumNone(a, b);
    }
  }

  lemma LineSumStep(a: real, b: real, s: real, k: real, x: real)
    ensures LineSum(a, b, s, k) + Line(a, b, x) == LineSum(a, b, s + x, k + 1.0)
  {}

  lemma LineSumNone(a: real, b: real)
    ensures LineSum(a, b, 0.0, 0.0) == 0.0
  {}

  lemma LineQuotient(a: real, b: real, s: real, k: real)
    requires k != 0.0
    ensures LineSum(a, b, s, k) / k == Line(a, b, s / k)
  {
    var q := s / k;
    assert s == q * k;
    assert a * (q * k) + k * b == (a * q + b) * k;
  }

  lemma SqScale(a: real, b: real, x: real, y: real)
    ensures Sq(Line(a, b, x) - Line(a, b, y)) == Scale(Sq(a), Sq(x - y))
  {
    var d := x - y;
    assert Line(a, b, x) - Line(a, b, y) == a * d;
    assert (a * d) * (a * d) == (a * a) * (d * d);
  }

  lemma ScaleSum(c: real, x: real, y: real)
    ensures Scale(c, x + y) == Scale(c, x) + Scale(c, y)
    ensures Scale(c, 0.0) == 0.0
  {}

  lemma {:induction false} AffineDeviation(vals: Series, a: real, b: real, from: nat, to: nat, c: real)
    requires from <= to <= |vals|
    ensures Deviation(Affine(vals, a, b), from, to, Line(a, b, c)) == Scale(Sq(a), Deviation(vals, from, to, c))
  {
    hide Sq, Line, Scale;
    if from < to {
      AffineDeviation(vals, a, b, from, to - 1, c);
      SqScale(a, b, vals[to - 1], c);
      ScaleSum(Sq(a), Deviation(vals, from, to - 1, c), Sq(vals[to - 1] - c));
    } else {
      ScaleSum(Sq(a), 0.0, 0.0);
    }
  }

  lemma AffineMeans(vals: Series, a: real, b: real, i: nat)
    requires 0 < i < |vals|
    ensures LeftMean(Affine(vals, a, b), i) == Line(a, b, LeftMean(vals, i))
    ensures RightMean(Affine(vals, a, b), i) == Line(a, b, RightMean(vals, i))
  {
    assert |Affine(vals, a, b)| == |vals|;
    hide Affine, Sum, Line, LineSum;
    var n := |vals|;
    var s, t := Sum(vals, n), Sum(vals, i);
    AffineSum(vals, a, b, n);
    AffineSum(vals, a, b, i);
    LineQuotient(a, b, t, i as real);
    LineRest(a, b, s, t, n as real, i as real);
    assert (n - i) as real == n as real - i as real;
    LineQuotient(a, b, s - t, (n - i) as real);
  }

  lemma LineRest(a: real, b: real, s: real, t: real, n: real, i: real)
    ensures LineSum(a, b, s, n) - LineSum(a, b, t, i) == LineSum(a, b, s - t, n - i)
  {}

  lemma AffineMean(vals: Series, a: real, b: real)
    requires vals != []
    ensures Mean(Affine(vals, a, b)) == Line(a, b, Mean(vals))
  {
    assert |Affine(vals, a, b)| == |vals|;
    hide Affine, Sum, Line, LineSum;
    AffineSum(vals, a, b, |vals|);
    LineQuotient(a, b, Sum(vals, |vals|), |vals| as real);
  }

  lemma AffineVariance(vals: Series, a: real, b: real)
    requires vals != []
    ensures Variance(Affine(vals, a, b)) == Scale(Sq(a), Variance(vals))
  {
    assert |Affine(vals, a, b)| == |vals|;
    hide Sq, Deviation, Mean, Affine, Line, Scale;
    AffineMean(vals, a, b);
    AffineDeviation(vals, a, b, 0, |vals|, Mean(vals));
  }

  lemma AffineBetween(vals: Series, a: real, b: real, i: nat)
    requires 0 < i < |vals|
    ensures Between(Affine(vals, a, b), i) == Scale(Sq(a), Between(vals, i))
  {
    assert |Affine(vals, a, b)| == |vals|;
    hide Sq, Affine, Mean, LeftMean, RightMean, Line, Scale, Pooled;
    AffineMean(vals, a, b);
    AffineMeans(vals, a, b, i);
    PooledScale(i, |vals|, a, b, Mean(vals), LeftMean(vals, i), RightMean(vals, i));
  }

  lemma PooledScale(i: nat, n: nat, a: real, b: real, m: real, m1: real, m2: real)
    ensures Pooled(i, n, Line(a, b, m), Line(a, b, m1), Line(a, b, m2)) == Scale(Sq(a), Pooled(i, n, m, m1, m2))
  {
    SqScale(a, b, m1, m);
    SqScale(a, b, m2, m);
    hide Line, Sq;
    ScaleWeighted(i as real, (n - i) as real, Sq(a), Sq(m1 - m), Sq(m2 - m));
  }

  lemma ScaleWeighted(i: real, k: real, c: real, x: real, y: real)
    ensures i * Scale(c, x) + k * Scale(c, y) == Scale(c, i * x + k * y)
  {}

  lemma ScaleOrder(c: real, x: real, y: real)
    requires c > 0.0
    ensures Scale(c, x) <= Scale(c, y) <==> x <= y
    ensures Scale(c, x) == 0.0 <==> x == 0.0
    ensures Scale(c, x) > 0.0 <==> x > 0.0
  {}

  lemma ScaleRatio(c: real, x: real, y: real)
    requires c > 0.0 && y != 0.0
    ensures Scale(c, y) != 0.0 && Scale(c, x) / Scale(c, y) == x / y
  {
    var q := x / y;
    assert x == q * y;
    assert c * x == q * (c * y);
  }

  lemma SqPositive(a: real)
    requires a != 0.0
    ensures Sq(a) > 0.0
  {
    assert Sq(a) * (1.0 / a) == a;
  }

  /** Scaling a series by any a != 0 and offsetting it changes neither the cut nor the ratio. */
  lemma PartitionAffine(vals: Series, a: real, b: real, cut: nat, separability: real)
    requires a != 0.0
    ensures IsPartition(Affine(vals, a, b), cut, separability) <==> IsPartition(vals, cut, separability)
  {
    if |vals| > 1 {
      var vals' := Affine(vals, a, b);
      assert |vals'| == |vals|;
      SqPositive(a);
      hide Sq, Between, Variance, Affine, Scale, FirstBest;
      AffineVariance(vals, a, b);
      ScaleOrder(Sq(a), Variance(vals), 1.0);
      FirstBestAffine(vals, a, b, cut);
      if FirstBest(vals, cut) && Variance(vals) > 0.0 {
        assert 0 < cut < |vals| by { FirstBestInRange(vals, cut); }
        AffineBetween(vals, a, b, cut);
        ScaleRatio(Sq(a), Between(vals, cut), Variance(vals));
      }
    }
  }

  lemma FirstBestAffine(vals: Series, a: real, b: real, cut: nat)
    requires a != 0.0
    ensures FirstBest(Affine(vals, a, b), cut) <==> FirstBest(vals, cut)
  {
    var vals' := Affine(vals, a, b);
    assert |vals'| == |vals|;
    hide Between, Affine;
    if 0 < cut < |vals| {
      forall i | 0 < i < |vals|
        ensures Between(vals', i) <= Between(vals', cut) <==> Between(vals, i) <= Between(vals, cut)
        ensures Between(vals', i) < Between(vals', cut) <==> Between(vals, i) < Between(vals, cut)
      {
        BetweenOrder(vals, a, b, i, cut);
        BetweenOrder(vals, a, b, cut, i);
      }
    }
  }

  lemma FirstBestInRange(vals: Series, cut: nat)
    requires FirstBest(vals, cut)
    ensures 0 < cut < |vals|
  {}

  lemma BetweenOrder(vals: Series, a: real, b: real, i: nat, j: nat)
    requires a != 0.0 && 0 < i < |vals| && 0 < j < |vals|
    ensures Between(Affine(vals, a, b), i) <= Between(Affine(vals, a, b), j) <==> Between(vals, i) <= Between(vals, j)
  {
    SqPositive(a);
    hide Sq, Between, Affine, Scale;
    AffineBetween(vals, a, b, i);
    AffineBetween(vals, a, b, j);
    ScaleOrder(Sq(a), Between(vals, i), Between(vals, j));
  }

  // ---- the null series ----

  /** The uniform ramp n, n - 1, ..., 1. */
  function Ramp(n: nat): (r: Series)
    ensures |r| == n && forall i :: 0 <= i < n ==> r[i] == (n - i) as real
  {
    seq(n, i requires 0 <= i < n => (n - i) as real)
  }

  lemma {:induction false} RampSum(n: nat, k: nat)
    requires k <= n
    ensures 2.0 * Sum(Ramp(n), k) == k as real * (2.0 * n as real - k as real + 1.0)
  {
    if k > 0 {
      RampSum(n, k - 1);
      RampSumStep(n as real, k as real);
    }
  }

  lemma RampSumStep(n: real, k: real)
    ensures (k - 1.0) * (2.0 * n - (k - 1.0) + 1.0) + 2.0 * (n - k + 1.0) == k * (2.0 * n - k + 1.0)
  {}

  lemma {:induction false} RampSquares(n: nat, k: nat)
    requires k <= n
    ensures 6.0 * Deviation(Ramp(n), 0, k, 0.0) == SquaresTo(n as real, k as real)
  {
    if k > 0 {
      RampSquares(n, k - 1);
      SquaresStep(n as real, k as real);
      assert Ramp(n)[k - 1] - 0.0 == n as real - k as real + 1.0;
    }
  }

  /** Six times the sum of the squares of n, n - 1, ..., n - k + 1. */
  function SquaresTo(n: real, k: real): real {
    6.0 * k * n * n - 6.0 * n * k * (k - 1.0) + (k - 1.0) * k * (2.0 * k - 1.0)
  }

  lemma SquaresStep(n: real, k: real)
    ensures SquaresTo(n, k - 1.0) + 6.0 * Sq(n - k + 1.0) == SquaresTo(n, k)
  {}

  lemma RampMeans(n: nat, i: nat)
    requires 0 < i < n
    ensures Mean(Ramp(n)) == (n as real + 1.0) / 2.0
    ensures LeftMean(Ramp(n), i) - Mean(Ramp(n)) == (n as real - i as real) / 2.0
    ensures RightMean(Ramp(n), i) - Mean(Ramp(n)) == -(i as real) / 2.0
  {
    hide Ramp, Sum;
    var r, x := n as real, i as real;
    RampSum(n, n);
    RampSum(n, i);
    var s, t := Sum(Ramp(n), n), Sum(Ramp(n), i);
    assert s == r * ((r + 1.0) / 2.0);
    QuotientOf(s, r, (r + 1.0) / 2.0);
    assert t == x * ((2.0 * r - x + 1.0) / 2.0);
    QuotientOf(t, x, (2.0 * r - x + 1.0) / 2.0);
    assert (n - i) as real == r - x;
    assert s - t == (r - x) * ((r - x + 1.0) / 2.0);
    QuotientOf(s - t, r - x, (r - x + 1.0) / 2.0);
  }

  lemma QuotientOf(s: real, k: real, q: real)
    requires k != 0.0 && s == k * q
    ensures s / k == q
  {}

  /** Between-class variance of the ramp: i * (n - i) * n / 4. */
  lemma RampBetween(n: nat, i: nat)
    requires 0 < i < n
    ensures Between(Ramp(n), i) == (i * (n - i)) as real * (n as real / 4.0)
  {
    hide Ramp, Mean, LeftMean, RightMean;
    RampMeans(n, i);
    var r, x := n as real, i as real;
    assert (i * (n - i)) as real == x * (r - x) by { ProductAsReal(i, n - i); }
    RampPooled(r, x);
  }

  lemma ProductAsReal(i: int, j: int)
    ensures (i * j) as real == i as real * j as real
  {}

  lemma RampPooled(r: real, x: real)
    ensures x * Sq((r - x) / 2.0) + (r - x) * Sq(-x / 2.0) == x * (r - x) * (r / 4.0)
  {
    var h := (r - x) / 2.0;
    var g := x / 2.0;
    assert Sq(h) == (r - x) * (r - x) / 4.0;
    assert Sq(-x / 2.0) == x * x / 4.0;
  }

  /** Total variance of the ramp: n * (n^2 - 1) / 12. */
  lemma RampVariance(n: nat)
    requires n > 0
    ensures 12.0 * Variance(Ramp(n)) == n as real * (n as real * n as real - 1.0)
  {
    hide Ramp, Deviation, Sum, Sq;
    var r := n as real;
    var m := Mean(Ramp(n));
    RampSum(n, n);
    assert Sum(Ramp(n), n) == r * ((r + 1.0) / 2.0);
    QuotientOf(Sum(Ramp(n), n), r, (r + 1.0) / 2.0);
    RampSquares(n, n);
    ShiftDeviation(Ramp(n), 0, n, m, 0.0);
    ExcessValue(Ramp(n), 0, n, m);
    SumNone(Ramp(n));
    ZeroProduct(2.0 * (m - 0.0), Excess(Ramp(n), 0, n, m));
    RampVarianceStep(r, m, Variance(Ramp(n)));
  }

  lemma RampVarianceStep(r: real, m: real, v: real)
    requires m == (r + 1.0) / 2.0 && SquaresTo(r, r) == 6.0 * (v + r * Sq(m - 0.0))
    ensures 12.0 * v == r * (r * r - 1.0)
  {
    assert 4.0 * Sq(m - 0.0) == (r + 1.0) * (r + 1.0);
    assert SquaresTo(r, r) == r * (r + 1.0) * (2.0 * r + 1.0);
  }

  lemma HalfIsBest(n: int, h: int, i: int)
    requires h == n / 2 && 0 < i < n
    ensures i * (n - i) <= h * (n - h)
    ensures i < h ==> i * (n - i) < h * (n - h)
  {
    assert h * (n - h) - i * (n - i) == (h - i) * (n - h - i);
    if i < h { PositiveProduct(h - i, n - h - i); }
    if i > h {
      assert (h - i) * (n - h - i) == (i - h) * (i - (n - h));
      NonNegativeInts(i - h, i - (n - h));
    }
  }

  lemma PositiveProduct(x: int, y: int)
    requires x > 0 && y > 0
    ensures x * y > 0
  {}

  lemma NonNegativeInts(x: int, y: int)
    requires x >= 0 && y >= 0
    ensures x * y >= 0
  {}

  /** The null separability of n >= 2 readings in closed form. */
  function NullClosedForm(n: nat): real
    requires n >= 2
  {
    if n % 2 == 1 then 3.0 / 4.0 else 3.0 * (n * n) as real / (4.0 * (n * n - 1) as real)
  }

  lemma RampOrder(n: nat, i: nat)
    requires 0 < i < n
    ensures Between(Ramp(n), i) <= Between(Ramp(n), n / 2)
    ensures i < n / 2 ==> Between(Ramp(n), i) < Between(Ramp(n), n / 2)
  {
    hide Ramp, Between;
    var h := n / 2;
    var at, best := Between(Ramp(n), i), Between(Ramp(n), h);
    RampBetween(n, i);
    RampBetween(n, h);
    RampCrosses(n, h, i, at, best);
  }

  lemma RampCrosses(n: nat, h: nat, i: nat, at: real, best: real)
    requires 0 < i < n && h == n / 2
    requires at == (i * (n - i)) as real * (n as real / 4.0) && best == (h * (n - h)) as real * (n as real / 4.0)
    ensures at <= best && (i < h ==> at < best)
  {
    HalfIsBest(n, h, i);
    var x, y := i * (n - i), h * (n - h);
    QuarterOrder(n as real, x as real, y as real);
  }

  lemma RampBest(n: nat)
    requires n >= 2
    ensures FirstBest(Ramp(n), n / 2)
  {
    assert |Ramp(n)| == n;
    hide Ramp, Between;
    forall i | 0 < i < n
      ensures Between(Ramp(n), i) <= Between(Ramp(n), n / 2)
      ensures i < n / 2 ==> Between(Ramp(n), i) < Between(Ramp(n), n / 2)
    {
      RampOrder(n, i);
    }
  }

  lemma RampBestRatio(n: nat)
    requires n >= 2
    ensures Variance(Ramp(n)) > 0.0
    ensures Between(Ramp(n), n / 2) / Variance(Ramp(n)) == NullClosedForm(n)
  {
    hide Ramp, Between, Variance, NullClosedForm;
    RampVariance(n);
    RampVariancePositive(n, Variance(Ramp(n)));
    RampBetween(n, n / 2);
    RampRatio(n, Between(Ramp(n), n / 2), Variance(Ramp(n)));
  }

  lemma RampPartition(n: nat)
    requires n >= 2
    ensures IsPartition(Ramp(n), n / 2, NullClosedForm(n))
  {
    assert |Ramp(n)| == n;
    hide Ramp, Between, Variance, NullClosedForm, FirstBest;
    RampBest(n);
    RampBestRatio(n);
  }

  lemma RampVariancePositive(n: nat, v: real)
    requires n >= 2 && 12.0 * v == n as real * (n as real * n as real - 1.0)
    ensures v > 0.0
  {
    var r := n as real;
    assert r * r >= 4.0;
    assert r * (r * r - 1.0) > 0.0;
  }

  lemma QuarterOrder(r: real, x: real, y: real)
    requires r > 0.0
    ensures x <= y ==> x * (r / 4.0) <= y * (r / 4.0)
    ensures x < y ==> x * (r / 4.0) < y * (r / 4.0)
  {}

  lemma RampRatio(n: nat, b: real, v: real)
    requires n >= 2 && v > 0.0
    requires b == (n / 2 * (n - n / 2)) as real * (n as real / 4.0)
    requires 12.0 * v == n as real * (n as real * n as real - 1.0)
    ensures b / v == NullClosedForm(n)
  {
    var h, r := n / 2, n as real;
    var x := h as real;
    ProductAsReal(h, n - h);
    ProductAsReal(n, n);
    assert b == x * (r - x) * (r / 4.0);
    if n % 2 == 1 {
      OddRatio(x, r, b, v);
    } else {
      EvenRatio(x, r, b, v);
    }
    QuotientOf(b, v, NullClosedForm(n));
  }

  lemma OddRatio(x: real, r: real, b: real, v: real)
    requires r == 2.0 * x + 1.0 && b == x * (r - x) * (r / 4.0) && 12.0 * v == r * (r * r - 1.0)
    ensures b == v * (3.0 / 4.0)
  {
    assert 4.0 * (x * (x + 1.0)) == r * r - 1.0;
    assert b == (x * (x + 1.0)) * (r / 4.0);
  }

  lemma EvenRatio(x: real, r: real, b: real, v: real)
    requires r == 2.0 * x && r >= 2.0 && b == x * (r - x) * (r / 4.0) && 12.0 * v == r * (r * r - 1.0)
    ensures r * r - 1.0 > 0.0 && b == v * (3.0 * (r * r) / (4.0 * (r * r - 1.0)))
  {
    var s := r * r;
    assert s >= 4.0;
    assert 16.0 * b == r * s by {
      assert b == x * x * (r / 4.0);
      assert 4.0 * (x * x) == s;
    }
    var q := 3.0 * s / (4.0 * (s - 1.0));
    QuotientTimes(3.0 * s, 4.0 * (s - 1.0), q);
    assert 12.0 * v == r * (s - 1.0);
    RatioStep(v, q, r, s);
  }

  lemma QuotientTimes(x: real, y: real, q: real)
    requires y != 0.0 && q == x / y
    ensures q * y == x
  {}

  lemma RatioStep(v: real, q: real, r: real, s: real)
    requires q * (4.0 * (s - 1.0)) == 3.0 * s && 12.0 * v == r * (s - 1.0)
    ensures 16.0 * (v * q) == r * s
  {
    var t := s - 1.0;
    assert 4.0 * (q * t) == 3.0 * s;
    assert 12.0 * (v * q) == (r * t) * q;
    assert (r * t) * q == r * (q * t);
    assert 4.0 * (r * (q * t)) == r * (4.0 * (q * t));
    assert r * (3.0 * s) == 3.0 * (r * s);
  }

  // ---- the cut and the ratio as functions of the series ----

  /** The first cut of greatest between-class variance among 1, ..., k. */
  function FirstBestUpTo(vals: Series, k: nat): (cut: nat)
    requires 0 < k < |vals|
    ensures 0 < cut <= k
    ensures forall i :: 0 < i <= k ==> Between(vals, i) <= Between(vals, cut)
    ensures forall i :: 0 < i < cut ==> Between(vals, i) < Between(vals, cut)
  {
    hide Between;
    if k == 1 then 1
    else
      var cut := FirstBestUpTo(vals, k - 1);
      if Between(vals, k) > Between(vals, cut) then k else cut
  }

  predicate Uniform(vals: Series) {
    |vals| <= 1 || Variance(vals) == 0.0
  }

  function Cut(vals: Series): (cut: nat)
    ensures cut <= |vals|
  {
    if Uniform(vals) then |vals| else FirstBestUpTo(vals, |vals| - 1)
  }

  function Ratio(vals: Series): real {
    if Uniform(vals) then 0.0 else Between(vals, Cut(vals)) / Variance(vals)
  }

  lemma CutIsPartition(vals: Series)
    ensures IsPartition(vals, Cut(vals), Ratio(vals))
  {
    hide Between, Variance;
    if !Uniform(vals) {
      assert Cut(vals) == FirstBestUpTo(vals, |vals| - 1);
    }
  }

  lemma OnlyPartition(vals: Series, cut: nat, separability: real)
    requires IsPartition(vals, cut, separability)
    ensures cut == Cut(vals) && separability == Ratio(vals)
  {
    hide IsPartition, Cut, Ratio;
    CutIsPartition(vals);
    PartitionUnique(vals, cut, separability, Cut(vals), Ratio(vals));
  }

  /** A change of scale and offset moves neither the cut nor the ratio. */
  lemma AffineKeepsCut(vals: Series, a: real, b: real)
    requires a != 0.0
    ensures Cut(Affine(vals, a, b)) == Cut(vals) && Ratio(Affine(vals, a, b)) == Ratio(vals)
  {
    hide IsPartition, Cut, Ratio, Affine;
    CutIsPartition(vals);
    PartitionAffine(vals, a, b, Cut(vals), Ratio(vals));
    OnlyPartition(Affine(vals, a, b), Cut(vals), Ratio(vals));
  }

  // ---- whether, before where ----

  /** What `partition` reports for the ramp. */
  function NullRatio(n: nat): real {
    if n <= 1 then 0.0 else NullClosedForm(n)
  }

  lemma NullRatioIsRampRatio(n: nat)
    ensures NullRatio(n) == Ratio(Ramp(n))
  {
    hide IsPartition, NullClosedForm;
    if n >= 2 {
      hide Ratio;
      RampPartition(n);
      OnlyPartition(Ramp(n), n / 2, NullClosedForm(n));
    }
  }

  method NullSeparability(n: nat) returns (separability: real)
    ensures separability == NullRatio(n)
  {
    if n <= 1 {
      return 0.0;
    }
    var ramp: Series := seq(n, i requires 0 <= i < n => (n - i) as real);
    assert ramp == Ramp(n);
    var cut;
    cut, separability := Partition(ramp);
    hide FirstBest, Ratio, Ramp, NullRatio, Variance, Between;
    OnlyPartition(ramp, cut, separability);
    NullRatioIsRampRatio(n);
  }

  function Abs(x: real): (y: real)
    ensures y >= 0.0
  {
    if x < 0.0 then -x else x
  }

  /** The greatest magnitude of the first k readings. */
  function Magnitude(vals: Series, k: nat): (m: real)
    requires k <= |vals|
    ensures m >= 0.0
    ensures forall i :: 0 <= i < k ==> Abs(vals[i]) <= m
  {
    if k == 0 then 0.0
    else
      var m := Magnitude(vals, k - 1);
      if Abs(vals[k - 1]) > m then Abs(vals[k - 1]) else m
  }

  /** The sum of the distances from c of the first k readings. */
  function Spread(vals: Series, k: nat, c: real): (s: real)
    requires k <= |vals|
    ensures s >= 0.0
  {
    if k == 0 then 0.0 else Spread(vals, k - 1, c) + Abs(vals[k - 1] - c)
  }

  const EPSILON: real := 1.0 / 4503599627370496.0

  /** `_tie_break`, from the length, the greatest magnitude, the spread about the mean and the variance. */
  function TieBreakOf(n: real, magnitude: real, spread: real, variance: real): real {
    if variance <= 0.0 then 0.0
    else
      var delta := n * EPSILON * magnitude;
      n * EPSILON + 8.0 * delta * spread / variance
  }

  function TieBreak(vals: Series): real
    requires vals != []
  {
    TieBreakOf(|vals| as real, Magnitude(vals, |vals|), Spread(vals, |vals|, Mean(vals)), Variance(vals))
  }

  lemma TieBreakNonNegative(vals: Series)
    requires vals != []
    ensures TieBreak(vals) >= 0.0
  {
    hide Variance, Magnitude, Spread, Mean;
    if Variance(vals) > 0.0 {
      var n := |vals| as real;
      NonNegativeProduct(n, EPSILON);
      var delta := n * EPSILON * Magnitude(vals, |vals|);
      NonNegativeProduct(n * EPSILON, Magnitude(vals, |vals|));
      NonNegativeProduct(8.0 * delta, Spread(vals, |vals|, Mean(vals)));
      NonNegativeQuotient(8.0 * delta * Spread(vals, |vals|, Mean(vals)), Variance(vals));
    }
  }

  lemma NonNegativeQuotient(x: real, y: real)
    requires x >= 0.0 && y > 0.0
    ensures x / y >= 0.0
  {}

  /** The series separates beyond what the ramp of its length shows. */
  predicate Separates(vals: Series) {
    |vals| > 1 && Ratio(vals) > NullRatio(|vals|) + TieBreak(vals)
  }

  // ---- sorting ----

  predicate AtLeast(x: real, y: real) {
    x >= y
  }

  /** `_sorted_desc`. */
  function SortedDesc(scores: Series, descending: bool): Series {
    if descending then scores else Sort(AtLeast, scores)
  }

  /** Unless they are said to be so already, the readings are put in descending order. */
  lemma SortedDescends(scores: Series)
    ensures SortedDesc(scores, true) == scores
    ensures var r := SortedDesc(scores, false);
            multiset(r) == multiset(scores) && forall i, j :: 0 <= i < j < |r| ==> r[i] >= r[j]
  {
    AtLeastOrder();
    SortSorted(AtLeast, scores);
  }

  method Separated(scores: Series, descending: bool) returns (separated: bool)
    ensures separated == Separates(SortedDesc(scores, descending))
  {
    var vals := SortedDesc(scores, descending);
    if |vals| <= 1 {
      return false;
    }
    var cut, ratio := Partition(vals);
    var baseline := NullSeparability(|vals|);
    hide FirstBest, Ratio, NullRatio, Variance, Between, TieBreak, SortedDesc;
    OnlyPartition(vals, cut, ratio);
    separated := ratio > baseline + TieBreak(vals);
  }

  method SignalEnd(scores: Series, descending: bool) returns (count: nat)
    ensures count == SignalCount(SortedDesc(scores, descending))
  {
    var vals := SortedDesc(scores, descending);
    var separated := Separated(vals, true);
    if !separated {
      return |vals|;
    }
    var ratio;
    count, ratio := Partition(vals);
    hide FirstBest, Ratio, Cut, Variance, Between, SortedDesc;
    OnlyPartition(vals, count, ratio);
  }

  /** How many leading readings are signal. */
  function SignalCount(vals: Series): (count: nat)
    ensures count <= |vals|
  {
    if Separates(vals) then Cut(vals) else |vals|
  }

  // ---- what is never separated ----

  /** No arithmetic progression separates, at any offset and step. */
  lemma ProgressionKept(n: nat, step: real, offset: real)
    ensures SignalCount(Affine(Ramp(n), step, offset)) == n
  {
    var vals := Affine(Ramp(n), step, offset);
    assert |vals| == n;
    if n > 1 {
      TieBreakNonNegative(vals);
      if step != 0.0 {
        hide Ratio, NullRatio, TieBreak, Cut, Affine;
        AffineKeepsCut(Ramp(n), step, offset);
        NullRatioIsRampRatio(n);
      } else {
        hide Sq, Affine, TieBreak, Cut;
        AffineVariance(Ramp(n), step, offset);
        ScaleNone(Variance(Ramp(n)));
      }
    }
  }

  lemma ScaleNone(x: real)
    ensures Scale(Sq(0.0), x) == 0.0
  {}

  /** Two readings are never separated: every pair is a progression. */
  lemma PairKept(x: real, y: real)
    ensures SignalCount([x, y]) == 2
  {
    var pair := [x, y];
    assert pair == Affine(Ramp(2), x - y, y + y - x) by {
      assert Line(x - y, y + y - x, 2.0) == x;
      assert Line(x - y, y + y - x, 1.0) == y;
    }
    ProgressionKept(2, x - y, y + y - x);
  }

  lemma AtLeastOrder()
    ensures TotalOrder(AtLeast)
  {}

  /** Sorted first, the order the scores come in does not matter. */
  lemma ScoreOrderIrrelevant(scores: Series, shuffled: Series)
    requires multiset(scores) == multiset(shuffled)
    ensures SortedDesc(scores, false) == SortedDesc(shuffled, false)
  {
    AtLeastOrder();
    SortIgnoresOrder(AtLeast, scores, shuffled);
  }

  /** A progression is kept whole in whatever order it is handed over. */
  lemma ShuffledProgressionKept(scores: Series, n: nat, step: real, offset: real)
    requires step >= 0.0 && multiset(scores) == multiset(Affine(Ramp(n), step, offset))
    ensures SignalCount(SortedDesc(scores, false)) == n
  {
    var vals := Affine(Ramp(n), step, offset);
    ScoreOrderIrrelevant(scores, vals);
    forall i, j | 0 <= i < j < |vals| ensures AtLeast(vals[i], vals[j]) {
      LineMonotone(step, offset, (n - i) as real, (n - j) as real);
    }
    SortOfSorted(AtLeast, vals);
    ProgressionKept(n, step, offset);
  }

  lemma LineMonotone(a: real, b: real, x: real, y: real)
    requires a >= 0.0 && x >= y
    ensures Line(a, b, x) >= Line(a, b, y)
  {
    NonNegativeProduct(a, x - y);
    assert a * (x - y) == a * x - a * y;
  }

  // ---- a clean step ----

  /** Between-class variance is all of the variance exactly when both groups are constant. */
  lemma CleanSplit(vals: Series, i: nat)
    requires 0 < i < |vals|
    ensures Between(vals, i) == Variance(vals) <==> Constant(vals, 0, i) && Constant(vals, i, |vals|)
  {
    hide Between, Variance, Deviation, Sum;
    TotalVariance(vals, i);
    SumNone(vals);
    FlatIffConstant(vals, 0, i, LeftMean(vals, i)) by {
      assert LeftMean(vals, i) == (Sum(vals, i) - Sum(vals, 0)) / (i - 0) as real;
    }
    FlatIffConstant(vals, i, |vals|, RightMean(vals, i));
  }

  ghost predicate Constant(vals: Series, from: nat, to: nat)
    requires from <= to <= |vals|
  {
    forall i, j :: from <= i < to && from <= j < to ==> vals[i] == vals[j]
  }

  lemma FlatIffConstant(vals: Series, from: nat, to: nat, m: real)
    requires from < to <= |vals| && m == (Sum(vals, to) - Sum(vals, from)) / (to - from) as real
    ensures Deviation(vals, from, to, m) == 0.0 <==> Constant(vals, from, to)
  {
    hide Deviation, Sum;
    if Deviation(vals, from, to, m) == 0.0 {
      FlatIsConstant(vals, from, to, m);
    }
    if Constant(vals, from, to) {
      var x, k, s := vals[from], (to - from) as real, Sum(vals, to) - Sum(vals, from);
      ConstantSum(vals, from, to, x);
      QuotientOf(s, k, x);
      ConstantIsFlat(vals, from, to, m);
    }
  }

  lemma {:induction false} FlatIsConstant(vals: Series, from: nat, to: nat, m: real)
    requires from <= to <= |vals| && Deviation(vals, from, to, m) == 0.0
    ensures forall i :: from <= i < to ==> vals[i] == m
  {
    if from < to {
      FlatIsConstant(vals, from, to - 1, m);
      if vals[to - 1] != m { SqPositive(vals[to - 1] - m); }
    }
  }

  lemma {:induction false} ConstantIsFlat(vals: Series, from: nat, to: nat, m: real)
    requires from <= to <= |vals| && forall i :: from <= i < to ==> vals[i] == m
    ensures Deviation(vals, from, to, m) == 0.0
  {
    if from < to {
      ConstantIsFlat(vals, from, to - 1, m);
      assert Sq(vals[to - 1] - m) == 0.0;
    }
  }

  lemma {:induction false} ConstantSum(vals: Series, from: nat, to: nat, m: real)
    requires from <= to <= |vals| && forall i :: from <= i < to ==> vals[i] == m
    ensures Sum(vals, to) - Sum(vals, from) == (to - from) as real * m
  {
    if from < to {
      ConstantSum(vals, from, to - 1, m);
      assert (to - from) as real * m == (to - 1 - from) as real * m + m;
    }
  }

  /** A series of two levels is cut exactly where the level changes, with ratio 1. */
  lemma StepIsCut(vals: Series, step: nat)
    requires 0 < step < |vals| && Constant(vals, 0, step) && Constant(vals, step, |vals|)
    requires vals[0] != vals[step]
    ensures Cut(vals) == step && Ratio(vals) == 1.0
  {
    hide Between, Variance, Cut, Ratio, Constant;
    CleanSplit(vals, step);
    StepVaries(vals, step);
    forall i | 0 < i < |vals|
      ensures Between(vals, i) <= Between(vals, step)
      ensures i < step ==> Between(vals, i) < Between(vals, step)
    {
      TotalVariance(vals, i);
      CleanSplit(vals, i);
      if i < step { StepInside(vals, i, step); }
    }
    OnlyPartition(vals, step, 1.0);
  }

  lemma StepInside(vals: Series, i: nat, step: nat)
    requires 0 < i < step < |vals| && Constant(vals, 0, step) && vals[0] != vals[step]
    ensures !Constant(vals, i, |vals|)
  {
    assert vals[i] == vals[0];
  }

  lemma StepVaries(vals: Series, step: nat)
    requires 0 < step < |vals| && vals[0] != vals[step]
    ensures Variance(vals) > 0.0
  {
    hide Deviation;
    if Variance(vals) == 0.0 { FlatIsConstant(vals, 0, |vals|, Mean(vals)); }
  }

  /** A step in three or more readings is signal unless the tie-break covers the gap to the null. */
  lemma StepSeparates(vals: Series, step: nat)
    requires 0 < step < |vals| && Constant(vals, 0, step) && Constant(vals, step, |vals|)
    requires vals[0] != vals[step]
    ensures SignalCount(vals) == if TieBreak(vals) < 1.0 - NullRatio(|vals|) then step else |vals|
  {
    hide Ratio, Cut, TieBreak, NullRatio, Constant;
    StepIsCut(vals, step);
  }

  function Larger(x: real, y: real): real {
    if x > y then x else y
  }

  lemma {:induction false} StepMagnitude(vals: Series, step: nat, k: nat)
    requires 0 < step < k <= |vals| && Constant(vals, 0, step) && Constant(vals, step, |vals|)
    ensures Magnitude(vals, k) == Larger(Abs(vals[0]), Abs(vals[step]))
  {
    hide Abs;
    if k == step + 1 { LevelMagnitude(vals, step, step); } else { StepMagnitude(vals, step, k - 1); }
  }

  lemma {:induction false} LevelMagnitude(vals: Series, step: nat, k: nat)
    requires 0 < k <= step <= |vals| && Constant(vals, 0, step)
    ensures Magnitude(vals, k) == Abs(vals[0])
  {
    if k > 1 { LevelMagnitude(vals, step, k - 1); } else { assert Magnitude(vals, 0) == 0.0; }
  }

  lemma {:induction false} LevelSpread(vals: Series, step: nat, k: nat, c: real)
    requires k <= step <= |vals| && step > 0 && Constant(vals, 0, step)
    ensures Spread(vals, k, c) == Scale(k as real, Abs(vals[0] - c))
  {
    hide Scale, Abs;
    if k > 0 {
      LevelSpread(vals, step, k - 1, c);
      OneMore(k - 1, Abs(vals[0] - c));
    } else {
      NoneOf(Abs(vals[0] - c));
    }
  }

  lemma OneMore(k: nat, x: real)
    ensures Scale(k as real, x) + x == Scale((k + 1) as real, x)
  {}

  lemma NoneOf(x: real)
    ensures Scale(0.0, x) == 0.0
  {}

  lemma {:induction false} StepSpread(vals: Series, step: nat, k: nat, c: real)
    requires 0 < step <= k <= |vals| && step < |vals| && Constant(vals, 0, step) && Constant(vals, step, |vals|)
    ensures Spread(vals, k, c) == Scale(step as real, Abs(vals[0] - c)) + Scale((k - step) as real, Abs(vals[step] - c))
  {
    hide Scale, Abs;
    if k == step {
      LevelSpread(vals, step, step, c);
      NoneOf(Abs(vals[step] - c));
    } else {
      StepSpread(vals, step, k - 1, c);
      OneMore(k - 1 - step, Abs(vals[step] - c));
      assert vals[k - 1] == vals[step];
    }
  }

  lemma {:induction false} LevelDeviation(vals: Series, from: nat, to: nat, x: real, c: real)
    requires from <= to <= |vals| && forall i :: from <= i < to ==> vals[i] == x
    ensures Deviation(vals, from, to, c) == Scale((to - from) as real, Sq(x - c))
  {
    hide Sq, Scale;
    if from < to {
      LevelDeviation(vals, from, to - 1, x, c);
      OneMore(to - 1 - from, Sq(x - c));
    } else {
      NoneOf(Sq(x - c));
    }
  }

  /** A step's mean lies between its levels, at distances that weigh the other way. */
  lemma StepMean(vals: Series, step: nat)
    requires 0 < step < |vals| && Constant(vals, 0, step) && Constant(vals, step, |vals|)
    ensures Scale(step as real, vals[0] - Mean(vals)) == Scale((|vals| - step) as real, Mean(vals) - vals[step])
  {
    var n := |vals|;
    SumNone(vals);
    ConstantSum(vals, 0, step, vals[0]);
    ConstantSum(vals, step, n, vals[step]);
    DivisionInverts(Sum(vals, n), n as real);
    hide Sum, Scale;
    Weighs(step as real, (n - step) as real, vals[0], vals[step], Mean(vals));
  }

  lemma Weighs(i: real, j: real, x: real, y: real, m: real)
    requires (i + j) * m == i * x + j * y
    ensures Scale(i, x - m) == Scale(j, m - y)
  {
    assert (i + j) * m == i * m + j * m;
    assert i * (x - m) == i * x - i * m && j * (m - y) == j * m - j * y;
  }

  /** With i readings at distance u from the mean and j at distance w on its other side. */
  lemma StepQuotient(i: real, j: real, u: real, w: real)
    requires i > 0.0 && j > 0.0 && u > 0.0 && w > 0.0 && Scale(i, u) == Scale(j, w)
    ensures Scale(i, Sq(u)) + Scale(j, Sq(w)) > 0.0
    ensures (Scale(i, u) + Scale(j, w)) * (u + w) == 2.0 * (Scale(i, Sq(u)) + Scale(j, Sq(w)))
  {
    var z := i * u;
    PositiveReals(i, u);
    PositiveReals(z, u + w);
    assert z == j * w;
    assert i * (u * u) == z * u && j * (w * w) == z * w;
    assert z * (u + w) == z * u + z * w;
    assert (z + z) * (u + w) == 2.0 * (z * (u + w));
  }

  lemma PositiveReals(x: real, y: real)
    requires x > 0.0 && y > 0.0
    ensures x * y > 0.0
  {}

  lemma StepVariance(vals: Series, step: nat)
    requires 0 < step < |vals| && Constant(vals, 0, step) && Constant(vals, step, |vals|)
    ensures Variance(vals) ==
            Scale(step as real, Sq(vals[0] - Mean(vals))) + Scale((|vals| - step) as real, Sq(vals[step] - Mean(vals)))
  {
    hide Mean, Sq, Deviation, Scale;
    SplitDeviation(vals, step, |vals|, Mean(vals));
    LevelDeviation(vals, 0, step, vals[0], Mean(vals));
    LevelDeviation(vals, step, |vals|, vals[step], Mean(vals));
  }

  /** The distances of a step's levels from its mean, and what they make of spread and variance. */
  lemma StepTerms(vals: Series, step: nat)
    requires 0 < step < |vals| && Constant(vals, 0, step) && Constant(vals, step, |vals|)
    requires vals[0] != vals[step]
    ensures Variance(vals) > 0.0
    ensures Spread(vals, |vals|, Mean(vals)) * Abs(vals[0] - vals[step]) == 2.0 * Variance(vals)
  {
    hide Mean, Spread, Variance, Constant, Sq, Abs, Scale;
    var n, m := |vals|, Mean(vals);
    var i, j := step as real, (n - step) as real;
    StepMean(vals, step);
    StepVariance(vals, step);
    StepSpread(vals, step, n, m);
    Sides(i, j, vals[0], vals[step], m);
    SquareOfAbs(vals[0] - m);
    SquareOfAbs(vals[step] - m);
    StepQuotient(i, j, Abs(vals[0] - m), Abs(vals[step] - m));
  }

  lemma SquareOfAbs(x: real)
    ensures Sq(Abs(x)) == Sq(x)
  {}

  lemma SameSign(i: real, a: real)
    requires i > 0.0
    ensures (a > 0.0 <==> Scale(i, a) > 0.0) && (a < 0.0 <==> Scale(i, a) < 0.0) && Scale(i, -a) == -Scale(i, a)
  {
    if a > 0.0 { PositiveReals(i, a); }
    if a < 0.0 { PositiveReals(i, -a); }
    assert i * (-a) == -(i * a);
  }

  lemma Sides(i: real, j: real, x: real, y: real, m: real)
    requires i > 0.0 && j > 0.0 && x != y && Scale(i, x - m) == Scale(j, m - y)
    ensures var u, w := Abs(x - m), Abs(y - m); u > 0.0 && w > 0.0 && u + w == Abs(x - y) && Scale(i, u) == Scale(j, w)
  {
    hide Scale;
    var a, b := x - m, m - y;
    SameSign(i, a);
    SameSign(j, b);
    assert y - m == -b;
    if a > 0.0 { assert Abs(a) == a && Abs(-b) == b; } else { assert Abs(a) == -a && Abs(-b) == -b; }
  }

  lemma TieBreakIs(vals: Series)
    requires vals != [] && Variance(vals) > 0.0
    ensures TieBreak(vals) ==
            |vals| as real * (1.0 / 4503599627370496.0)
            + 8.0 * (|vals| as real * (1.0 / 4503599627370496.0) * Magnitude(vals, |vals|))
              * Spread(vals, |vals|, Mean(vals)) / Variance(vals)
  {
    hide Mean, Spread, Variance, Magnitude;
  }

  /** n machine epsilons of 2^-52, and sixteen times as many for every multiple of the distance between two
      levels that the larger of them is. */
  function StepError(n: nat, larger: real, apart: real): real
    requires apart > 0.0
  {
    n as real * (1.0 / 4503599627370496.0) + 16.0 * (n as real * (1.0 / 4503599627370496.0) * larger) / apart
  }

  /** What the null separability of n readings leaves unexplained. */
  function NullGap(n: nat): real
    requires n >= 2
  {
    if n % 2 == 1 then 1.0 / 4.0 else 1.0 - 3.0 * (n * n) as real / (4.0 * (n * n - 1) as real)
  }

  /** The tie-break of two levels: n machine epsilons, and sixteen times as many for every multiple of their
      distance that the larger magnitude is. */
  lemma StepTieBreak(vals: Series, step: nat)
    requires 0 < step < |vals| && Constant(vals, 0, step) && Constant(vals, step, |vals|)
    requires vals[0] != vals[step]
    ensures Abs(vals[0] - vals[step]) > 0.0
    ensures TieBreak(vals) == StepError(|vals|, Larger(Abs(vals[0]), Abs(vals[step])), Abs(vals[0] - vals[step]))
  {
    hide Mean, Spread, Variance, Magnitude, Abs, Larger, Constant, TieBreak;
    var delta := |vals| as real * (1.0 / 4503599627370496.0) * Larger(Abs(vals[0]), Abs(vals[step]));
    StepMagnitude(vals, step, |vals|);
    StepTerms(vals, step);
    TieBreakIs(vals);
    AbsPositive(vals[0] - vals[step]);
    EqualQuotients(8.0 * delta, Spread(vals, |vals|, Mean(vals)), Variance(vals), Abs(vals[0] - vals[step]));
  }

  /** So a step is signal exactly when that error stays below what the ramp of its length leaves unexplained. */
  lemma StepIsSignalIff(vals: Series, step: nat)
    requires 0 < step < |vals| && Constant(vals, 0, step) && Constant(vals, step, |vals|)
    requires vals[0] != vals[step]
    ensures Abs(vals[0] - vals[step]) > 0.0
    ensures SignalCount(vals) ==
            if StepError(|vals|, Larger(Abs(vals[0]), Abs(vals[step])), Abs(vals[0] - vals[step])) < NullGap(|vals|)
            then step else |vals|
  {
    hide Abs, Larger, Constant, TieBreak, SignalCount, NullRatio, StepError, NullGap;
    StepSeparates(vals, step);
    StepTieBreak(vals, step);
    NullLeaves(|vals|);
  }

  lemma NullLeaves(n: nat)
    requires n >= 2
    ensures 1.0 - NullRatio(n) == NullGap(n)
  {}

  lemma AbsPositive(x: real)
    requires x != 0.0
    ensures Abs(x) > 0.0
  {}

  lemma EqualQuotients(c: real, s: real, v: real, d: real)
    requires v > 0.0 && d > 0.0 && s * d == 2.0 * v
    ensures c * s / v == 2.0 * c / d && 2.0 * (8.0 * c) == 16.0 * c
  {
    var q := 2.0 * c / d;
    assert q * d == 2.0 * c;
    assert (q * v) * 2.0 == q * (s * d) == (q * d) * s == 2.0 * c * s;
    QuotientOf(c * s, v, q);
  }

  // ---- the tie-break does not depend on the scale ----

  lemma AbsScale(a: real, x: real)
    ensures Abs(Line(a, 0.0, x)) == Scale(Abs(a), Abs(x))
  {}

  lemma LineDifference(a: real, x: real, y: real)
    ensures Line(a, 0.0, x) - Line(a, 0.0, y) == Line(a, 0.0, x - y)
  {}

  lemma {:induction false} MagnitudeScale(vals: Series, a: real, k: nat)
    requires k <= |vals|
    ensures Magnitude(Affine(vals, a, 0.0), k) == Scale(Abs(a), Magnitude(vals, k))
  {
    hide Abs, Line, Scale;
    if k > 0 {
      MagnitudeScale(vals, a, k - 1);
      AbsScale(a, vals[k - 1]);
      MaxScale(Abs(a), Abs(vals[k - 1]), Magnitude(vals, k - 1));
    } else {
      ScaleSum(Abs(a), 0.0, 0.0);
    }
  }

  lemma MaxScale(c: real, x: real, y: real)
    requires c >= 0.0
    ensures (if Scale(c, x) > Scale(c, y) then Scale(c, x) else Scale(c, y)) == Scale(c, if x > y then x else y)
  {}

  lemma {:induction false} SpreadScale(vals: Series, a: real, k: nat, c: real)
    requires k <= |vals|
    ensures Spread(Affine(vals, a, 0.0), k, Line(a, 0.0, c)) == Scale(Abs(a), Spread(vals, k, c))
  {
    hide Abs, Line, Scale;
    if k > 0 {
      SpreadScale(vals, a, k - 1, c);
      LineDifference(a, vals[k - 1], c);
      AbsScale(a, vals[k - 1] - c);
      ScaleSum(Abs(a), Spread(vals, k - 1, c), Abs(vals[k - 1] - c));
    } else {
      ScaleSum(Abs(a), 0.0, 0.0);
    }
  }

  lemma TieBreakScale(vals: Series, a: real)
    requires vals != [] && a != 0.0
    ensures TieBreak(Affine(vals, a, 0.0)) == TieBreak(vals)
  {
    assert |Affine(vals, a, 0.0)| == |vals|;
    hide Affine, Sq, Abs, Magnitude, Spread, Mean, Variance, Scale, Line, TieBreakOf;
    MagnitudeScale(vals, a, |vals|);
    SpreadScale(vals, a, |vals|, Mean(vals));
    AffineMean(vals, a, 0.0);
    AffineVariance(vals, a, 0.0);
    TieBreakOfScale(a, |vals| as real, Magnitude(vals, |vals|), Spread(vals, |vals|, Mean(vals)), Variance(vals));
  }

  lemma TieBreakOfScale(a: real, n: real, m: real, s: real, v: real)
    requires a != 0.0
    ensures TieBreakOf(n, Scale(Abs(a), m), Scale(Abs(a), s), Scale(Sq(a), v)) == TieBreakOf(n, m, s, v)
  {
    SqPositive(a);
    AbsSquare(a);
    hide Abs, Sq;
    ScaleOrder(Sq(a), v, 0.0);
    if v > 0.0 {
      RegroupTerms(Abs(a), n * EPSILON, m, s);
      ScaleRatio(Sq(a), 8.0 * (n * EPSILON * m) * s, v);
      hide Scale;
    }
  }

  lemma AbsSquare(a: real)
    ensures Abs(a) * Abs(a) == Sq(a)
  {}

  lemma RegroupTerms(b: real, e: real, m: real, s: real)
    ensures 8.0 * (e * Scale(b, m)) * Scale(b, s) == Scale(b * b, 8.0 * (e * m) * s)
  {
    var x := e * m;
    assert e * (b * m) == b * x;
    assert (b * x) * (b * s) == (b * b) * (x * s);
    assert 8.0 * (b * x) * (b * s) == 8.0 * ((b * x) * (b * s));
    assert 8.0 * x * s == 8.0 * (x * s);
    assert (b * b) * (8.0 * (x * s)) == 8.0 * ((b * b) * (x * s));
  }

  /** Rescaling a series by a != 0 keeps the same leading readings as signal. */
  lemma ScaleKeepsSignal(vals: Series, a: real)
    requires a != 0.0
    ensures SignalCount(Affine(vals, a, 0.0)) == SignalCount(vals)
  {
    assert |Affine(vals, a, 0.0)| == |vals|;
    hide Affine, TieBreak, Cut, Ratio, NullRatio;
    AffineKeepsCut(vals, a, 0.0);
    if vals != [] { TieBreakScale(vals, a); }
  }
}
