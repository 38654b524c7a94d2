// The scorers with memory: DSPOT's frozen drift window, EWMA smoothing, and the rank transform under
// our own detector.
module StreamScores {
  import opened RealMath
  import opened Sequences
  import opened Ranks
  import opened Calibration
  import Slots

  // ----- DSPOT: what one training column fixes -----

  datatype Fit = Fit(threshold: real, scale: real)

  function Mean(xs: seq<real>): real {
    if xs == [] then 0.0 else Sum(xs) / |xs| as real
  }

  function Variance(xs: seq<real>): real {
    var m := Mean(xs);
    Mean(Map(xs, (x: real) => (x - m) * (x - m)))
  }

  function MomentScale(m: real, v: real): real
    requires v != 0.0
  {
    0.5 * m * (m * m / v + 1.0)
  }

  /** Method-of-moments scale of the exceedances, with its fallback for two or fewer. */
  function MsScale(ex: seq<real>, fallback: real): (r: real)
    ensures 0.01 <= r
  {
    if |ex| > 2 then
      var m, v := Mean(ex), Variance(ex);
      if v + 0.00000001 == 0.0 then 0.01 else Max(MomentScale(m, v + 0.00000001), 0.01)
    else Max(fallback, 0.1)
  }

  lemma {:induction false} SquaresNonNegative(xs: seq<real>, m: real)
    ensures 0.0 <= Sum(Map(xs, (x: real) => (x - m) * (x - m)))
  {
    if xs != [] {
      var n := |xs| - 1;
      var f := (x: real) => (x - m) * (x - m);
      SquaresNonNegative(xs[..n], m);
      assert Map(xs, f)[..n] == Map(xs[..n], f);
      SquareNonNegative(xs[n] - m);
    }
  }

  lemma SquareNonNegative(x: real)
    ensures 0.0 <= x * x
  {
  }

  lemma RatioNonNegative(x: real, y: real)
    requires 0.0 <= x && 0.0 < y
    ensures 0.0 <= x / y
  {
  }

  /** The generalised Pareto distribution of shape xi and this scale has mean m and variance v:
      m = scale / (1 - xi) and v = scale^2 / ((1 - xi)^2 (1 - 2 xi)), cleared of quotients. */
  predicate ParetoMoments(m: real, v: real, xi: real, scale: real) {
    scale == m * (1.0 - xi) && v * (1.0 - 2.0 * xi) == m * m
  }

  lemma MomentAlgebra(m: real, v: real) returns (xi: real)
    requires 0.0 < v
    ensures ParetoMoments(m, v, xi, MomentScale(m, v))
  {
    var r := m * m / v;
    assert r * v == m * m;
    xi := 0.5 * (1.0 - r);
    assert 1.0 - 2.0 * xi == r;
  }

  lemma VarianceIs(xs: seq<real>)
    requires xs != []
    ensures var m := Sum(xs) / |xs| as real;
      Mean(xs) == m && Variance(xs) == Sum(Map(xs, (x: real) => (x - m) * (x - m))) / |xs| as real
    ensures 0.0 <= Variance(xs)
  {
    SquaresNonNegative(xs, Mean(xs));
    RatioNonNegative(Sum(Map(xs, (x: real) => (x - Mean(xs)) * (x - Mean(xs)))), |xs| as real);
  }

  /** More than two exceedances: the scale, floored at 0.01, is that of the generalised Pareto
      distribution whose mean and variance (plus 1e-8) are theirs. The guard on a zero divisor never
      fires. */
  lemma MomentsMatched(ex: seq<real>, fallback: real) returns (xi: real, scale: real)
    requires |ex| > 2
    ensures MsScale(ex, fallback) == Max(scale, 0.01)
    ensures 0.0 <= Variance(ex)
    ensures ParetoMoments(Mean(ex), Variance(ex) + 0.00000001, xi, scale)
  {
    VarianceIs(ex);
    ManyScale(ex, fallback);
    hide Variance, Mean, Max, MomentScale, MsScale, ParetoMoments;
    var v := Variance(ex) + 0.00000001;
    xi := MomentAlgebra(Mean(ex), v);
    scale := MomentScale(Mean(ex), v);
  }

  lemma ManyScale(ex: seq<real>, fallback: real)
    requires |ex| > 2 && 0.0 < Variance(ex) + 0.00000001
    ensures MsScale(ex, fallback) == Max(MomentScale(Mean(ex), Variance(ex) + 0.00000001), 0.01)
  {
    hide Variance, Mean, Max, MomentScale;
  }

  /** v[lo:i] with lo = max(0, i - depth) */
  function Before(v: seq<real>, i: nat, depth: nat): seq<real>
    requires i <= |v|
  {
    v[if depth < i then i - depth else 0..i]
  }

  function TrainResidual(v: seq<real>, i: nat, depth: nat): real
    requires i < |v|
  {
    var past := Before(v, i, depth);
    if past == [] then 0.0 else v[i] - Mean(past)
  }

  function TrainResiduals(v: seq<real>, depth: nat): seq<real> {
    seq(|v|, i requires 0 <= i < |v| => TrainResidual(v, i, depth))
  }

  /** A training residual is the distance from the mean of the depth values before it, or of all of
      them where there are fewer; the first one, and every one at depth 0, is 0. */
  lemma TrainResidualIs(v: seq<real>, i: nat, depth: nat)
    requires i < |v|
    ensures i == 0 || depth == 0 ==> TrainResidual(v, i, depth) == 0.0
    ensures 0 < i <= depth ==> TrainResidual(v, i, depth) == v[i] - Sum(v[..i]) / i as real
    ensures 0 < depth < i ==> TrainResidual(v, i, depth) == v[i] - Sum(v[i - depth..i]) / depth as real
  {
    assert v[0..i] == v[..i];
  }

  /** v[v > t] */
  function Above(xs: seq<real>, t: real): seq<real> {
    if xs == [] then [] else Above(xs[..|xs| - 1], t) + if xs[|xs| - 1] > t then [xs[|xs| - 1]] else []
  }

  function Excesses(xs: seq<real>, t: real): seq<real> {
    Map(Above(xs, t), (x: real) => x - t)
  }

  /** Exactly the values above t are taken, each as often as it occurs. */
  lemma {:induction false} AboveAre(xs: seq<real>, t: real, v: real)
    ensures multiset(Above(xs, t))[v] == if v > t then multiset(xs)[v] else 0
  {
    if xs != [] {
      var n := |xs| - 1;
      AboveAre(xs[..n], t, v);
      assert xs == xs[..n] + [xs[n]];
      MultiplicityLast(xs[..n], xs[n], v);
      MultiplicityLast(Above(xs[..n], t), xs[n], v);
    }
  }

  lemma MultiplicityLast(xs: seq<real>, x: real, v: real)
    ensures multiset(xs + [x])[v] == multiset(xs)[v] + if x == v then 1 else 0
  {
  }

  lemma SortKeepsLength(xs: seq<real>)
    ensures |Sort(xs, Identity)| == |xs|
  {
    SortFacts(xs, Identity);
    assert |multiset(Sort(xs, Identity))| == |multiset(xs)|;
  }

  /** The q quantile of some values and the scale of what lies beyond it; sqrt is the standard library's. */
  function FitValues(sqrt: real -> real, xs: seq<real>, q: real): (fit: Fit)
    requires xs != [] && 0.0 <= q <= 1.0
    ensures 0.01 <= fit.scale
  {
    SortKeepsLength(xs);
    var t := Pctl(Sort(xs, Identity), q * 100.0).value;
    Fit(t, MsScale(Excesses(xs, t), sqrt(Variance(xs))))
  }

  lemma QuantileExceeded(xs: seq<real>, q: real)
    requires xs != [] && 0.0 <= q <= 1.0
    ensures |Sort(xs, Identity)| == |xs|
    ensures CountAbove(xs, Pctl(Sort(xs, Identity), q * 100.0).value) <= Allowed(|xs|, 1.0 - q)
  {
    hide Pctl, CountAbove, Sort, Allowed;
    SortedValues(xs);
    assert 1.0 - (1.0 - q) == q;
    ExceedanceBound(Sort(xs, Identity), 1.0 - q);
  }

  /** No more than ceil((1 - q) * (n - 1)) of the values exceed the fitted threshold. */
  lemma FitExceeded(sqrt: real -> real, xs: seq<real>, q: real)
    requires xs != [] && 0.0 <= q <= 1.0
    ensures CountAbove(xs, FitValues(sqrt, xs, q).threshold) <= Ceil((1.0 - q) * (|xs| - 1) as real)
  {
    hide Pctl, CountAbove, Sort, MsScale, Ceil, Variance, Excesses;
    QuantileExceeded(xs, q);
  }

  /** Threshold and scale of a column, from its residuals. */
  function FitColumn(sqrt: real -> real, v: seq<real>, q: real, depth: nat): (fit: Fit)
    requires v != [] && 0.0 <= q <= 1.0
    ensures 0.01 <= fit.scale
  {
    FitValues(sqrt, TrainResiduals(v, depth), q)
  }

  /** The same bound for a column: it is the column's training residuals that the threshold is a quantile
      of. */
  lemma FitColumnExceeded(sqrt: real -> real, v: seq<real>, q: real, depth: nat)
    requires v != [] && 0.0 <= q <= 1.0
    ensures CountAbove(TrainResiduals(v, depth), FitColumn(sqrt, v, q, depth).threshold)
         <= Ceil((1.0 - q) * (|v| - 1) as real)
  {
    hide FitValues, CountAbove, Ceil, TrainResidual;
    FitExceeded(sqrt, TrainResiduals(v, depth), q);
  }

  lemma {:induction false} AboveSize(xs: seq<real>, t: real)
    ensures |Above(xs, t)| == CountAbove(xs, t)
  {
    if xs != [] {
      var n := |xs| - 1;
      AboveSize(xs[..n], t);
      CountAboveLast(xs[..n], xs[n], t);
      assert xs == xs[..n] + [xs[n]];
    }
  }

  /** The scale comes from the values beyond the threshold: with more than two of them by their moments,
      else the deviation of all values, at least 0.1. */
  lemma FitScale(sqrt: real -> real, xs: seq<real>, q: real) returns (xi: real, scale: real)
    requires xs != [] && 0.0 <= q <= 1.0
    ensures var fit := FitValues(sqrt, xs, q);
      var ex := Map(Above(xs, fit.threshold), (x: real) => x - fit.threshold);
      && |ex| == CountAbove(xs, fit.threshold)
      && (|ex| <= 2 ==> fit.scale == Max(sqrt(Variance(xs)), 0.1))
      && (|ex| > 2 ==>
           fit.scale == Max(scale, 0.01) && ParetoMoments(Mean(ex), Variance(ex) + 0.00000001, xi, scale))
  {
    var fit := FitValues(sqrt, xs, q);
    FitIs(sqrt, xs, q);
    var ex := Excesses(xs, fit.threshold);
    AboveSize(xs, fit.threshold);
    FewScale(ex, sqrt(Variance(xs)));
    xi, scale := 0.0, 0.0;
    if |ex| > 2 {
      hide FitValues, MsScale, Variance, Mean, ParetoMoments, Max, Above;
      xi, scale := MomentsMatched(ex, sqrt(Variance(xs)));
    }
  }

  lemma FitIs(sqrt: real -> real, xs: seq<real>, q: real)
    requires xs != [] && 0.0 <= q <= 1.0
    ensures var fit := FitValues(sqrt, xs, q);
      fit.scale == MsScale(Excesses(xs, fit.threshold), sqrt(Variance(xs)))
  {
    hide MsScale, Excesses, Variance, Pctl, Sort;
  }

  lemma FewScale(ex: seq<real>, fallback: real)
    ensures |ex| <= 2 ==> MsScale(ex, fallback) == Max(fallback, 0.1)
  {
  }

  /** v[-depth:]; a depth of 0 keeps everything, as Python's slice does. */
  function LastOf(v: seq<real>, depth: nat): seq<real> {
    if depth == 0 || |v| <= depth then v else v[|v| - depth..]
  }

  // ----- DSPOT: the test stream -----

  /** The drift window and the scores so far. */
  datatype Drift = Drift(hist: seq<real>, scores: seq<real>)

  function Residual(hist: seq<real>, x: real): real {
    if hist == [] then 0.0 else x - Mean(hist)
  }

  predicate Alarms(fit: Fit, hist: seq<real>, x: real) {
    Residual(hist, x) > fit.threshold
  }

  function Score(fit: Fit, hist: seq<real>, x: real): real
    requires 0.0 < fit.scale
  {
    if Alarms(fit, hist, x) then (Residual(hist, x) - fit.threshold) / fit.scale else 0.0
  }

  /** Only a window at or below the threshold joins the drift window. */
  function Advance(fit: Fit, depth: nat, hist: seq<real>, x: real): seq<real> {
    if Alarms(fit, hist, x) then hist
    else if |hist| + 1 > depth then (hist + [x])[1..]
    else hist + [x]
  }

  function RunColumn(fit: Fit, depth: nat, hist0: seq<real>, col: seq<real>): (d: Drift)
    requires 0.0 < fit.scale
    ensures |d.scores| == |col|
  {
    if col == [] then Drift(hist0, [])
    else
      var n := |col| - 1;
      var d := RunColumn(fit, depth, hist0, col[..n]);
      Drift(Advance(fit, depth, d.hist, col[n]), d.scores + [Score(fit, d.hist, col[n])])
  }

  // ----- DSPOT: what a score is, by the values and the scores before it -----

  /** The last n values. */
  function Tail(v: seq<real>, n: nat): seq<real> {
    if |v| <= n then v else v[|v| - n..]
  }

  /** The values whose score is 0. */
  function Unalarmed(xs: seq<real>, scores: seq<real>): seq<real>
    requires |xs| == |scores|
  {
    if xs == [] then []
    else
      var n := |xs| - 1;
      Unalarmed(xs[..n], scores[..n]) + if scores[n] == 0.0 then [xs[n]] else []
  }

  /** What window i is compared with: the last values of the training tail and the unalarmed windows
      before it, as many as depth or as the training tail has. */
  function WindowAt(hist0: seq<real>, depth: nat, col: seq<real>, scores: seq<real>, i: nat): seq<real>
    requires i <= |col| == |scores|
  {
    Tail(hist0 + Unalarmed(col[..i], scores[..i]), if |hist0| < depth then depth else |hist0|)
  }

  /** How far value i lies from its window's mean beyond the threshold, in units of the scale. */
  function Amount(fit: Fit, hist0: seq<real>, depth: nat, col: seq<real>, scores: seq<real>, i: nat): real
    requires 0.0 < fit.scale && i < |col| == |scores|
  {
    var h := WindowAt(hist0, depth, col, scores, i);
    var drift := if h == [] then col[i] else Sum(h) / |h| as real;
    (col[i] - drift - fit.threshold) / fit.scale
  }

  lemma TailSlides(v: seq<real>, n: nat, x: real)
    ensures n > 0 ==> var h := Tail(v, n); Tail(v + [x], n) == if |h| + 1 > n then (h + [x])[1..] else h + [x]
    ensures n == 0 ==> Tail(v, n) == []
  {
  }

  lemma AdvanceSlides(fit: Fit, depth: nat, hist0: seq<real>, seen: seq<real>, x: real)
    requires 0.0 < fit.scale
    ensures var n := if |hist0| < depth then depth else |hist0|; var h := Tail(hist0 + seen, n);
      !Alarms(fit, h, x) ==> Advance(fit, depth, h, x) == Tail(hist0 + (seen + [x]), n)
  {
    hide Alarms;
    var n := if |hist0| < depth then depth else |hist0|;
    TailSlides(hist0 + seen, n, x);
    assert hist0 + (seen + [x]) == (hist0 + seen) + [x];
    if n == 0 {
      assert Tail(hist0 + (seen + [x]), n) == [];
    }
  }

  /** The drift window after any run. */
  lemma {:induction false} WindowIs(fit: Fit, depth: nat, hist0: seq<real>, col: seq<real>)
    requires 0.0 < fit.scale
    ensures var d := RunColumn(fit, depth, hist0, col);
      d.hist == Tail(hist0 + Unalarmed(col, d.scores), if |hist0| < depth then depth else |hist0|)
  {
    if col == [] {
      assert hist0 + [] == hist0;
    } else {
      var n := |col| - 1;
      var d, d' := RunColumn(fit, depth, hist0, col[..n]), RunColumn(fit, depth, hist0, col);
      WindowIs(fit, depth, hist0, col[..n]);
      assert d'.scores[..n] == d.scores;
      var seen := Unalarmed(col[..n], d.scores);
      assert Unalarmed(col, d'.scores) == seen + if d'.scores[n] == 0.0 then [col[n]] else [];
      hide RunColumn, Unalarmed, Tail, Score, Advance, Alarms;
      assert seen + [] == seen;
      AdvanceSlides(fit, depth, hist0, seen, col[n]);
      AlarmIffScored(fit, d.hist, col[n]);
      if Alarms(fit, d.hist, col[n]) {
        AlarmFreezes(fit, depth, d.hist, col[n]);
      }
    }
  }

  lemma ScoreIs(fit: Fit, hist: seq<real>, x: real)
    requires 0.0 < fit.scale
    ensures var drift := if hist == [] then x else Sum(hist) / |hist| as real;
      Score(fit, hist, x) == Max(0.0, (x - drift - fit.threshold) / fit.scale)
  {
    var resid := Residual(hist, x);
    QuotientSigns(resid - fit.threshold, fit.scale);
  }

  lemma QuotientSigns(x: real, y: real)
    requires 0.0 < y
    ensures 0.0 < x ==> 0.0 < x / y
    ensures x <= 0.0 ==> x / y <= 0.0
  {
  }

  /** Every score of a column is what its value exceeds the threshold by, against the last unalarmed
      values before it, or 0. */
  lemma {:induction false} ScoresAre(fit: Fit, depth: nat, hist0: seq<real>, col: seq<real>, i: nat)
    requires 0.0 < fit.scale && i < |col|
    ensures var scores := RunColumn(fit, depth, hist0, col).scores;
      scores[i] == Max(0.0, Amount(fit, hist0, depth, col, scores, i))
  {
    var d := RunColumn(fit, depth, hist0, col[..i]);
    ScoreByPrefix(fit, depth, hist0, col, i);
    WindowIs(fit, depth, hist0, col[..i]);
    hide RunColumn, Score, Unalarmed, Tail, Max;
    ScoreIs(fit, d.hist, col[i]);
  }

  lemma ScoreByPrefix(fit: Fit, depth: nat, hist0: seq<real>, col: seq<real>, i: nat)
    requires 0.0 < fit.scale && i < |col|
    ensures var d, scores := RunColumn(fit, depth, hist0, col[..i]), RunColumn(fit, depth, hist0, col).scores;
      scores[..i] == d.scores && scores[i] == Score(fit, d.hist, col[i])
  {
    hide Score, Advance;
    ColumnPrefix(fit, depth, hist0, col, i);
    ColumnPrefix(fit, depth, hist0, col, i + 1);
    assert col[..i + 1][..i] == col[..i];
    var d, scores := RunColumn(fit, depth, hist0, col[..i]), RunColumn(fit, depth, hist0, col).scores;
    assert scores[i] == scores[..i + 1][i];
  }

  /** The inner loop of dspot_scores. */
  method DspotColumn(fit: Fit, depth: nat, hist0: seq<real>, col: seq<real>) returns (out: seq<real>, hist: seq<real>)
    requires 0.0 < fit.scale
    ensures Drift(hist, out) == RunColumn(fit, depth, hist0, col)
    ensures |out| == |col|
    ensures forall i :: 0 <= i < |col| ==> out[i] == Max(0.0, Amount(fit, hist0, depth, col, out, i))
  {
    hide Mean, Amount, Max;
    var buffer := new real[|col|](_ => 0.0);
    hist := hist0;
    for i := 0 to |col|
      invariant Drift(hist, buffer[..i]) == RunColumn(fit, depth, hist0, col[..i])
    {
      assert col[..i + 1][..i] == col[..i];
      var x := col[i];
      var m := if hist == [] then x else Mean(hist);
      var resid := x - m;
      if resid > fit.threshold {
        buffer[i] := (resid - fit.threshold) / fit.scale;
      } else {
        buffer[i] := 0.0;
        hist := hist + [x];
        if |hist| > depth {
          hist := hist[1..];
        }
      }
      assert buffer[..i + 1] == buffer[..i] + [buffer[i]];
    }
    assert col[..|col|] == col;
    out := buffer[..];
    assert buffer[..|col|] == buffer[..];
    forall i | 0 <= i < |col| ensures out[i] == Max(0.0, Amount(fit, hist0, depth, col, out, i)) {
      ScoresAre(fit, depth, hist0, col, i);
    }
  }

  datatype Column = Column(fit: Fit, hist0: seq<real>)

  predicate Scaled(cols: seq<Column>) {
    forall j :: 0 <= j < |cols| ==> 0.0 < cols[j].fit.scale
  }

  /** A row holds a value for each of the first d columns. */
  predicate Wide(rows: seq<seq<real>>, d: nat) {
    forall i :: 0 <= i < |rows| ==> d <= |rows[i]|
  }

  function Values(rows: seq<seq<real>>, j: nat): (v: seq<real>)
    requires Wide(rows, j + 1)
    ensures |v| == |rows|
  {
    seq(|rows|, i requires 0 <= i < |rows| => rows[i][j])
  }

  function MaxEach(a: seq<real>, b: seq<real>): (c: seq<real>)
    requires |a| == |b|
    ensures |c| == |a|
    ensures forall i :: 0 <= i < |c| ==> c[i] == Max(a[i], b[i])
  {
    seq(|a|, i requires 0 <= i < |a| => Max(a[i], b[i]))
  }

  function Zeros(n: nat): seq<real> {
    seq(n, _ => 0.0)
  }

  function ColumnScores(cols: seq<Column>, depth: nat, rows: seq<seq<real>>, j: nat): (s: seq<real>)
    requires Scaled(cols) && j < |cols| && Wide(rows, |cols|)
    ensures |s| == |rows|
  {
    RunColumn(cols[j].fit, depth, cols[j].hist0, Values(rows, j)).scores
  }

  /** The maximum, starting from 0, over the first d columns. */
  function Combined(cols: seq<Column>, depth: nat, rows: seq<seq<real>>, d: nat): (s: seq<real>)
    requires Scaled(cols) && d <= |cols| && Wide(rows, |cols|)
    ensures |s| == |rows|
  {
    if d == 0 then Zeros(|rows|)
    else MaxEach(Combined(cols, depth, rows, d - 1), ColumnScores(cols, depth, rows, d - 1))
  }

  /** s is the largest of the amounts, or 0 where all of them are negative. */
  predicate MaxWithZero(s: real, amounts: seq<real>) {
    && 0.0 <= s
    && (forall j :: 0 <= j < |amounts| ==> amounts[j] <= s)
    && (s == 0.0 || s in amounts)
  }

  lemma MaxOfMore(s: real, amounts: seq<real>, a: real, most: real)
    requires MaxWithZero(s, amounts) && most == Max(s, Max(0.0, a))
    ensures MaxWithZero(most, amounts + [a])
  {
    assert a in amounts + [a] && forall x :: x in amounts ==> x in amounts + [a];
  }

  function AmountAt(cols: seq<Column>, depth: nat, rows: seq<seq<real>>, j: nat, i: nat): real
    requires Scaled(cols) && j < |cols| && Wide(rows, |cols|) && i < |rows|
  {
    Amount(cols[j].fit, cols[j].hist0, depth, Values(rows, j), ColumnScores(cols, depth, rows, j), i)
  }

  /** Row i's amount in each of the first d columns. */
  function RowAmounts(cols: seq<Column>, depth: nat, rows: seq<seq<real>>, d: nat, i: nat): (amounts: seq<real>)
    requires Scaled(cols) && d <= |cols| && Wide(rows, |cols|) && i < |rows|
    ensures |amounts| == d
  {
    seq(d, j requires 0 <= j < d => AmountAt(cols, depth, rows, j, i))
  }

  lemma RowAmountsStep(cols: seq<Column>, depth: nat, rows: seq<seq<real>>, d: nat, i: nat)
    requires Scaled(cols) && 0 < d <= |cols| && Wide(rows, |cols|) && i < |rows|
    ensures RowAmounts(cols, depth, rows, d, i)
         == RowAmounts(cols, depth, rows, d - 1, i) + [AmountAt(cols, depth, rows, d - 1, i)]
  {
    hide AmountAt;
  }

  /** A row's score is the largest of its amounts, or 0. */
  lemma {:induction false} CombinedIs(cols: seq<Column>, depth: nat, rows: seq<seq<real>>, d: nat, i: nat)
    requires Scaled(cols) && d <= |cols| && Wide(rows, |cols|) && i < |rows|
    ensures MaxWithZero(Combined(cols, depth, rows, d)[i], RowAmounts(cols, depth, rows, d, i))
  {
    if d > 0 {
      hide RunColumn, Amount;
      CombinedIs(cols, depth, rows, d - 1, i);
      RowAmountsStep(cols, depth, rows, d, i);
      hide MaxWithZero, RowAmounts;
      var c := cols[d - 1];
      ScoresAre(c.fit, depth, c.hist0, Values(rows, d - 1), i);
      MaxOfMore(Combined(cols, depth, rows, d - 1)[i], RowAmounts(cols, depth, rows, d - 1, i),
        AmountAt(cols, depth, rows, d - 1, i), Combined(cols, depth, rows, d)[i]);
    }
  }

  /** Value i is above its window's mean by more than the threshold. */
  predicate Exceeds(fit: Fit, hist0: seq<real>, depth: nat, col: seq<real>, scores: seq<real>, i: nat)
    requires i < |col| == |scores|
  {
    var h := WindowAt(hist0, depth, col, scores, i);
    col[i] - (if h == [] then col[i] else Sum(h) / |h| as real) > fit.threshold
  }

  lemma PositiveAmount(fit: Fit, hist0: seq<real>, depth: nat, col: seq<real>, scores: seq<real>, i: nat)
    requires 0.0 < fit.scale && i < |col| == |scores|
    ensures 0.0 < Amount(fit, hist0, depth, col, scores, i) <==> Exceeds(fit, hist0, depth, col, scores, i)
  {
    hide WindowAt, Sum;
    var h := WindowAt(hist0, depth, col, scores, i);
    QuotientSigns(col[i] - (if h == [] then col[i] else Sum(h) / |h| as real) - fit.threshold, fit.scale);
  }

  /** So a row alarms exactly when some column's value does that. */
  lemma AlarmIffExceeds(cols: seq<Column>, depth: nat, rows: seq<seq<real>>, i: nat)
    requires Scaled(cols) && Wide(rows, |cols|) && i < |rows|
    ensures 0.0 < Combined(cols, depth, rows, |cols|)[i] <==> (
      exists j :: 0 <= j < |cols| && (
        Exceeds(cols[j].fit, cols[j].hist0, depth, Values(rows, j), ColumnScores(cols, depth, rows, j), i)))
  {
    hide Combined, ColumnScores, Amount, Exceeds;
    CombinedIs(cols, depth, rows, |cols|, i);
    var amounts := RowAmounts(cols, depth, rows, |cols|, i);
    forall j | 0 <= j < |cols|
      ensures 0.0 < amounts[j] <==>
        Exceeds(cols[j].fit, cols[j].hist0, depth, Values(rows, j), ColumnScores(cols, depth, rows, j), i)
    {
      PositiveAmount(cols[j].fit, cols[j].hist0, depth, Values(rows, j), ColumnScores(cols, depth, rows, j), i);
    }
  }

  function FitColumns(sqrt: real -> real, train: seq<seq<real>>, q: real, depth: nat): (cols: seq<Column>)
    requires 0.0 <= q <= 1.0 && forall j :: 0 <= j < |train| ==> train[j] != []
    ensures |cols| == |train| && Scaled(cols)
  {
    seq(|train|, j requires 0 <= j < |train| =>
      Column(FitColumn(sqrt, train[j], q, depth), LastOf(train[j], depth)))
  }

  /** dspot_scores: train is given column by column, test row by row. */
  method DspotScores(sqrt: real -> real, train: seq<seq<real>>, test: seq<seq<real>>, q: real, depth: nat)
    returns (S: seq<real>)
    requires 0.0 <= q <= 1.0 && Wide(test, |train|) && forall j :: 0 <= j < |train| ==> train[j] != []
    ensures S == Combined(FitColumns(sqrt, train, q, depth), depth, test, |train|)
    ensures forall i :: 0 <= i < |test| ==>
      MaxWithZero(S[i], RowAmounts(FitColumns(sqrt, train, q, depth), depth, test, |train|, i))
  {
    hide RunColumn, FitColumn, MaxWithZero, RowAmounts;
    var cols := FitColumns(sqrt, train, q, depth);
    forall i | 0 <= i < |test| ensures MaxWithZero(Combined(cols, depth, test, |train|)[i],
        RowAmounts(cols, depth, test, |train|, i))
    {
      CombinedIs(cols, depth, test, |train|, i);
    }
    S := Zeros(|test|);
    for j := 0 to |train|
      invariant S == Combined(cols, depth, test, j)
    {
      var out, hist := DspotColumn(cols[j].fit, depth, cols[j].hist0, Values(test, j));
      S := MaxEach(S, out);
    }
  }

  // ----- what the drift window guarantees -----

  /** A window alarms exactly when its score is positive. */
  lemma AlarmIffScored(fit: Fit, hist: seq<real>, x: real)
    requires 0.0 < fit.scale
    ensures 0.0 <= Score(fit, hist, x)
    ensures 0.0 < Score(fit, hist, x) <==> Alarms(fit, hist, x)
  {
    if Alarms(fit, hist, x) {
      PositiveQuotient(Residual(hist, x) - fit.threshold, fit.scale);
    }
  }

  lemma PositiveQuotient(x: real, y: real)
    requires 0.0 < x && 0.0 < y
    ensures 0.0 < x / y
  {
  }

  /** Scores of a prefix do not change when windows are appended. */
  lemma {:induction false} ColumnPrefix(fit: Fit, depth: nat, hist0: seq<real>, col: seq<real>, k: nat)
    requires 0.0 < fit.scale && k <= |col|
    ensures RunColumn(fit, depth, hist0, col).scores[..k] == RunColumn(fit, depth, hist0, col[..k]).scores
  {
    if k < |col| {
      var n := |col| - 1;
      ColumnPrefix(fit, depth, hist0, col[..n], k);
      assert col[..n][..k] == col[..k];
    } else {
      assert col[..k] == col;
    }
  }

  function Keep<T>(xs: seq<T>, mask: seq<bool>): seq<T>
    requires |xs| == |mask|
  {
    if xs == [] then []
    else Keep(xs[..|xs| - 1], mask[..|xs| - 1]) + if mask[|xs| - 1] then [xs[|xs| - 1]] else []
  }

  /** Deleting any set of alarming windows changes no remaining score and not the drift window: a
      flood leaves no trace. */
  lemma {:induction false} DeleteAlarms(fit: Fit, depth: nat, hist0: seq<real>, col: seq<real>, mask: seq<bool>)
    requires 0.0 < fit.scale && |mask| == |col|
    requires forall i :: 0 <= i < |col| && !mask[i] ==> 0.0 < RunColumn(fit, depth, hist0, col).scores[i]
    ensures var whole, kept := RunColumn(fit, depth, hist0, col), RunColumn(fit, depth, hist0, Keep(col, mask));
      kept.hist == whole.hist && kept.scores == Keep(whole.scores, mask)
  {
    if col != [] {
      hide Score, Advance;
      var n := |col| - 1;
      var d := RunColumn(fit, depth, hist0, col[..n]);
      var whole := RunColumn(fit, depth, hist0, col);
      assert whole.scores[..n] == d.scores;
      DeleteAlarms(fit, depth, hist0, col[..n], mask[..n]);
      var kept := Keep(col[..n], mask[..n]);
      if mask[n] {
        assert (kept + [col[n]])[..|kept|] == kept;
      } else {
        assert whole.scores[n] == Score(fit, d.hist, col[n]);
        AlarmFreezes(fit, depth, d.hist, col[n]);
        assert kept + [] == kept;
      }
    }
  }

  lemma AlarmFreezes(fit: Fit, depth: nat, hist: seq<real>, x: real)
    requires 0.0 < fit.scale && 0.0 < Score(fit, hist, x)
    ensures Advance(fit, depth, hist, x) == hist
  {
    AlarmIffScored(fit, hist, x);
  }

  /** The drift window never outgrows its depth, given one that started within it. */
  lemma {:induction false} WindowBounded(fit: Fit, depth: nat, hist0: seq<real>, col: seq<real>)
    requires 0.0 < fit.scale && |hist0| <= depth
    ensures |RunColumn(fit, depth, hist0, col).hist| <= depth
  {
    if col != [] {
      WindowBounded(fit, depth, hist0, col[..|col| - 1]);
    }
  }

  /** And it starts within it for every nonempty training column exactly when depth is positive. */
  lemma InitialWindow(v: seq<real>, depth: nat)
    requires v != []
    ensures |LastOf(v, depth)| <= depth <==> depth > 0
  {
  }

  lemma {:induction false} AllUnalarmed(xs: seq<real>, scores: seq<real>)
    requires |xs| == |scores| && forall i :: 0 <= i < |scores| ==> scores[i] == 0.0
    ensures Unalarmed(xs, scores) == xs
  {
    if xs != [] {
      var n := |xs| - 1;
      AllUnalarmed(xs[..n], scores[..n]);
      assert xs == xs[..n] + [xs[n]];
    }
  }

  /** Without alarms the window is the last depth values seen, oldest first. */
  lemma WindowSlides(fit: Fit, depth: nat, hist0: seq<real>, col: seq<real>)
    requires 0.0 < fit.scale && 0 < depth && |hist0| <= depth
    requires forall i :: 0 <= i < |col| ==> RunColumn(fit, depth, hist0, col).scores[i] == 0.0
    ensures RunColumn(fit, depth, hist0, col).hist == LastOf(hist0 + col, depth)
  {
    hide RunColumn, Unalarmed;
    WindowIs(fit, depth, hist0, col);
    AllUnalarmed(col, RunColumn(fit, depth, hist0, col).scores);
  }

  lemma {:induction false} CombinedPrefix(cols: seq<Column>, depth: nat, rows: seq<seq<real>>, d: nat, k: nat)
    requires Scaled(cols) && d <= |cols| && Wide(rows, |cols|) && k <= |rows|
    ensures Combined(cols, depth, rows, d)[..k] == Combined(cols, depth, rows[..k], d)
  {
    hide RunColumn;
    if d > 0 {
      CombinedPrefix(cols, depth, rows, d - 1, k);
      ColumnPrefix(cols[d - 1].fit, depth, cols[d - 1].hist0, Values(rows, d - 1), k);
      assert Values(rows, d - 1)[..k] == Values(rows[..k], d - 1);
    }
  }

  lemma {:induction false} KeepSize<T, U>(xs: seq<T>, ys: seq<U>, mask: seq<bool>)
    requires |xs| == |ys| == |mask|
    ensures |Keep(xs, mask)| == |Keep(ys, mask)|
  {
    if xs != [] {
      KeepSize(xs[..|xs| - 1], ys[..|xs| - 1], mask[..|xs| - 1]);
    }
  }

  lemma {:induction false} KeepMaxEach(a: seq<real>, b: seq<real>, mask: seq<bool>)
    requires |a| == |b| == |mask|
    ensures |Keep(a, mask)| == |Keep(b, mask)|
    ensures Keep(MaxEach(a, b), mask) == MaxEach(Keep(a, mask), Keep(b, mask))
  {
    KeepSize(a, b, mask);
    if a != [] {
      var n := |a| - 1;
      KeepMaxEach(a[..n], b[..n], mask[..n]);
      assert MaxEach(a, b)[..n] == MaxEach(a[..n], b[..n]);
      KeepSize(a[..n], b[..n], mask[..n]);
    }
  }

  lemma {:induction false} KeepZeros(xs: seq<real>, mask: seq<bool>)
    requires |xs| == |mask| && forall i :: 0 <= i < |xs| ==> xs[i] == 0.0
    ensures forall i :: 0 <= i < |Keep(xs, mask)| ==> Keep(xs, mask)[i] == 0.0
  {
    if xs != [] {
      KeepZeros(xs[..|xs| - 1], mask[..|xs| - 1]);
    }
  }

  lemma {:induction false} KeepWide(rows: seq<seq<real>>, mask: seq<bool>, d: nat)
    requires |rows| == |mask| && Wide(rows, d)
    ensures Wide(Keep(rows, mask), d)
  {
    if rows != [] {
      KeepWide(rows[..|rows| - 1], mask[..|rows| - 1], d);
    }
  }

  lemma ValuesAppend(rows: seq<seq<real>>, row: seq<real>, j: nat)
    requires Wide(rows, j + 1) && j < |row|
    ensures Wide(rows + [row], j + 1) && Values(rows + [row], j) == Values(rows, j) + [row[j]]
  {
  }

  lemma {:induction false} KeepValues(rows: seq<seq<real>>, mask: seq<bool>, j: nat)
    requires |rows| == |mask| && Wide(rows, j + 1)
    ensures Wide(Keep(rows, mask), j + 1)
    ensures Values(Keep(rows, mask), j) == Keep(Values(rows, j), mask)
  {
    KeepWide(rows, mask, j + 1);
    if rows != [] {
      var n := |rows| - 1;
      KeepValues(rows[..n], mask[..n], j);
      assert rows == rows[..n] + [rows[n]];
      ValuesAppend(rows[..n], rows[n], j);
      assert Values(rows, j)[..n] == Values(rows[..n], j);
      ValuesAppend(Keep(rows[..n], mask[..n]), rows[n], j);
      hide Values, Wide;
    }
  }

  lemma KeepNoColumns(rows: seq<seq<real>>, mask: seq<bool>)
    requires |rows| == |mask|
    ensures Keep(Zeros(|rows|), mask) == Zeros(|Keep(rows, mask)|)
  {
    hide Keep;
    KeepZeros(Zeros(|rows|), mask);
    KeepSize(Zeros(|rows|), rows, mask);
  }

  /** Over all features: deleting rows that alarm in every column leaves the scores of the others. */
  lemma {:induction false} DeleteAlarmingRows(cols: seq<Column>, depth: nat, rows: seq<seq<real>>, mask: seq<bool>,
      d: nat)
    requires Scaled(cols) && d <= |cols| && Wide(rows, |cols|) && |mask| == |rows|
    requires forall i, j :: 0 <= i < |rows| && 0 <= j < |cols| && !mask[i] ==>
      0.0 < ColumnScores(cols, depth, rows, j)[i]
    ensures Wide(Keep(rows, mask), |cols|)
    ensures Combined(cols, depth, Keep(rows, mask), d) == Keep(Combined(cols, depth, rows, d), mask)
  {
    hide RunColumn, Keep;
    KeepWide(rows, mask, |cols|);
    if d == 0 {
      KeepNoColumns(rows, mask);
    } else {
      KeepValues(rows, mask, d - 1);
      DeleteAlarmingRows(cols, depth, rows, mask, d - 1);
      var c := cols[d - 1];
      var scores := ColumnScores(cols, depth, rows, d - 1);
      assert scores == RunColumn(c.fit, depth, c.hist0, Values(rows, d - 1)).scores;
      forall i | 0 <= i < |rows| && !mask[i] ensures 0.0 < scores[i] {
        assert 0.0 < ColumnScores(cols, depth, rows, d - 1)[i];
      }
      DeleteAlarms(c.fit, depth, c.hist0, Values(rows, d - 1), mask);
      KeepMaxEach(Combined(cols, depth, rows, d - 1), ColumnScores(cols, depth, rows, d - 1), mask);
    }
  }

  // ----- EWMA smoothing -----

  /** The state after a stream that began at cur. */
  function Smooth(alpha: real, cur: real, s: seq<real>): real {
    if s == [] then cur else alpha * s[|s| - 1] + (1.0 - alpha) * Smooth(alpha, cur, s[..|s| - 1])
  }

  function SmoothAll(alpha: real, cur: real, s: seq<real>): (out: seq<real>)
    ensures |out| == |s|
  {
    if s == [] then [] else SmoothAll(alpha, cur, s[..|s| - 1]) + [Smooth(alpha, cur, s)]
  }

  /** ewma() */
  method Ewma(s: seq<real>, alpha: real) returns (out: seq<real>)
    ensures out == SmoothAll(alpha, 0.0, s)
  {
    var buffer := new real[|s|](_ => 0.0);
    var cur := 0.0;
    for i := 0 to |s|
      invariant cur == Smooth(alpha, 0.0, s[..i])
      invariant buffer[..i] == SmoothAll(alpha, 0.0, s[..i])
    {
      assert s[..i + 1][..i] == s[..i];
      cur := alpha * s[i] + (1.0 - alpha) * cur;
      buffer[i] := cur;
      assert buffer[..i + 1] == buffer[..i] + [cur];
    }
    assert s[..|s|] == s;
    out := buffer[..];
    assert buffer[..|s|] == buffer[..];
  }

  lemma {:induction false} SmoothAllAt(alpha: real, cur: real, s: seq<real>, i: nat)
    requires i < |s|
    ensures SmoothAll(alpha, cur, s)[i] == Smooth(alpha, cur, s[..i + 1])
  {
    if i + 1 < |s| {
      SmoothAllAt(alpha, cur, s[..|s| - 1], i);
      assert s[..|s| - 1][..i + 1] == s[..i + 1];
    } else {
      assert s[..i + 1] == s;
    }
  }

  lemma {:induction false} SmoothPrefix(alpha: real, cur: real, s: seq<real>, k: nat)
    requires k <= |s|
    ensures SmoothAll(alpha, cur, s)[..k] == SmoothAll(alpha, cur, s[..k])
  {
    if k < |s| {
      SmoothPrefix(alpha, cur, s[..|s| - 1], k);
      assert s[..|s| - 1][..k] == s[..k];
    } else {
      assert s[..k] == s;
    }
  }

  lemma {:induction false} SmoothConcat(alpha: real, cur: real, a: seq<real>, b: seq<real>)
    ensures Smooth(alpha, cur, a + b) == Smooth(alpha, Smooth(alpha, cur, a), b)
  {
    if b == [] {
      assert a + b == a;
    } else {
      assert (a + b)[..|a + b| - 1] == a + b[..|b| - 1];
      SmoothConcat(alpha, cur, a, b[..|b| - 1]);
    }
  }

  lemma GapAlgebra(keep: real, u: real, v: real, p: real, gap: real, x: real)
    requires u - v == p * gap
    ensures (x + keep * u) - (x + keep * v) == (keep * p) * gap
  {
    assert keep * u - keep * v == keep * (u - v);
    assert keep * (p * gap) == (keep * p) * gap;
  }

  /** The same stream from two states: the gap shrinks by 1 - alpha per step, exactly. */
  lemma {:induction false} SmoothGap(alpha: real, a: real, b: real, s: seq<real>)
    ensures Smooth(alpha, a, s) - Smooth(alpha, b, s) == Pow(1.0 - alpha, |s|) * (a - b)
  {
    if s != [] {
      var n := |s| - 1;
      SmoothGap(alpha, a, b, s[..n]);
      GapAlgebra(1.0 - alpha, Smooth(alpha, a, s[..n]), Smooth(alpha, b, s[..n]), Pow(1.0 - alpha, n), a - b,
        alpha * s[n]);
    }
  }

  /** What excision removes: window i of a common tail differs between two pasts by (1 - alpha)^(i+1)
      times the difference of the states the pasts left behind. */
  lemma PastFades(alpha: real, p: seq<real>, q: seq<real>, tail: seq<real>, i: nat)
    requires i < |tail|
    ensures SmoothAll(alpha, 0.0, p + tail)[|p| + i] - SmoothAll(alpha, 0.0, q + tail)[|q| + i]
         == Pow(1.0 - alpha, i + 1) * (Smooth(alpha, 0.0, p) - Smooth(alpha, 0.0, q))
  {
    hide Smooth, SmoothAll;
    SmoothAllAt(alpha, 0.0, p + tail, |p| + i);
    SmoothAllAt(alpha, 0.0, q + tail, |q| + i);
    assert (p + tail)[..|p| + i + 1] == p + tail[..i + 1];
    assert (q + tail)[..|q| + i + 1] == q + tail[..i + 1];
    SmoothConcat(alpha, 0.0, p, tail[..i + 1]);
    SmoothConcat(alpha, 0.0, q, tail[..i + 1]);
    SmoothGap(alpha, Smooth(alpha, 0.0, p), Smooth(alpha, 0.0, q), tail[..i + 1]);
  }

  /** The state is the exponentially weighted mean of the stream, begun at cur. */
  lemma {:induction false} SmoothIsWeighted(alpha: real, cur: real, s: seq<real>)
    ensures Smooth(alpha, cur, s) == Slots.WeightedSum(alpha, [cur] + s)
  {
    hide Slots.WeightedSum;
    if s == [] {
      assert [cur] + s == [cur];
      Slots.WeightedSumStep(alpha, [], cur);
    } else {
      var n := |s| - 1;
      SmoothIsWeighted(alpha, cur, s[..n]);
      Slots.WeightedSumStep(alpha, [cur] + s[..n], s[n]);
      assert [cur] + s == [cur] + s[..n] + [s[n]];
    }
  }

  /** So it stays among the values smoothed and the value begun at; a constant stream stays put. */
  lemma SmoothBetween(alpha: real, cur: real, s: seq<real>, lo: real, hi: real)
    requires 0.0 <= alpha <= 1.0 && lo <= cur <= hi && forall i :: 0 <= i < |s| ==> lo <= s[i] <= hi
    ensures lo <= Smooth(alpha, cur, s) <= hi
  {
    hide Smooth, Slots.WeightedSum, Slots.Squares, Slots.Chord;
    SmoothIsWeighted(alpha, cur, s);
    Slots.MomentBounds(alpha, [cur] + s, lo, hi);
  }

  /** Window i of ewma() is the weighted mean of 0 and the values up to it. */
  lemma EwmaIsWeighted(alpha: real, s: seq<real>, i: nat)
    requires i < |s|
    ensures SmoothAll(alpha, 0.0, s)[i] == Slots.WeightedSum(alpha, [0.0] + s[..i + 1])
  {
    SmoothAllAt(alpha, 0.0, s, i);
    SmoothIsWeighted(alpha, 0.0, s[..i + 1]);
  }

  // ----- subspace_q_ewma: ranks of the residual energy, smoothed -----

  const RANK_SLACK := 0.000000000001

  function Slackened(q: real): real {
    q - RANK_SLACK * Max(1.0, q)
  }

  /** N - searchsorted(sort(Qtr), q, side='left'): training energies at or above q. */
  function AtOrAbove(qtr: seq<real>, q: real): nat {
    CountEqual(qtr, Slackened(q)) + CountAbove(qtr, Slackened(q))
  }

  function TailShare(qtr: seq<real>, q: real): real {
    (AtOrAbove(qtr, q) + 1) as real / (|qtr| + 1) as real
  }

  /** The last stage of subspace_q_ewma, with minus the logarithm left abstract. */
  function SubspaceScores(negLog: real -> real, alpha: real, qtr: seq<real>, qte: seq<real>): (s: seq<real>)
    ensures |s| == |qte|
  {
    SmoothAll(alpha, 0.0, Map(qte, (q: real) => negLog(TailShare(qtr, q))))
  }

  /** Causal: appending test rows changes no earlier score. */
  lemma SubspacePrefix(negLog: real -> real, alpha: real, qtr: seq<real>, qte: seq<real>, k: nat)
    requires k <= |qte|
    ensures SubspaceScores(negLog, alpha, qtr, qte)[..k] == SubspaceScores(negLog, alpha, qtr, qte[..k])
  {
    var f := (q: real) => negLog(TailShare(qtr, q));
    SmoothPrefix(alpha, 0.0, Map(qte, f), k);
    assert Map(qte, f)[..k] == Map(qte[..k], f);
  }

  lemma {:induction false} BelowMonotone(xs: seq<real>, u: real, v: real)
    requires u <= v
    ensures CountBelow(xs, u) <= CountBelow(xs, v)
  {
    if xs != [] {
      BelowMonotone(xs[1..], u, v);
    }
  }

  /** The share counts the training energies at or above the slackened test energy, one more than there
      are on both sides of the fraction. */
  lemma {:induction false} AtOrAboveIs(qtr: seq<real>, q: real)
    ensures AtOrAbove(qtr, q) == |set i: nat | i < |qtr| && qtr[i] >= q - 0.000000000001 * Max(1.0, q)|
  {
    var cut := q - 0.000000000001 * Max(1.0, q);
    assert Slackened(q) == cut;
    hide Slackened, Max;
    AtLeastIs(qtr, cut);
  }

  lemma {:induction false} AtLeastIs(xs: seq<real>, v: real)
    ensures CountEqual(xs, v) + CountAbove(xs, v) == |set i: nat | i < |xs| && xs[i] >= v|
  {
    var at := set i: nat | i < |xs| && xs[i] >= v;
    if xs == [] {
      assert at == {};
    } else {
      var n := |xs| - 1;
      AtLeastIs(xs[..n], v);
      CountAboveLast(xs[..n], xs[n], v);
      CountsConcat(xs[..n], [xs[n]], v);
      assert xs == xs[..n] + [xs[n]];
      assert [xs[n]][1..] == [];
      var before := set i: nat | i < n && xs[..n][i] >= v;
      assert at == before + if xs[n] >= v then {n} else {};
    }
  }

  /** More residual energy never means a larger tail share: the share is in (0, 1], so a decreasing
      negLog makes the score increase with the energy. */
  lemma TailShareAntitone(qtr: seq<real>, u: real, v: real)
    requires u <= v
    ensures 0.0 < TailShare(qtr, v) <= TailShare(qtr, u) <= 1.0
  {
    assert Slackened(u) <= Slackened(v);
    BelowMonotone(qtr, Slackened(u), Slackened(v));
    CountsPartition(qtr, Slackened(u));
    CountsPartition(qtr, Slackened(v));
    Shares(AtOrAbove(qtr, v) + 1, AtOrAbove(qtr, u) + 1, |qtr| + 1);
  }

  lemma Shares(a: nat, b: nat, n: nat)
    requires 0 < a <= b <= n
    ensures 0.0 < a as real / n as real <= b as real / n as real <= 1.0
  {
    var m := n as real;
    PositiveQuotient(a as real, m);
    QuotientTimes(a as real, m);
    QuotientTimes(b as real, m);
    DivideOut(a as real / m, b as real / m, m);
    DivideOut(b as real / m, 1.0, m);
  }
}
