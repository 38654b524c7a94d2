// calibrate_cusum_h: the alarm multiplier from the normalised no-reset sums of the calibration rows,
// and what it means for the alarms of the detector on those rows.
module CusumCalibration {
  import opened RealMath
  import opened Sequences
  import opened Ranks
  import opened Calibration
  import opened Cusum

  const H_MAX := 50.0

  /** The accumulators of the calibration: no decay, no reset. */
  const PLAIN := Config(1.0, H_MULT, true)

  /** A feature's tier-1 mean and deviation, which the calibration does not change. */
  datatype Stat = Stat(mu: real, sigma: real)

  datatype RawBatch = Batch(stats: seq<Stat>, rows: seq<seq<real>>)

  /** Calibration rows, each with a value for each of the detector's features. */
  type Batch = b: RawBatch | forall i :: 0 <= i < |b.rows| ==> |b.rows[i]| == |b.stats| witness Batch([], [])

  function ReadingAt(b: Batch, i: nat, j: nat): Reading
    requires i < |b.rows| && j < |b.stats|
  {
    Reading(b.rows[i][j], b.stats[j].mu, b.stats[j].sigma)
  }

  /** The first n readings of feature j. */
  function Column(b: Batch, j: nat, n: nat): (col: seq<Reading>)
    requires j < |b.stats| && n <= |b.rows|
    ensures |col| == n
  {
    seq(n, i requires 0 <= i < n => ReadingAt(b, i, j))
  }

  function SumsAt(b: Batch, j: nat, n: nat): Sums
    requires j < |b.stats| && n <= |b.rows|
  {
    Run(PLAIN, Column(b, j, n))
  }

  /** S / sigma of both sides, where sigma is positive. */
  function Normalised(s: Sums, sigma: real): seq<real> {
    if sigma > 0.0 then [s.high / sigma, s.low / sigma] else []
  }

  /** The normalised sums of row i, for the first j features. */
  function RowRatios(b: Batch, i: nat, j: nat): seq<real>
    requires i < |b.rows| && j <= |b.stats|
  {
    if j == 0 then []
    else RowRatios(b, i, j - 1) + Normalised(SumsAt(b, j - 1, i + 1), b.stats[j - 1].sigma)
  }

  /** The normalised sums of the first n rows. */
  function Ratios(b: Batch, n: nat): seq<real>
    requires n <= |b.rows|
  {
    if n == 0 then [] else Ratios(b, n - 1) + RowRatios(b, n - 1, |b.stats|)
  }

  function AllRatios(b: Batch): seq<real> {
    Ratios(b, |b.rows|)
  }

  lemma SumsStep(b: Batch, j: nat, i: nat)
    requires j < |b.stats| && i < |b.rows|
    ensures SumsAt(b, j, i + 1).high == NextHigh(1.0, SumsAt(b, j, i).high, ReadingAt(b, i, j))
    ensures SumsAt(b, j, i + 1).low == NextLow(1.0, SumsAt(b, j, i).low, ReadingAt(b, i, j))
    ensures SumsAt(b, j, 0) == ZERO
  {
    hide NextHigh, NextLow, Limit;
    assert Column(b, j, i + 1)[..i] == Column(b, j, i);
  }

  lemma BoundsHalf()
    ensures Half(H_MULT) && Half(H_MAX)
  {
    assert 2.0 * H_MULT == 10.0 && 2.0 * H_MAX == 100.0;
  }

  /** The multiplier these rows call for. */
  function Multiplier(b: Batch, target: real): real
    requires 0.0 <= target <= 1.0
  {
    Cutoff(AllRatios(b), target, H_MULT, H_MAX)
  }

  /** calibrate_cusum_h: a multiple of one half in [5, 50], and below 50 at most ceil(target * (m - 1))
      of the m normalised sums exceed it. */
  method CalibrateCusumH(b: Batch, target: real) returns (h: real)
    requires 0.0 <= target <= 1.0
    ensures h == Multiplier(b, target)
    ensures 5.0 <= h <= 50.0 && Half(h)
    ensures AllRatios(b) != [] && h < 50.0 ==> CountAbove(AllRatios(b), h) <= Allowed(|AllRatios(b)|, target)
  {
    hide Cutoff, Allowed, CountAbove, Half, Ratios;
    BoundsHalf();
    ghost var cut := CutoffFacts(AllRatios(b), target, H_MULT, H_MAX);
    var ratios := AccumulateRatios(b);
    h := Cutoff(ratios, target, H_MULT, H_MAX);
  }

  /** The accumulators hold the sums of i + 1 rows for the first j features and of i rows for the rest. */
  predicate Holds(b: Batch, sHigh: seq<real>, sLow: seq<real>, i: nat, j: nat)
    requires i <= |b.rows| && (j > 0 ==> i < |b.rows|)
  {
    && |sHigh| == |sLow| == |b.stats|
    && forall q :: 0 <= q < |b.stats| ==>
      var s := SumsAt(b, q, if q < j then i + 1 else i);
      s.high == sHigh[q] && s.low == sLow[q]
  }

  lemma HoldsOneMore(b: Batch, sHigh: seq<real>, sLow: seq<real>, i: nat, j: nat)
    requires i < |b.rows| && j < |b.stats| && Holds(b, sHigh, sLow, i, j)
    ensures var high, low := NextHigh(1.0, sHigh[j], ReadingAt(b, i, j)), NextLow(1.0, sLow[j], ReadingAt(b, i, j));
      && Holds(b, sHigh[j := high], sLow[j := low], i, j + 1)
      && SumsAt(b, j, i + 1).high == high && SumsAt(b, j, i + 1).low == low
  {
    SumsStep(b, j, i);
    hide SumsAt, NextHigh, NextLow, ReadingAt;
  }

  lemma HoldsRow(b: Batch, sHigh: seq<real>, sLow: seq<real>, i: nat)
    requires i < |b.rows| && Holds(b, sHigh, sLow, i, |b.stats|)
    ensures Holds(b, sHigh, sLow, i + 1, 0)
  {
    hide SumsAt;
  }

  /** The loop over the calibration rows. */
  method AccumulateRatios(b: Batch) returns (ratios: seq<real>)
    ensures ratios == AllRatios(b)
  {
    ratios := [];
    var d := |b.stats|;
    var sHigh, sLow := seq(d, _ => 0.0), seq(d, _ => 0.0);
    ZeroSums(b);
    RatiosStart(b, 0);
    hide SumsAt, NextHigh, NextLow, Normalised, ReadingAt, Max, RowRatios, Ratios;
    assert Holds(b, sHigh, sLow, 0, 0);
    hide Holds;
    for i := 0 to |b.rows|
      invariant |sHigh| == |sLow| == d && Holds(b, sHigh, sLow, i, 0)
      invariant ratios == Ratios(b, i)
    {
      for j := 0 to d
        invariant |sHigh| == |sLow| == d && Holds(b, sHigh, sLow, i, j)
        invariant ratios == Ratios(b, i) + RowRatios(b, i, j)
      {
        var r, sigma := ReadingAt(b, i, j), b.stats[j].sigma;
        HoldsOneMore(b, sHigh, sLow, i, j);
        RatiosOneMore(b, i, j, ratios);
        sHigh := sHigh[j := NextHigh(1.0, sHigh[j], r)];
        sLow := sLow[j := NextLow(1.0, sLow[j], r)];
        if sigma > 0.0 {
          ratios := ratios + [sHigh[j] / sigma];
          ratios := ratios + [sLow[j] / sigma];
        }
      }
      HoldsRow(b, sHigh, sLow, i);
      RatiosStart(b, i + 1);
    }
  }

  lemma RatiosStart(b: Batch, i: nat)
    requires i <= |b.rows|
    ensures i == 0 ==> Ratios(b, i) == []
    ensures i < |b.rows| ==> RowRatios(b, i, 0) == []
    ensures i > 0 ==> Ratios(b, i) == Ratios(b, i - 1) + RowRatios(b, i - 1, |b.stats|)
  {
  }

  /** One feature of row i adds both its normalised sums, or none. */
  lemma RatiosOneMore(b: Batch, i: nat, j: nat, ratios: seq<real>)
    requires i < |b.rows| && j < |b.stats| && ratios == Ratios(b, i) + RowRatios(b, i, j)
    ensures var s, sigma := SumsAt(b, j, i + 1), b.stats[j].sigma;
      var all := Ratios(b, i) + RowRatios(b, i, j + 1);
      && (sigma > 0.0 ==> ratios + [s.high / sigma] + [s.low / sigma] == all)
      && (sigma <= 0.0 ==> ratios == all)
  {
    hide SumsAt, Ratios;
  }

  lemma ZeroSums(b: Batch)
    ensures forall q :: 0 <= q < |b.stats| ==> SumsAt(b, q, 0) == ZERO
  {
  }

  // ----- what the multiplier means for alarms -----

  /** A detector without decay that alarms beyond h * sigma, with or without reset. */
  function Detector(h: real, noReset: bool): Config {
    Config(1.0, h, noReset)
  }

  /** Whether row i alarms for some feature, when the counts stood at warm before the first row. */
  predicate RowFlagged(c: Config, warm: nat, b: Batch, i: nat)
    requires i < |b.rows|
  {
    exists j :: 0 <= j < |b.stats| && FeatureFlagged(c, warm, b, i, j)
  }

  predicate FeatureFlagged(c: Config, warm: nat, b: Batch, i: nat, j: nat)
    requires i < |b.rows| && j < |b.stats|
  {
    AlarmFrom(c, warm, Column(b, j, i + 1))
  }

  function FlaggedRows(c: Config, warm: nat, b: Batch, n: nat): nat
    requires n <= |b.rows|
  {
    if n == 0 then 0 else FlaggedRows(c, warm, b, n - 1) + if RowFlagged(c, warm, b, n - 1) then 1 else 0
  }

  /** The rows on which the detector with the calibrated multiplier alarms. */
  function Alarmed(b: Batch, target: real, warm: nat, noReset: bool): nat
    requires 0.0 <= target <= 1.0
  {
    FlaggedRows(Detector(Multiplier(b, target), noReset), warm, b, |b.rows|)
  }

  lemma {:induction false} AboveConcat(a: seq<real>, b: seq<real>, v: real)
    ensures CountAbove(a + b, v) == CountAbove(a, v) + CountAbove(b, v)
  {
    if a == [] {
      assert a + b == b;
    } else {
      AboveConcat(a[1..], b, v);
      assert (a + b)[1..] == a[1..] + b;
    }
  }

  /** Without reset neither the limit nor the count influences the sums. */
  lemma {:induction false} LimitIrrelevant(h: real, warm: nat, rs: seq<Reading>)
    ensures var s, plain := RunFrom(Detector(h, true), warm, rs), Run(PLAIN, rs);
      s.high == plain.high && s.low == plain.low
  {
    hide Alarms, NextHigh, NextLow;
    if rs != [] {
      LimitIrrelevant(h, warm, rs[..|rs| - 1]);
    }
  }

  lemma AboveQuotient(s: real, sigma: real, h: real)
    requires sigma > 0.0
    ensures s > h * sigma <==> s / sigma > h
  {
    QuotientTimes(s, sigma);
    var q := s / sigma;
    if q <= h {
      MulMonotone(q, h, sigma);
    } else {
      ProductPositive(q - h, sigma);
      assert (q - h) * sigma == q * sigma - h * sigma;
    }
  }

  lemma PositiveFactor(h: real, sigma: real)
    requires h > 0.0 && h * sigma > 0.0
    ensures sigma > 0.0
  {
    if sigma <= 0.0 {
      MulMonotone(sigma, 0.0, h);
    }
  }

  lemma OneAbove(s: Sums, sigma: real, h: real)
    requires sigma > 0.0 && (s.high > h * sigma || s.low > h * sigma)
    ensures CountAbove(Normalised(s, sigma), h) >= 1
  {
    AboveQuotient(s.high, sigma, h);
    AboveQuotient(s.low, sigma, h);
    assert Normalised(s, sigma)[1..] == [s.low / sigma];
  }

  /** An alarm of the no-reset detector, on the plain sums. */
  lemma AlarmSide(h: real, warm: nat, col: seq<Reading>)
    requires col != [] && AlarmFrom(Detector(h, true), warm, col)
    ensures var s, limit := Run(PLAIN, col), Limit(Detector(h, true), col[|col| - 1].sigma);
      0.0 < limit && (s.high > limit || s.low > limit)
  {
    hide NextHigh, NextLow, Limit;
    LimitIrrelevant(h, warm, col);
  }

  /** An alarm of either detector shows among the normalised sums of its row and feature. */
  lemma AlarmShows(h: real, noReset: bool, warm: nat, b: Batch, i: nat, j: nat)
    requires i < |b.rows| && j < |b.stats| && h > 0.0
    ensures FeatureFlagged(Detector(h, noReset), warm, b, i, j) ==>
      CountAbove(Normalised(SumsAt(b, j, i + 1), b.stats[j].sigma), h) >= 1
  {
    hide AlarmFrom, RunFrom, CountAbove, Normalised;
    var col, sigma := Column(b, j, i + 1), b.stats[j].sigma;
    ResetAlarmsSubset(Detector(h, noReset), warm, col);
    if AlarmFrom(Detector(h, noReset), warm, col) {
      AlarmSide(h, warm, col);
      assert Limit(Detector(h, true), sigma) == h * sigma;
      PositiveFactor(h, sigma);
      OneAbove(SumsAt(b, j, i + 1), sigma, h);
    }
  }

  lemma {:induction false} RowShows(h: real, noReset: bool, warm: nat, b: Batch, i: nat, j: nat)
    requires i < |b.rows| && j <= |b.stats| && h > 0.0
    ensures (exists q :: 0 <= q < j && FeatureFlagged(Detector(h, noReset), warm, b, i, q)) ==>
      CountAbove(RowRatios(b, i, j), h) >= 1
  {
    hide FeatureFlagged, Normalised, CountAbove, SumsAt;
    if j > 0 {
      RowShows(h, noReset, warm, b, i, j - 1);
      AlarmShows(h, noReset, warm, b, i, j - 1);
      AboveConcat(RowRatios(b, i, j - 1), Normalised(SumsAt(b, j - 1, i + 1), b.stats[j - 1].sigma), h);
    }
  }

  lemma {:induction false} FlaggedShow(h: real, noReset: bool, warm: nat, b: Batch, n: nat)
    requires n <= |b.rows| && h > 0.0
    ensures FlaggedRows(Detector(h, noReset), warm, b, n) <= CountAbove(Ratios(b, n), h)
    ensures FlaggedRows(Detector(h, noReset), warm, b, n) <= n
  {
    hide FeatureFlagged, RowRatios, CountAbove;
    if n > 0 {
      FlaggedShow(h, noReset, warm, b, n - 1);
      RowShows(h, noReset, warm, b, n - 1, |b.stats|);
      AboveConcat(Ratios(b, n - 1), RowRatios(b, n - 1, |b.stats|), h);
    }
  }

  /** The upper bound of 50 did not cut the multiplier, or cut nothing off. */
  predicate Uncapped(b: Batch, target: real)
    requires 0.0 <= target <= 1.0
  {
    Multiplier(b, target) < H_MAX || forall i :: 0 <= i < |AllRatios(b)| ==> AllRatios(b)[i] <= H_MAX
  }

  lemma AllowanceBound(b: Batch, target: real)
    requires 0.0 <= target <= 1.0 && Uncapped(b, target) && AllRatios(b) != []
    ensures CountAbove(AllRatios(b), Multiplier(b, target)) <= Allowed(|AllRatios(b)|, target)
  {
    hide Cutoff, Ratios, CountAbove, Allowed, Half;
    BoundsHalf();
    var h := CutoffFacts(AllRatios(b), target, H_MULT, H_MAX);
    AllowedNonNegative(|AllRatios(b)|, target);
    if h == H_MAX {
      AboveAtMost(AllRatios(b), h, |AllRatios(b)|);
    }
  }

  lemma MultiplierBounds(b: Batch, target: real)
    requires 0.0 <= target <= 1.0
    ensures H_MULT <= Multiplier(b, target) <= H_MAX
  {
    hide Cutoff, Ratios, Half;
    BoundsHalf();
    var h := CutoffFacts(AllRatios(b), target, H_MULT, H_MAX);
  }

  /** Over its own calibration rows, however warm and with or without reset, the detector with the
      calibrated multiplier alarms on at most ceil(target * (m - 1)) rows, m being the number of
      normalised sums, unless 50 cut it; and on none when no deviation is positive. */
  lemma CalibratedAlarms(b: Batch, target: real, warm: nat, noReset: bool)
    requires 0.0 <= target <= 1.0
    ensures Alarmed(b, target, warm, noReset) <= |b.rows|
    ensures AllRatios(b) != [] && Uncapped(b, target) ==>
      Alarmed(b, target, warm, noReset) <= Allowed(|AllRatios(b)|, target)
    ensures AllRatios(b) == [] ==> Alarmed(b, target, warm, noReset) == 0
  {
    hide Multiplier, Ratios, FlaggedRows, CountAbove, Allowed, Uncapped;
    MultiplierBounds(b, target);
    FlaggedShow(Multiplier(b, target), noReset, warm, b, |b.rows|);
    if AllRatios(b) == [] {
      NothingAbove(Multiplier(b, target));
    } else if Uncapped(b, target) {
      AllowanceBound(b, target);
    }
  }

  lemma NothingAbove(h: real)
    ensures CountAbove([], h) == 0
  {
  }
}
