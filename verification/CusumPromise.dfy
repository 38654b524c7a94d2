// The rates that calibrate_cusum_h is meant to keep, on the calibration rows themselves: exactly when
// they are kept, and the data that breaks them.
module CusumPromise {
  import opened RealMath
  import opened Sequences
  import opened Ranks
  import opened Calibration
  import opened Cusum
  import opened CusumCalibration

  /** Rates, means and deviations are never negative. */
  predicate Plausible(b: Batch) {
    && (forall j :: 0 <= j < |b.stats| ==> 0.0 <= b.stats[j].mu && 0.0 <= b.stats[j].sigma)
    && forall i, j :: 0 <= i < |b.rows| && 0 <= j < |b.stats| ==> 0.0 <= b.rows[i][j]
  }

  // ----- a surge: one feature jumps in each of the last rows -----

  /** d features with mean 0 and deviation 1; the first reads level + 1/4 in the last a of n rows, and all
      else is 0. */
  function Surge(d: nat, n: nat, a: nat, level: real): Batch {
    Batch(
      seq(d, _ => Stat(0.0, 1.0)),
      seq(n, i => seq(d, j => if j == 0 && i >= n - a then level + 0.25 else 0.0)))
  }

  lemma {:induction false} SurgeSums(d: nat, n: nat, a: nat, level: real, j: nat, i: nat)
    requires a <= n && 0.0 < level && j < d && i <= n
    ensures var s := SumsAt(Surge(d, n, a, level), j, i);
      && s.low == 0.0
      && (j > 0 || i <= n - a ==> s.high == 0.0)
      && (j == 0 && i > n - a ==> level <= s.high)
      && (j == 0 && i == n - a + 1 ==> s.high == level)
  {
    var b := Surge(d, n, a, level);
    if i == 0 {
      ZeroSums(b);
    } else {
      SurgeSums(d, n, a, level, j, i - 1);
      SumsStep(b, j, i - 1);
      hide SumsAt;
      assert ReadingAt(b, i - 1, j) == Reading(if j == 0 && i - 1 >= n - a then level + 0.25 else 0.0, 0.0, 1.0);
    }
  }

  lemma PairAbove(high: real, low: real)
    requires 0.0 <= high && 0.0 <= low
    ensures CountAbove([high, low], 0.0) == (if high > 0.0 then 1 else 0) + (if low > 0.0 then 1 else 0)
  {
    var one, two := [low], [high, low];
    NothingAbove(0.0);
    assert one[1..] == [] && two[1..] == one;
    assert CountAbove(one, 0.0) == (if low > 0.0 then 1 else 0) + CountAbove([], 0.0);
    assert CountAbove(two, 0.0) == (if high > 0.0 then 1 else 0) + CountAbove(one, 0.0);
  }

  lemma UnitSigma(s: Sums)
    ensures Normalised(s, 1.0) == [s.high, s.low]
  {
  }

  lemma {:induction false} SurgeRow(d: nat, n: nat, a: nat, level: real, i: nat, j: nat)
    requires a <= n && 0.0 < level && i < n && j <= d
    ensures var ratios := RowRatios(Surge(d, n, a, level), i, j);
      && |ratios| == 2 * j
      && (forall q :: 0 <= q < |ratios| ==> ratios[q] == 0.0 || level <= ratios[q])
      && CountAbove(ratios, 0.0) == (if j > 0 && i >= n - a then 1 else 0)
      && (j > 0 && i == n - a ==> level in ratios)
  {
    hide SumsAt, CountAbove;
    if j == 0 {
      NothingAbove(0.0);
    } else {
      SurgeRow(d, n, a, level, i, j - 1);
      SurgeSums(d, n, a, level, j - 1, i + 1);
      var b := Surge(d, n, a, level);
      var s := SumsAt(b, j - 1, i + 1);
      assert b.stats[j - 1].sigma == 1.0;
      UnitSigma(s);
      PairAbove(s.high, s.low);
      hide Surge, Normalised;
      AboveConcat(RowRatios(b, i, j - 1), [s.high, s.low], 0.0);
      assert s.high in [s.high, s.low];
    }
  }

  lemma {:induction false} SurgeRatios(d: nat, n: nat, a: nat, level: real, k: nat)
    requires a <= n && 0.0 < level && d > 0 && k <= n
    ensures var ratios := Ratios(Surge(d, n, a, level), k);
      && |ratios| == k * (2 * d)
      && Spread(ratios, level, if k > n - a then k - (n - a) else 0)
  {
    hide RowRatios, CountAbove;
    if k == 0 {
      NothingAbove(0.0);
    } else {
      SurgeRatios(d, n, a, level, k - 1);
      SurgeRow(d, n, a, level, k - 1, d);
      var b := Surge(d, n, a, level);
      assert |b.stats| == d;
      hide Surge;
      AboveConcat(Ratios(b, k - 1), RowRatios(b, k - 1, d), 0.0);
      OneRowMore(k - 1, 2 * d);
    }
  }

  // ----- a hold: one feature keeps both of its sums up -----

  /** The deviation of row i from the mean. */
  function HoldDeviation(k: nat, e: nat, level: real, i: nat): real {
    if i == 0 then 2.0 * level + k as real + 0.25
    else if i < k - e then 0.25
    else if i == k - e then -(level + 0.25)
    else -0.25
  }

  function Hold(k: nat, e: nat, level: real): Batch {
    Batch(
      [Stat(level + 0.25, 1.0)],
      seq(k, i requires 0 <= i < k => [level + 0.25 + HoldDeviation(k, e, level, i)]))
  }

  lemma {:induction false} HoldSums(k: nat, e: nat, level: real, i: nat)
    requires 0 < e < k && 0.0 < level && 0 < i <= k
    ensures var s := SumsAt(Hold(k, e, level), 0, i);
      if i <= k - e then s.high == 2.0 * level + k as real && s.low == 0.0
      else s.high == level + k as real - 0.5 * (i - (k - e)) as real && s.low == level
  {
    var b := Hold(k, e, level);
    SumsStep(b, 0, i - 1);
    if i > 1 {
      HoldSums(k, e, level, i - 1);
    }
    hide SumsAt;
    var dev := HoldDeviation(k, e, level, i - 1);
    assert ReadingAt(b, i - 1, 0) == Reading(level + 0.25 + dev, level + 0.25, 1.0);
  }

  lemma HoldRow(k: nat, e: nat, level: real, i: nat)
    requires 0 < e < k && 0.0 < level && i < k
    ensures var ratios := RowRatios(Hold(k, e, level), i, 1);
      && |ratios| == 2
      && (forall q :: 0 <= q < 2 ==> ratios[q] == 0.0 || level <= ratios[q])
      && CountAbove(ratios, 0.0) == (if i < k - e then 1 else 2)
      && (i >= k - e ==> level in ratios)
  {
    hide SumsAt, CountAbove;
    var b := Hold(k, e, level);
    HoldSums(k, e, level, i + 1);
    var s := SumsAt(b, 0, i + 1);
    assert RowRatios(b, i, 0) == [];
    UnitSigma(s);
    assert RowRatios(b, i, 1) == [] + [s.high, s.low] == [s.high, s.low];
    assert level <= s.high;
    PairAbove(s.high, s.low);
  }

  lemma {:induction false} HoldRatios(k: nat, e: nat, level: real, n: nat)
    requires 0 < e < k && 0.0 < level && n <= k
    ensures var ratios := Ratios(Hold(k, e, level), n);
      && |ratios| == 2 * n
      && (forall q :: 0 <= q < |ratios| ==> ratios[q] == 0.0 || level <= ratios[q])
      && CountAbove(ratios, 0.0) == n + (if n > k - e then n - (k - e) else 0)
      && (n > k - e ==> level in ratios)
  {
    hide RowRatios, CountAbove;
    if n == 0 {
      NothingAbove(0.0);
    } else {
      HoldRatios(k, e, level, n - 1);
      HoldRow(k, e, level, n - 1);
      var b := Hold(k, e, level);
      assert |b.stats| == 1;
      hide Hold;
      AboveConcat(Ratios(b, n - 1), RowRatios(b, n - 1, 1), 0.0);
    }
  }

  /** Any number of high sums but all 2k is reachable with k rows of one feature. */
  lemma SpreadReached(k: nat, a: nat, level: real) returns (b: Batch)
    requires 0 < k && a < 2 * k && 0.0 < level
    ensures Plausible(b) && |AllRatios(b)| == 2 * k && Spread(AllRatios(b), level, a)
  {
    hide Ratios, CountAbove;
    if a <= k {
      b := Surge(1, k, a, level);
      SurgeRatios(1, k, a, level, k);
    } else {
      b := Hold(k, a - k, level);
      HoldRatios(k, a - k, level, k);
    }
  }

  // ----- the share of normalised sums -----

  /** At most the target share of the normalised sums exceeds the multiplier. */
  predicate ShareKept(b: Batch, target: real)
    requires 0.0 <= target <= 1.0
  {
    CountAbove(AllRatios(b), Multiplier(b, target)) as real <= target * |AllRatios(b)| as real
  }

  ghost predicate AllSharesKept(k: nat, target: real)
    requires 0.0 <= target <= 1.0
  {
    forall b: Batch :: Plausible(b) && |AllRatios(b)| == 2 * k && Uncapped(b, target) ==> ShareKept(b, target)
  }

  /** The source means at most the target share of the sums to exceed the multiplier. While 50 cuts
      nothing off, that holds for all rows with 2k sums exactly when
      ceil(target * (2k - 1)) <= target * 2k. */
  lemma SharePromise(k: nat, target: real)
    requires 0.0 <= target <= 1.0 && k > 0
    ensures AllSharesKept(k, target) <==> Allowed(2 * k, target) as real <= target * (2 * k) as real
  {
    hide Ratios, CountAbove, Multiplier, Allowed, Plausible, Uncapped;
    var worst := ShareReached(k, target);
    assert ShareKept(worst, target) <==> Allowed(2 * k, target) as real <= target * (2 * k) as real;
    forall b: Batch | |AllRatios(b)| == 2 * k && Uncapped(b, target)
      ensures CountAbove(AllRatios(b), Multiplier(b, target)) <= Allowed(2 * k, target)
    {
      AllowanceBound(b, target);
    }
  }

  /** For every number of sums and target some rows use up the allowance. */
  lemma ShareReached(k: nat, target: real) returns (b: Batch)
    requires 0.0 <= target <= 1.0 && k > 0
    ensures Plausible(b) && |AllRatios(b)| == 2 * k && Uncapped(b, target)
    ensures CountAbove(AllRatios(b), Multiplier(b, target)) == Allowed(2 * k, target)
  {
    hide Ratios, CountAbove, Cutoff, Allowed, Spread, LevelFor, Plausible;
    AllowedNonNegative(2 * k, target);
    AllowedBelow(2 * k, target);
    LevelBounds(2 * k, target);
    b := SpreadReached(k, Allowed(2 * k, target), LevelFor(2 * k, target));
    SpreadExceeds(AllRatios(b), target, H_MULT, H_MAX, Allowed(2 * k, target));
  }

  lemma AllowedBelow(n: nat, target: real)
    requires 0.0 <= target <= 1.0 && n > 0
    ensures Allowed(n, target) < n
  {
    hide Allowed, Position;
    PositionFacts(n, target);
  }

  ghost predicate AllDataKept(k: nat, target: real)
    requires 0.0 <= target <= 1.0
  {
    forall b: Batch :: Plausible(b) && |AllRatios(b)| == 2 * k ==> ShareKept(b, target)
  }

  /** On data at large, sums beyond 50 included, it holds for all rows with 2k sums exactly when
      2k - 1 <= target * 2k: all sums but one can exceed the multiplier, and never all. */
  lemma SharePromiseAnyData(k: nat, target: real)
    requires 0.0 <= target <= 1.0 && k > 0
    ensures AllDataKept(k, target) <==> (2 * k - 1) as real <= target * (2 * k) as real
  {
    hide Ratios, CountAbove, Multiplier, Plausible, Spread;
    var worst := SpreadReached(k, 2 * k - 1, 100.0);
    MultiplierBounds(worst, target);
    SpreadCount(AllRatios(worst), Multiplier(worst, target), 2 * k - 1);
    assert ShareKept(worst, target) <==> (2 * k - 1) as real <= target * (2 * k) as real;
    forall b: Batch | |AllRatios(b)| == 2 * k
      ensures CountAbove(AllRatios(b), Multiplier(b, target)) <= 2 * k - 1
    {
      MultiplierBounds(b, target);
      ZeroAmong(b);
      OneNotAbove(AllRatios(b), Multiplier(b, target));
    }
  }

  lemma SpreadCount(values: seq<real>, h: real, a: nat)
    requires Spread(values, 100.0, a) && 0.0 <= h <= H_MAX
    ensures CountAbove(values, h) == a
  {
    SpreadAbove(values, 100.0, h);
  }

  // ----- the first row always leaves a sum at 0 -----

  lemma FirstSums(b: Batch, j: nat)
    requires j < |b.stats| && 0 < |b.rows| && b.stats[j].sigma > 0.0
    ensures 0.0 in Normalised(SumsAt(b, j, 1), b.stats[j].sigma)
  {
    SumsStep(b, j, 0);
    var s, sigma := SumsAt(b, j, 1), b.stats[j].sigma;
    hide SumsAt;
    assert s.high == 0.0 || s.low == 0.0;
    ZeroOver(sigma);
    if s.high == 0.0 {
      assert Normalised(s, sigma)[0] == 0.0;
    } else {
      assert Normalised(s, sigma)[1] == 0.0;
    }
  }

  lemma ZeroOver(sigma: real)
    requires sigma > 0.0
    ensures 0.0 / sigma == 0.0
  {
  }

  /** Whether a feature counts does not depend on the row. */
  lemma {:induction false} RowsAlike(b: Batch, i: nat, j: nat)
    requires i < |b.rows| && j <= |b.stats|
    ensures RowRatios(b, i, j) != [] <==> RowRatios(b, 0, j) != []
    ensures RowRatios(b, 0, j) != [] ==> 0.0 in RowRatios(b, 0, j)
  {
    hide SumsAt;
    if j > 0 {
      RowsAlike(b, i, j - 1);
      if b.stats[j - 1].sigma > 0.0 {
        FirstSums(b, j - 1);
      }
    }
  }

  lemma {:induction false} ZeroAmongFirst(b: Batch, n: nat)
    requires n <= |b.rows| && Ratios(b, n) != []
    ensures 0.0 in Ratios(b, n)
  {
    hide RowRatios;
    RowsAlike(b, n - 1, |b.stats|);
    if n == 1 {
      assert Ratios(b, 0) == [];
    } else if Ratios(b, n - 1) != [] {
      ZeroAmongFirst(b, n - 1);
    } else {
      EmptyRows(b, n - 1);
      assert false;
    }
  }

  lemma {:induction false} EmptyRows(b: Batch, n: nat)
    requires 0 < n <= |b.rows| && Ratios(b, n) == []
    ensures RowRatios(b, 0, |b.stats|) == []
  {
    RowsAlike(b, n - 1, |b.stats|);
    hide RowRatios;
    assert RowRatios(b, n - 1, |b.stats|) == [];
  }

  lemma ZeroAmong(b: Batch)
    requires AllRatios(b) != []
    ensures 0.0 in AllRatios(b)
  {
    ZeroAmongFirst(b, |b.rows|);
  }

  lemma {:induction false} OneNotAbove(values: seq<real>, h: real)
    requires 0.0 in values && 0.0 <= h
    ensures CountAbove(values, h) <= |values| - 1
  {
    if values[0] > h {
      OneNotAbove(values[1..], h);
    } else {
      CountsPartition(values[1..], h);
    }
  }

  // ----- the false-positive rate -----

  lemma SurgeFlags(h: real, noReset: bool, d: nat, n: nat, a: nat, level: real, i: nat)
    requires 0.0 < h < level && a <= n && d > 0 && n - a <= i < n
    ensures RowFlagged(Detector(h, noReset), MIN_SAMPLES, Surge(d, n, a, level), i)
  {
    var b, c := Surge(d, n, a, level), Detector(h, noReset);
    var col := Column(b, 0, i + 1);
    NoResetDominates(c, MIN_SAMPLES, col[..i]);
    assert c == c.(noReset := true) || c == c.(noReset := false);
    hide RunFrom;
    assert col[i] == Reading(level + 0.25, 0.0, 1.0);
    assert FeatureFlagged(c, MIN_SAMPLES, b, i, 0);
  }

  lemma {:induction false} SurgeAlarms(h: real, noReset: bool, d: nat, n: nat, a: nat, level: real, k: nat)
    requires 0.0 < h < level && a <= n && d > 0 && k <= n
    ensures FlaggedRows(Detector(h, noReset), MIN_SAMPLES, Surge(d, n, a, level), k) >= k - (n - a)
  {
    hide RowFlagged;
    if k > 0 {
      SurgeAlarms(h, noReset, d, n, a, level, k - 1);
      if k - 1 >= n - a {
        SurgeFlags(h, noReset, d, n, a, level, k - 1);
      }
    }
  }

  lemma SurgePlausible(d: nat, n: nat, a: nat, level: real)
    requires 0.0 < level
    ensures Plausible(Surge(d, n, a, level))
  {
  }

  /** The detector alarms on at most the target share of its calibration rows. */
  predicate RateKept(b: Batch, target: real, warm: nat, noReset: bool)
    requires 0.0 <= target <= 1.0
  {
    Alarmed(b, target, warm, noReset) as real <= target * |b.rows| as real
  }

  ghost predicate AllRatesKept(n: nat, d: nat, target: real, noReset: bool)
    requires 0.0 <= target <= 1.0
  {
    forall b: Batch, warm: nat ::
      Plausible(b) && |b.rows| == n && |b.stats| == d && Uncapped(b, target) ==> RateKept(b, target, warm, noReset)
  }

  lemma ShareBelow(target: real, m: real) returns (x: real)
    requires 0.0 < target < 1.0 && 0.0 < m
    ensures x == target * m && 0.0 < x < m
  {
    x := target * m;
    var rest := 1.0 - target;
    var left := rest * m;
    ProductPositive(target, m);
    ProductPositive(rest, m);
    Complement(target, rest, m, x, left);
  }

  lemma Complement(share: real, rest: real, m: real, x: real, left: real)
    requires share + rest == 1.0 && x == share * m && left == rest * m
    ensures x + left == m
  {
  }

  lemma ShareMore(target: real, m: real, most: real) returns (y: real)
    requires 0.0 < target && m < most
    ensures y == target * most && target * m < y
  {
    y := target * most;
    var more := target * (most - m);
    ProductPositive(target, most - m);
    assert more == y - target * m;
  }

  /** The share of the rows, and of the sums but one. */
  lemma ScaledOrder(target: real, m: real, most: real) returns (x: real, y: real)
    requires 0.0 < target < 1.0 && 1.0 <= m <= most && (m < most || m == 1.0)
    ensures x == target * m && y == target * most
    ensures 0.0 < x < m && x <= y && (x < y || x < 1.0)
  {
    x := ShareBelow(target, m);
    y := x;
    if m < most {
      y := ShareMore(target, m, most);
    }
  }

  lemma IntegerBeyond(n: nat, x: real, y: real) returns (a: nat)
    requires 0.0 < x < n as real && x <= y && (x < y || x < 1.0)
    ensures a <= n && x < a as real && a <= Ceil(y)
  {
    a := x.Floor + 1;
  }

  lemma AllowedIs(n: nat, target: real, y: real)
    requires y == target * (n - 1) as real
    ensures Allowed(n, target) == Ceil(y)
  {
  }

  /** More than the target share of n rows, and no more than the allowance of the sums. */
  lemma RowsBeyond(n: nat, sums: nat, target: real) returns (a: nat)
    requires 0.0 < target < 1.0 && 0 < n < sums && (n > 1 ==> n < sums - 1)
    ensures a <= n && target * n as real < a as real && a <= Allowed(sums, target)
  {
    var m, most := n as real, (sums - 1) as real;
    var x, y := ScaledOrder(target, m, most);
    AllowedIs(sums, target, y);
    hide Ceil, Allowed;
    a := IntegerBeyond(n, x, y);
  }

  lemma SumsOutnumberRows(n: nat, d: nat)
    requires n > 0 && d > 0
    ensures n <= n * (2 * d) - 1
    ensures n > 1 ==> n < n * (2 * d) - 1
  {
    assert n * (2 * d) == n * 2 + n * (2 * (d - 1));
  }

  lemma SurgeMultiplier(n: nat, d: nat, a: nat, target: real)
    requires 0.0 <= target <= 1.0 && n > 0 && d > 0 && a <= n && 0 < n * (2 * d) && a <= Allowed(n * (2 * d), target)
    ensures var level := LevelFor(n * (2 * d), target);
      var b := Surge(d, n, a, level);
      && 0.0 < Multiplier(b, target) < level && Uncapped(b, target)
      && Plausible(b) && |b.rows| == n && |b.stats| == d
  {
    hide Ratios, CountAbove, Cutoff, Allowed, Spread, LevelFor, Plausible;
    var level := LevelFor(n * (2 * d), target);
    LevelBounds(n * (2 * d), target);
    SurgePlausible(d, n, a, level);
    SurgeRatios(d, n, a, level, n);
    var b := Surge(d, n, a, level);
    assert |b.rows| == n && |b.stats| == d;
    SpreadExceeds(AllRatios(b), target, H_MULT, H_MAX, a);
  }

  /** Rows on which more than the target share alarms, 50 cutting nothing off. */
  lemma RateExceeded(n: nat, d: nat, target: real, noReset: bool) returns (b: Batch)
    requires 0.0 < target < 1.0 && n > 0 && d > 0
    ensures Plausible(b) && |b.rows| == n && |b.stats| == d && Uncapped(b, target)
    ensures !RateKept(b, target, MIN_SAMPLES, noReset)
  {
    hide Multiplier, Uncapped, Allowed, LevelFor, FlaggedRows, Plausible, Surge;
    SumsOutnumberRows(n, d);
    var a := RowsBeyond(n, n * (2 * d), target);
    var level := LevelFor(n * (2 * d), target);
    SurgeMultiplier(n, d, a, target);
    b := Surge(d, n, a, level);
    SurgeAlarms(Multiplier(b, target), noReset, d, n, a, level, n);
  }

  /** The documented promise is a false-positive rate of at most target on the calibration rows. While 50
      cuts nothing off, it holds for all rows exactly at the targets 0 and 1, whatever the number of rows
      and features, with or without reset. */
  lemma RatePromise(n: nat, d: nat, target: real, noReset: bool)
    requires 0.0 <= target <= 1.0 && n > 0 && d > 0
    ensures AllRatesKept(n, d, target, noReset) <==> target == 0.0 || target == 1.0
  {
    hide Ratios, Plausible, Uncapped, Alarmed, Allowed;
    if 0.0 < target < 1.0 {
      var b := RateExceeded(n, d, target, noReset);
    } else {
      forall b: Batch, warm: nat | |b.rows| == n && Uncapped(b, target) ensures RateKept(b, target, warm, noReset) {
        CalibratedAlarms(b, target, warm, noReset);
        if target == 0.0 && AllRatios(b) != [] {
          NothingAllowed(|AllRatios(b)|);
        }
      }
    }
  }

  lemma NothingAllowed(m: nat)
    ensures Allowed(m, 0.0) == 0
  {
  }

  ghost predicate AnyRatesKept(n: nat, d: nat, target: real, noReset: bool)
    requires 0.0 <= target <= 1.0
  {
    forall b: Batch, warm: nat ::
      Plausible(b) && |b.rows| == n && |b.stats| == d ==> RateKept(b, target, warm, noReset)
  }

  /** On data at large only the target 1 is kept: every row can alarm. */
  lemma RatePromiseAnyData(n: nat, d: nat, target: real, noReset: bool)
    requires 0.0 <= target <= 1.0 && n > 0 && d > 0
    ensures AnyRatesKept(n, d, target, noReset) <==> target == 1.0
  {
    hide Plausible, Alarmed;
    var worst := AllRowsAlarm(n, d, target, noReset);
    BelowAll(n, target);
    assert RateKept(worst, target, MIN_SAMPLES, noReset) <==> n as real <= target * n as real;
    forall b: Batch, warm: nat | |b.rows| == n ensures Alarmed(b, target, warm, noReset) <= n {
      CalibratedAlarms(b, target, warm, noReset);
    }
  }

  lemma AllRowsAlarm(n: nat, d: nat, target: real, noReset: bool) returns (b: Batch)
    requires 0.0 <= target <= 1.0 && n > 0 && d > 0
    ensures Plausible(b) && |b.rows| == n && |b.stats| == d
    ensures Alarmed(b, target, MIN_SAMPLES, noReset) == n
  {
    hide Plausible, FlaggedRows, Multiplier;
    b := Surge(d, n, n, 100.0);
    SurgePlausible(d, n, n, 100.0);
    assert |b.rows| == n && |b.stats| == d;
    hide Surge;
    MultiplierBounds(b, target);
    SurgeAlarms(Multiplier(b, target), noReset, d, n, n, 100.0, n);
    CalibratedAlarms(b, target, MIN_SAMPLES, noReset);
  }

  // ----- at the default target -----

  /** One reading of 1.21 under a mean of 10 and a deviation of 1: its sums are 0 and 8.54, the multiplier
      at 1 percent is 8.5, and one sum in two exceeds it. */
  lemma ShareBroken()
    ensures var b: Batch := Batch([Stat(10.0, 1.0)], [[1.21]]);
      && AllRatios(b) == [0.0, 8.54]
      && Multiplier(b, 0.01) == 8.5
      && Plausible(b) && !ShareKept(b, 0.01)
  {
    hide Sort, UpperPctl, Clamp, CeilHalf, CountAbove, Ratios;
    OneDip();
    SortKeepsSorted([0.0, 8.54], Identity);
    ZeroAndMore();
    AboveAtMost([0.0, 8.54], 8.5, 1);
  }

  lemma OneDip()
    ensures var b: Batch := Batch([Stat(10.0, 1.0)], [[1.21]]);
      AllRatios(b) == [0.0, 8.54]
  {
    var b: Batch := Batch([Stat(10.0, 1.0)], [[1.21]]);
    SumsStep(b, 0, 0);
    var s := SumsAt(b, 0, 1);
    assert ReadingAt(b, 0, 0) == Reading(1.21, 10.0, 1.0);
    assert s.high == 0.0 && s.low == 8.54;
    hide SumsAt;
    UnitSigma(s);
    assert RowRatios(b, 0, 0) == [] && Ratios(b, 0) == [];
    assert RowRatios(b, 0, 1) == [] + [s.high, s.low] == [0.0, 8.54];
    assert Ratios(b, 1) == [] + RowRatios(b, 0, 1) == [0.0, 8.54];
  }

  lemma ZeroAndMore()
    ensures Clamp(H_MULT, H_MAX, CeilHalf(UpperPctl([0.0, 8.54], 0.01))) == 8.5
  {
    hide Interpolate, Pctl, UpperPctl;
    var values := [0.0, 8.54];
    UpperPctlIs(values, 0.01);
    assert values == TwoLevels(2, 0, 0.0, 8.54);
    hide TwoLevels;
    TwoLevelsInterpolated(2, 0.99, 0.0, 8.54);
    assert UpperPctl(values, 0.01) == 8.4546;
  }
}
