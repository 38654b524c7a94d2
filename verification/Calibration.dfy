// The linear-interpolation percentile and the threshold calibrated by it.
module Calibration {
  import opened RealMath
  import opened Options
  import opened Sequences
  import opened Ranks

  const THETA_MIN := 4.0
  const THETA_MAX := 20.0

  /** Nondecreasing. */
  predicate Ascending(sv: seq<real>) {
    forall i, j :: 0 <= i < j < |sv| ==> sv[i] <= sv[j]
  }

  function Blended(a: real, b: real, frac: real): real {
    a * (1.0 - frac) + b * frac
  }

  /** The value at the fractional position pos of the list. */
  function Interpolate(sv: seq<real>, pos: real): real
    requires 0.0 <= pos <= (|sv| - 1) as real
  {
    var lo, hi := pos.Floor, Ceil(pos);
    if lo == hi then sv[lo]
    else
      var frac := pos - lo as real;
      Blended(sv[lo], sv[hi], frac)
  }

  lemma PositionInRange(q: real, n: nat)
    requires 0.0 <= q <= 100.0 && n > 0
    ensures 0.0 <= q / 100.0 * (n - 1) as real <= (n - 1) as real
  {
    MulMonotone(0.0, q / 100.0, (n - 1) as real);
    MulMonotone(q / 100.0, 1.0, (n - 1) as real);
  }

  /** pctl: percentile with linear interpolation on a sorted list. */
  function Pctl(sv: seq<real>, q: real): Option<real>
    requires 0.0 <= q <= 100.0
  {
    if sv == [] then None
    else if |sv| == 1 then Some(sv[0])
    else
      PositionInRange(q, |sv|);
      Some(Interpolate(sv, q / 100.0 * (|sv| - 1) as real))
  }

  lemma UnitScale(d: real, frac: real)
    requires 0.0 <= d && 0.0 <= frac <= 1.0
    ensures 0.0 <= d * frac <= d
  {
    MulMonotone(0.0, d, frac);
    MulMonotone(frac, 1.0, d);
  }

  lemma BlendAlgebra(a: real, b: real, frac: real) returns (part: real)
    ensures part == (b - a) * frac
    ensures Blended(a, b, frac) == a + part
    ensures 0.0 <= b - a && 0.0 <= frac <= 1.0 ==> 0.0 <= part <= b - a
  {
    part := (b - a) * frac;
    if 0.0 <= b - a && 0.0 <= frac <= 1.0 {
      UnitScale(b - a, frac);
    }
  }

  lemma Blend(a: real, b: real, frac: real)
    requires a <= b && 0.0 <= frac <= 1.0
    ensures a <= Blended(a, b, frac) <= b
  {
    var part := BlendAlgebra(a, b, frac);
  }

  /** An interpolated value lies between its two neighbours. */
  lemma InterpolateBetween(sv: seq<real>, pos: real)
    requires 0.0 <= pos <= (|sv| - 1) as real && Ascending(sv)
    ensures 0 <= pos.Floor < |sv| && 0 <= Ceil(pos) < |sv|
    ensures sv[pos.Floor] <= Interpolate(sv, pos) <= sv[Ceil(pos)]
  {
    var lo, hi := pos.Floor, Ceil(pos);
    if lo != hi {
      Blend(sv[lo], sv[hi], pos - lo as real);
    }
  }

  lemma {:induction false} AboveAtMost(sv: seq<real>, v: real, m: nat)
    requires m <= |sv| && forall i :: 0 <= i < m ==> sv[i] <= v
    ensures CountAbove(sv, v) <= |sv| - m
    ensures (forall i :: m <= i < |sv| ==> v < sv[i]) ==> CountAbove(sv, v) == |sv| - m
  {
    if sv != [] {
      AboveAtMost(sv[1..], v, if m > 0 then m - 1 else 0);
    }
  }

  lemma CeilComplement(t: real, k: nat)
    ensures ((1.0 - t) * k as real).Floor == k - Ceil(t * k as real)
    ensures 0.0 <= t <= 1.0 ==> 0.0 <= (1.0 - t) * k as real <= k as real
  {
    assert (1.0 - t) * k as real == k as real - t * k as real;
    if 0.0 <= t <= 1.0 {
      MulMonotone(0.0, t, k as real);
      MulMonotone(t, 1.0, k as real);
    }
  }

  /** The (1 - target) percentile. */
  function UpperPctl(sv: seq<real>, target: real): real
    requires 0.0 <= target <= 1.0 && sv != []
  {
    Pctl(sv, (1.0 - target) * 100.0).value
  }

  /** How many of n calibration values the percentile lets through. */
  function Allowed(n: nat, target: real): int {
    Ceil(target * (n - 1) as real)
  }

  /** The fractional position of the percentile among n sorted values. */
  function Position(n: nat, target: real): real {
    (1.0 - target) * (n - 1) as real
  }

  lemma PositionFacts(n: nat, target: real)
    requires 0.0 <= target <= 1.0 && n > 0
    ensures 0.0 <= Position(n, target) <= (n - 1) as real
    ensures Position(n, target).Floor == n - 1 - Allowed(n, target)
  {
    CeilComplement(target, n - 1);
  }

  lemma UpperPctlIs(sv: seq<real>, target: real)
    requires 0.0 <= target <= 1.0 && sv != []
    ensures 0.0 <= Position(|sv|, target) <= (|sv| - 1) as real
    ensures UpperPctl(sv, target) == Interpolate(sv, Position(|sv|, target))
  {
    PositionFacts(|sv|, target);
    assert (1.0 - target) * 100.0 / 100.0 == 1.0 - target;
    if |sv| == 1 {
      assert Position(|sv|, target) == 0.0;
    }
  }

  /** At most ceil(target * (n - 1)) of n sorted values lie above their (1 - target) percentile. */
  lemma ExceedanceBound(sv: seq<real>, target: real)
    requires 0.0 <= target <= 1.0 && sv != [] && Ascending(sv)
    ensures CountAbove(sv, UpperPctl(sv, target)) <= Allowed(|sv|, target)
  {
    hide Interpolate, Pctl, CountAbove, Position, Allowed;
    UpperPctlIs(sv, target);
    PositionFacts(|sv|, target);
    var pos := Position(|sv|, target);
    InterpolateBetween(sv, pos);
    AboveAtMost(sv, UpperPctl(sv, target), pos.Floor + 1);
  }

  /** low up to position lo and high after it. */
  function TwoLevels(n: nat, lo: nat, low: real, high: real): (sv: seq<real>)
    ensures |sv| == n
  {
    seq(n, i => if i <= lo then low else high)
  }

  lemma TwoLevelsInterpolated(n: nat, pos: real, low: real, high: real)
    requires 0.0 <= pos <= (n - 1) as real
    ensures var frac := pos - pos.Floor as real;
      Interpolate(TwoLevels(n, pos.Floor, low, high), pos) == Blended(low, high, frac)
  {
    if pos.Floor == Ceil(pos) {
      assert pos - pos.Floor as real == 0.0;
    }
  }

  /** The bound is attained for every size and target. */
  lemma ExceedanceTight(n: nat, target: real) returns (sv: seq<real>)
    requires 0.0 <= target <= 1.0 && n > 0
    ensures |sv| == n && Ascending(sv)
    ensures CountAbove(sv, UpperPctl(sv, target)) == Allowed(n, target)
  {
    hide Interpolate, Pctl, CountAbove, UpperPctl, Position, Allowed;
    PositionFacts(n, target);
    var pos := Position(n, target);
    sv := TwoLevels(n, pos.Floor, 0.0, 1.0);
    assert |sv| == n && forall i :: 0 <= i < n ==> sv[i] == if i <= pos.Floor then 0.0 else 1.0;
    UpperPctlIs(sv, target);
    TwoLevelsInterpolated(n, pos, 0.0, 1.0);
    AboveAtMost(sv, UpperPctl(sv, target), pos.Floor + 1);
  }

  // ----- calibrate_threshold -----

  function Peak(zs: seq<real>): real {
    if zs == [] then 0.0 else Max(Peak(zs[..|zs| - 1]), Abs(zs[|zs| - 1]))
  }

  /** p bounds every z on both sides and is one of them up to sign; 0 when there is none. */
  predicate Largest(zs: seq<real>, p: real) {
    && 0.0 <= p
    && (forall z :: z in zs ==> -p <= z <= p)
    && (if zs == [] then p == 0.0 else p in zs || -p in zs)
  }

  lemma LargestOfMore(zs: seq<real>, p: real, z: real)
    requires Largest(zs, p)
    ensures Largest(zs + [z], Max(p, Abs(z)))
  {
    var more := zs + [z];
    assert z in more && forall y :: y in zs ==> y in more;
  }

  lemma {:induction false} PeakIsLargest(zs: seq<real>)
    ensures Largest(zs, Peak(zs))
  {
    if zs != [] {
      hide Largest;
      var n := |zs| - 1;
      PeakIsLargest(zs[..n]);
      assert zs == zs[..n] + [zs[n]];
      LargestOfMore(zs[..n], Peak(zs[..n]), zs[n]);
    }
  }

  /** Some z-score lies at v or further out, on either side. */
  predicate Reaches(zs: seq<real>, v: real) {
    exists z :: z in zs && (z >= v || z <= -v)
  }

  /** Some z-score lies further out than v, on either side. */
  predicate Beyond(zs: seq<real>, v: real) {
    exists z :: z in zs && (z > v || z < -v)
  }

  lemma PeakReaches(zs: seq<real>, v: real)
    ensures 0.0 < v ==> (Peak(zs) >= v <==> Reaches(zs, v))
    ensures 0.0 <= v ==> (Peak(zs) > v <==> Beyond(zs, v))
  {
    hide Peak;
    PeakIsLargest(zs);
  }

  function Mirrored(zs: seq<real>): seq<real> {
    Map(zs, (z: real) => -z)
  }

  function MirroredRows(rows: seq<seq<real>>): seq<seq<real>> {
    Map(rows, (zs: seq<real>) => Mirrored(zs))
  }

  lemma {:induction false} PeakMirrored(zs: seq<real>)
    ensures Peak(Mirrored(zs)) == Peak(zs)
  {
    if zs != [] {
      var n := |zs| - 1;
      PeakMirrored(zs[..n]);
      assert Mirrored(zs)[..n] == Mirrored(zs[..n]);
    }
  }

  /** The sign of a z-score does not matter to the calibrated threshold. */
  lemma ThetaMirrored(rows: seq<seq<real>>, target: real)
    requires 0.0 <= target <= 1.0
    ensures Theta(MirroredRows(rows), target) == Theta(rows, target)
  {
    hide Peak, Cutoff;
    forall i | 0 <= i < |rows| ensures Peak(MirroredRows(rows)[i]) == Peak(rows[i]) {
      PeakMirrored(rows[i]);
    }
    assert Peaks(MirroredRows(rows)) == Peaks(rows);
  }

  /** The rows with a z-score beyond v, and the positions of the values above v. */
  ghost function RowsBeyond(rows: seq<seq<real>>, v: real): set<nat> {
    set i: nat | i < |rows| && Beyond(rows[i], v)
  }

  ghost function PositionsAbove(xs: seq<real>, v: real): set<nat> {
    set i: nat | i < |xs| && xs[i] > v
  }

  lemma CountAboveLast(xs: seq<real>, x: real, v: real)
    ensures CountAbove(xs + [x], v) == CountAbove(xs, v) + if x > v then 1 else 0
  {
    CountsConcat(xs, [x], v);
    CountsPartition(xs, v);
    CountsPartition([x], v);
    CountsPartition(xs + [x], v);
    assert [x][1..] == [];
  }

  lemma {:induction false} CountAboveIs(xs: seq<real>, v: real)
    ensures CountAbove(xs, v) == |PositionsAbove(xs, v)|
  {
    if xs != [] {
      var n := |xs| - 1;
      CountAboveIs(xs[..n], v);
      CountAboveLast(xs[..n], xs[n], v);
      assert xs == xs[..n] + [xs[n]];
      assert PositionsAbove(xs, v) == PositionsAbove(xs[..n], v) + if xs[n] > v then {n} else {};
    } else {
      assert PositionsAbove(xs, v) == {};
    }
  }

  /** Counting peaks above v is counting rows with a z-score beyond v. */
  lemma PeaksAboveAreRows(rows: seq<seq<real>>, v: real)
    requires 0.0 <= v
    ensures CountAbove(Peaks(rows), v) == |RowsBeyond(rows, v)|
  {
    hide Peak, Beyond, CountAbove;
    CountAboveIs(Peaks(rows), v);
    forall i | 0 <= i < |rows| ensures Peaks(rows)[i] > v <==> Beyond(rows[i], v) {
      PeakReaches(rows[i], v);
    }
    assert PositionsAbove(Peaks(rows), v) == RowsBeyond(rows, v);
  }

  function Peaks(rows: seq<seq<real>>): seq<real> {
    Map(rows, (zs: seq<real>) => Peak(zs))
  }

  function Identity(x: real): real {
    x
  }

  /** Up to the next half. */
  function CeilHalf(x: real): real {
    Ceil(x * 2.0) as real / 2.0
  }

  lemma CeilHalfFacts(x: real)
    ensures x <= CeilHalf(x) < x + 0.5
    ensures (2.0 * CeilHalf(x)).Floor as real == 2.0 * CeilHalf(x)
  {
    assert 2.0 * CeilHalf(x) == Ceil(x * 2.0) as real;
  }

  lemma SortedValues(xs: seq<real>)
    ensures Ascending(Sort(xs, Identity)) && |Sort(xs, Identity)| == |xs|
    ensures forall v :: CountAbove(Sort(xs, Identity), v) == CountAbove(xs, v)
  {
    var sv := Sort(xs, Identity);
    SortFacts(xs, Identity);
    assert |multiset(sv)| == |sv| && |multiset(xs)| == |xs|;
    forall i, j | 0 <= i < j < |sv| ensures sv[i] <= sv[j] {
      assert Identity(sv[i]) <= Identity(sv[j]);
    }
    forall v ensures CountAbove(sv, v) == CountAbove(xs, v) {
      CountsOfMultiset(sv, xs, v);
      CountsPartition(sv, v);
      CountsPartition(xs, v);
    }
  }

  lemma {:induction false} AboveAntitone(xs: seq<real>, u: real, v: real)
    requires u <= v
    ensures CountAbove(xs, v) <= CountAbove(xs, u)
  {
    if xs != [] {
      AboveAntitone(xs[1..], u, v);
    }
  }

  /** The first loop of calibrate_threshold: the largest |z| of every row. */
  method CollectPeaks(rows: seq<seq<real>>) returns (maxZs: seq<real>)
    ensures maxZs == Peaks(rows)
  {
    maxZs := [];
    for i := 0 to |rows|
      invariant maxZs == Peaks(rows[..i])
    {
      var worst := 0.0;
      for k := 0 to |rows[i]|
        invariant worst == Peak(rows[i][..k])
      {
        assert rows[i][..k + 1][..k] == rows[i][..k];
        worst := Max(worst, Abs(rows[i][k]));
      }
      assert rows[i][..|rows[i]|] == rows[i];
      maxZs := maxZs + [worst];
    }
    assert rows[..|rows|] == rows;
  }

  // ----- both calibrations: a percentile, up to the next half, within bounds -----

  function Clamp(lo: real, hi: real, x: real): real {
    Max(lo, Min(hi, x))
  }

  function Cutoff(values: seq<real>, target: real, lo: real, hi: real): real
    requires 0.0 <= target <= 1.0
  {
    if values == [] then lo else Clamp(lo, hi, CeilHalf(UpperPctl(Sort(values, Identity), target)))
  }

  /** A multiple of one half. */
  predicate Half(x: real) {
    (2.0 * x).Floor as real == 2.0 * x
  }

  lemma ClampedHalf(lo: real, hi: real, x: real)
    requires Half(lo) && Half(hi) && lo <= hi
    ensures var cut := Clamp(lo, hi, CeilHalf(x));
      lo <= cut <= hi && Half(cut) && (cut < hi ==> x <= cut)
  {
    CeilHalfFacts(x);
  }

  /** The cutoff is a multiple of one half within its bounds, and unless it is the upper bound at most
      ceil(target * (n - 1)) of the n values exceed it. */
  lemma CutoffFacts(values: seq<real>, target: real, lo: real, hi: real) returns (cut: real)
    requires 0.0 <= target <= 1.0 && Half(lo) && Half(hi) && lo <= hi
    ensures cut == Cutoff(values, target, lo, hi)
    ensures lo <= cut <= hi && Half(cut)
    ensures values != [] && cut < hi ==> CountAbove(values, cut) <= Allowed(|values|, target)
  {
    hide UpperPctl, CountAbove, Sort, CeilHalf, Clamp, Allowed, Half;
    cut := Cutoff(values, target, lo, hi);
    if values != [] {
      SortedValues(values);
      var raw := UpperPctl(Sort(values, Identity), target);
      ExceedanceBound(Sort(values, Identity), target);
      ClampedHalf(lo, hi, raw);
      if cut < hi {
        AboveAntitone(values, raw, cut);
      }
    }
  }

  // ----- values at 0 or at a level above their own cutoff -----

  /** The level by the fraction of the percentile position. */
  function High(frac: real): real {
    8.5 + 0.4 * (1.0 - frac)
  }

  /** The level that lies above the cutoff by itself when no more than the allowance of n values has it. */
  function LevelFor(n: nat, target: real): real {
    High(Position(n, target) - Position(n, target).Floor as real)
  }

  /** Every value is 0 or at least level, a of them are not 0, and the smallest of those is level. */
  predicate Spread(values: seq<real>, level: real, a: nat) {
    && (forall i :: 0 <= i < |values| ==> values[i] == 0.0 || level <= values[i])
    && CountAbove(values, 0.0) == a
    && (a > 0 ==> level in values)
  }

  /** Sorted, the zeros come first and the level right after them. */
  lemma {:induction false} ZerosFirst(sv: seq<real>, level: real)
    requires 0.0 < level && Ascending(sv)
    requires forall i :: 0 <= i < |sv| ==> sv[i] == 0.0 || level <= sv[i]
    ensures forall i :: 0 <= i < |sv| ==> (sv[i] == 0.0 <==> i < |sv| - CountAbove(sv, 0.0))
  {
    if sv != [] {
      if sv[0] == 0.0 {
        ZerosFirst(sv[1..], level);
        forall i | 0 < i < |sv| ensures sv[i] == 0.0 <==> i < |sv| - CountAbove(sv, 0.0) {
          assert sv[i] == sv[1..][i - 1];
        }
        AboveAtMost(sv, 0.0, 1);
      } else {
        forall i | 0 < i < |sv| ensures level <= sv[i] {
          assert sv[0] <= sv[i];
        }
        AboveAtMost(sv, 0.0, 0);
      }
    }
  }

  lemma SortedSpread(values: seq<real>, level: real, a: nat)
    requires 0.0 < level && Spread(values, level, a)
    ensures var sv := Sort(values, Identity);
      && |sv| == |values| && a <= |sv|
      && forall i :: 0 <= i <= |sv| - a && i < |sv| ==> sv[i] == if i < |sv| - a then 0.0 else level
  {
    var sv := Sort(values, Identity);
    SortedValues(values);
    SortFacts(values, Identity);
    hide Sort;
    CountsPartition(sv, 0.0);
    forall i | 0 <= i < |sv| ensures sv[i] == 0.0 || level <= sv[i] {
      assert sv[i] in multiset(sv);
      assert sv[i] in values;
    }
    hide CountAbove;
    ZerosFirst(sv, level);
    if a > 0 {
      assert level in multiset(values);
      assert level in multiset(sv);
      var q :| 0 <= q < |sv| && sv[q] == level;
      if q != |sv| - a {
        assert sv[|sv| - a] <= sv[q];
      }
    }
  }

  lemma LowAlgebra(frac: real, u: real)
    requires frac + u == 1.0 && 0.0 <= frac && 0.0 <= u
    ensures 0.4 * (u * frac) <= 8.5 * u
  {
    MulMonotone(frac, 1.0, u);
    assert u * frac == frac * u;
  }

  /** Between 0 and the level the interpolated value stays at most 8.5. */
  lemma LowValue(frac: real) returns (v: real)
    requires 0.0 <= frac < 1.0
    ensures v == Blended(0.0, High(frac), frac)
    ensures v <= 8.5 < High(frac) <= 8.9
  {
    var u := 1.0 - frac;
    v := Blended(0.0, High(frac), frac);
    assert High(frac) * frac == 8.5 * frac + 0.4 * u * frac;
    assert 0.4 * u * frac == 0.4 * (u * frac);
    LowAlgebra(frac, u);
  }

  lemma ZeroBlend(frac: real)
    ensures Blended(0.0, 0.0, frac) == 0.0
  {
  }

  lemma LevelBounds(n: nat, target: real)
    ensures 8.5 < LevelFor(n, target) <= 8.9
  {
    hide Position;
    var v := LowValue(Position(n, target) - Position(n, target).Floor as real);
  }

  /** No more values than the allowance at that level leave the percentile at most 8.5. */
  lemma SpreadPercentile(values: seq<real>, target: real, a: nat)
    requires 0.0 <= target <= 1.0 && values != []
    requires Spread(values, LevelFor(|values|, target), a) && a <= Allowed(|values|, target)
    ensures |Sort(values, Identity)| == |values|
    ensures UpperPctl(Sort(values, Identity), target) <= 8.5
  {
    hide Pctl, UpperPctl, Sort, Spread, Position, Allowed, High, Blended;
    var n, level, sv := |values|, LevelFor(|values|, target), Sort(values, Identity);
    LevelBounds(n, target);
    SortedSpread(values, level, a);
    PositionFacts(n, target);
    UpperPctlIs(sv, target);
    var pos := Position(n, target);
    var v := LowValue(pos - pos.Floor as real);
    ZeroBlend(pos - pos.Floor as real);
  }

  lemma {:induction false} SpreadAbove(values: seq<real>, level: real, v: real)
    requires 0.0 <= v < level && forall i :: 0 <= i < |values| ==> values[i] == 0.0 || level <= values[i]
    ensures CountAbove(values, v) == CountAbove(values, 0.0)
  {
    if values != [] {
      SpreadAbove(values[1..], level, v);
    }
  }

  /** So all of them exceed the cutoff. */
  lemma SpreadExceeds(values: seq<real>, target: real, lo: real, hi: real, a: nat)
    requires 0.0 <= target <= 1.0 && values != [] && 0.0 <= lo <= 8.5 <= hi
    requires Spread(values, LevelFor(|values|, target), a) && a <= Allowed(|values|, target)
    ensures var cut := Cutoff(values, target, lo, hi);
      lo <= cut <= 8.5 && CountAbove(values, cut) == a
  {
    hide UpperPctl, Sort, Allowed, LevelFor, CountAbove;
    LevelBounds(|values|, target);
    SpreadPercentile(values, target, a);
    ClampedBelow(lo, hi, UpperPctl(Sort(values, Identity), target));
    SpreadAbove(values, LevelFor(|values|, target), Cutoff(values, target, lo, hi));
  }

  lemma ClampedBelow(lo: real, hi: real, v: real)
    requires lo <= 8.5 <= hi && v <= 8.5
    ensures lo <= Clamp(lo, hi, CeilHalf(v)) <= 8.5
  {
    assert v * 2.0 <= 17.0;
  }

  // ----- calibrate_threshold -----

  /** The calibrated threshold for these rows. */
  function Theta(rows: seq<seq<real>>, target: real): real
    requires 0.0 <= target <= 1.0
  {
    Cutoff(Peaks(rows), target, THETA_MIN, THETA_MAX)
  }

  lemma ThetaBoundsHalf()
    ensures Half(THETA_MIN) && Half(THETA_MAX)
  {
    assert 2.0 * THETA_MIN == 8.0 && 2.0 * THETA_MAX == 40.0;
  }

  /** calibrate_threshold, on the available z-scores of each calibration row: the result is a multiple
      of one half in [4, 20], and unless it is the upper cap at most ceil(target * (n - 1)) rows have
      a z-score beyond it. */
  method CalibrateThreshold(rows: seq<seq<real>>, target: real) returns (theta: real)
    requires 0.0 <= target <= 1.0
    ensures theta == Theta(rows, target)
    ensures 4.0 <= theta <= 20.0 && Half(theta)
    ensures rows != [] && theta < 20.0 ==> |RowsBeyond(rows, theta)| <= Ceil(target * (|rows| - 1) as real)
  {
    hide UpperPctl, CountAbove, Sort, CeilHalf, Clamp, Peaks, Half, RowsBeyond, Ceil, Max, Min;
    PeaksSize(rows);
    ThetaBoundsHalf();
    ghost var cut := CutoffFacts(Peaks(rows), target, THETA_MIN, THETA_MAX);
    PeaksAboveAreRows(rows, cut);
    if rows == [] {
      return THETA_MIN;
    }
    var maxZs := CollectPeaks(rows);
    SortedValues(maxZs);
    var raw := UpperPctl(Sort(maxZs, Identity), target);
    theta := Clamp(THETA_MIN, THETA_MAX, CeilHalf(raw));
  }

  lemma PeaksSize(rows: seq<seq<real>>)
    ensures |Peaks(rows)| == |rows|
  {
  }

  // ----- how many rows exceed the calibrated threshold -----

  /** Rows with these peaks: one z-score each. */
  function RowsOf(peaks: seq<real>): seq<seq<real>> {
    Map(peaks, (p: real) => [p])
  }

  /** Such rows have exactly these peaks, and a sorted list needs no sorting. */
  lemma RowsOfFacts(peaks: seq<real>)
    requires Ascending(peaks) && forall i :: 0 <= i < |peaks| ==> 0.0 <= peaks[i]
    ensures |RowsOf(peaks)| == |peaks|
    ensures Peaks(RowsOf(peaks)) == peaks
    ensures Sort(peaks, Identity) == peaks
  {
    forall i | 0 <= i < |peaks| ensures Peak([peaks[i]]) == peaks[i] {
      assert [peaks[i]][..0] == [];
    }
    SortKeepsSorted(peaks, Identity);
  }

  /** For every size and target some rows, none beyond the cap, let the full allowance through. */
  lemma AllowanceReached(n: nat, target: real) returns (rows: seq<seq<real>>)
    requires 0.0 <= target <= 1.0 && n > 0
    ensures |rows| == n && PeaksWithin(rows, THETA_MAX)
    ensures CountAbove(Peaks(rows), Theta(rows, target)) == Allowed(n, target)
  {
    hide CountAbove, Peaks, Sort, Cutoff, Allowed, LevelFor, Spread, RowsOf;
    var peaks := AllowancePeaks(n, target);
    rows := RowsOf(peaks);
    RowsOfFacts(peaks);
    SpreadExceeds(peaks, target, THETA_MIN, THETA_MAX, Allowed(n, target));
  }

  /** As many values at the level as the allowance, the others 0. */
  lemma AllowancePeaks(n: nat, target: real) returns (peaks: seq<real>)
    requires 0.0 <= target <= 1.0 && n > 0
    ensures 0 <= Allowed(n, target) < n
    ensures peaks == TwoLevels(n, n - 1 - Allowed(n, target), 0.0, LevelFor(n, target))
    ensures Spread(peaks, LevelFor(n, target), Allowed(n, target)) && Ascending(peaks)
    ensures 8.5 < LevelFor(n, target) <= 8.9
  {
    hide CountAbove, Allowed, LevelFor, Position;
    AllowedNonNegative(n, target);
    PositionFacts(n, target);
    LevelBounds(n, target);
    var a, level := Allowed(n, target), LevelFor(n, target);
    peaks := TwoLevels(n, n - 1 - a, 0.0, level);
    AboveAtMost(peaks, 0.0, n - a);
    if a > 0 {
      assert peaks[n - 1] == level;
    }
  }

  /** No row has a z-score beyond this bound. */
  predicate PeaksWithin(rows: seq<seq<real>>, bound: real) {
    forall i :: 0 <= i < |Peaks(rows)| ==> Peaks(rows)[i] <= bound
  }

  /** At most the target share of the calibration rows has a z-score beyond the calibrated threshold. */
  predicate ExceedanceKept(rows: seq<seq<real>>, target: real)
    requires 0.0 <= target <= 1.0
  {
    CountAbove(Peaks(rows), Theta(rows, target)) as real <= target * |rows| as real
  }

  lemma AllowanceBounds(rows: seq<seq<real>>, target: real)
    requires 0.0 <= target <= 1.0 && rows != [] && PeaksWithin(rows, THETA_MAX)
    ensures CountAbove(Peaks(rows), Theta(rows, target)) <= Allowed(|rows|, target)
  {
    hide Peaks, CountAbove, Cutoff, Allowed;
    PeaksSize(rows);
    ThetaBoundsHalf();
    var theta := CutoffFacts(Peaks(rows), target, THETA_MIN, THETA_MAX);
    AllowedNonNegative(|rows|, target);
    if theta == THETA_MAX {
      AboveAtMost(Peaks(rows), theta, |rows|);
    }
  }

  lemma AllowedNonNegative(n: nat, target: real)
    requires 0.0 <= target <= 1.0 && n > 0
    ensures 0 <= Allowed(n, target)
    ensures 0.0 <= target * n as real <= n as real
  {
    var m, k := (n - 1) as real, n as real;
    MulMonotone(0.0, target, m);
    CeilBounds(target * m, 0);
    MulMonotone(0.0, target, k);
    MulMonotone(target, 1.0, k);
  }

  lemma BelowAll(n: nat, target: real)
    requires 0.0 <= target <= 1.0 && n > 0
    ensures n as real <= target * n as real <==> target == 1.0
  {
    var m := n as real;
    if target < 1.0 {
      ProductPositive(1.0 - target, m);
      assert (1.0 - target) * m == m - target * m;
    }
  }

  /** On rows with no z-score beyond the cap of 20, at most the target share of rows exceeds the
      calibrated threshold, for every data set of n rows, exactly when
      ceil(target * (n - 1)) <= target * n. */
  lemma ExceedancePromise(n: nat, target: real)
    requires 0.0 <= target <= 1.0 && n > 0
    ensures (forall rows :: |rows| == n && PeaksWithin(rows, THETA_MAX) ==> ExceedanceKept(rows, target))
       <==> Allowed(n, target) as real <= target * n as real
  {
    hide Peaks, CountAbove, Theta, Allowed, PeaksWithin;
    AllowedNonNegative(n, target);
    var worst := AllowanceReached(n, target);
    assert ExceedanceKept(worst, target) <==> Allowed(n, target) as real <= target * n as real;
    forall rows | |rows| == n && PeaksWithin(rows, THETA_MAX)
      ensures CountAbove(Peaks(rows), Theta(rows, target)) <= Allowed(n, target)
    {
      AllowanceBounds(rows, target);
    }
  }

  /** With z-scores beyond the cap, data sets of every size keep that share only if the target is
      everything. */
  lemma CapBreaksExceedance(n: nat, target: real)
    requires 0.0 <= target <= 1.0 && n > 0
    ensures (forall rows :: |rows| == n ==> ExceedanceKept(rows, target)) <==> target == 1.0
  {
    hide Peaks, CountAbove, Theta;
    AllowedNonNegative(n, target);
    var worst := AllBeyondCap(n, target);
    if target < 1.0 {
      ProductPositive(1.0 - target, n as real);
      assert !ExceedanceKept(worst, target);
    }
    forall rows | |rows| == n ensures CountAbove(Peaks(rows), Theta(rows, target)) <= n {
      PeaksSize(rows);
      CountsPartition(Peaks(rows), Theta(rows, target));
    }
  }

  lemma AllBeyondCap(n: nat, target: real) returns (rows: seq<seq<real>>)
    requires 0.0 <= target <= 1.0 && n > 0
    ensures |rows| == n && CountAbove(Peaks(rows), Theta(rows, target)) == n
  {
    hide Peaks, CountAbove, Cutoff, Allowed, RowsOf, Sort;
    var peaks := seq(n, _ => 50.0);
    rows := RowsOf(peaks);
    RowsOfFacts(peaks);
    hide Ascending;
    ThetaBoundsHalf();
    var theta := CutoffFacts(peaks, target, THETA_MIN, THETA_MAX);
    AboveAtMost(peaks, theta, 0);
  }

  /** The share is exceeded at the repository's own 3 percent: nine calibration rows with a largest |z|
      of 5 and one of 10 give a threshold of 9, which one row in ten exceeds. */
  lemma ExceedanceBroken()
    ensures var rows := RowsOf([5.0, 5.0, 5.0, 5.0, 5.0, 5.0, 5.0, 5.0, 5.0, 10.0]);
      Theta(rows, 0.03) == 9.0 && CountAbove(Peaks(rows), 9.0) == 1 && !ExceedanceKept(rows, 0.03)
  {
    hide Peaks, Sort, UpperPctl, Clamp, CeilHalf, CountAbove;
    var peaks := [5.0, 5.0, 5.0, 5.0, 5.0, 5.0, 5.0, 5.0, 5.0, 10.0];
    RowsOfFacts(peaks);
    NineFivesAndATen(peaks);
    AboveAtMost(peaks, 9.0, 9);
  }

  lemma NineFivesAndATen(peaks: seq<real>)
    requires peaks == [5.0, 5.0, 5.0, 5.0, 5.0, 5.0, 5.0, 5.0, 5.0, 10.0]
    ensures Clamp(THETA_MIN, THETA_MAX, CeilHalf(UpperPctl(peaks, 0.03))) == 9.0
  {
    hide Interpolate, Pctl, UpperPctl;
    UpperPctlIs(peaks, 0.03);
    assert peaks == TwoLevels(10, 8, 5.0, 10.0);
    hide TwoLevels;
    TwoLevelsInterpolated(10, 8.73, 5.0, 10.0);
    assert UpperPctl(peaks, 0.03) == 8.65;
  }
}
