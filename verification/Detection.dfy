// The z-score path of detect_row, and the false-positive rate that the calibrated threshold gives it on
// its own calibration rows.
module Detection {
  import opened RealMath
  import opened Sequences
  import opened Ranks
  import opened Calibration

  const MIN_TIERS := 2
  const SINGLE_TIER_MULT := 1.25

  /** The z-scores of the three tiers; a tier that is not ready has none. */
  type Row = tiers: seq<seq<real>> | |tiers| == 3 witness [[], [], []]

  function Flatten(tiers: seq<seq<real>>): seq<real> {
    if tiers == [] then [] else Flatten(tiers[..|tiers| - 1]) + tiers[|tiers| - 1]
  }

  /** A tier votes when its largest |z| reaches the threshold. */
  predicate Votes(zs: seq<real>, theta: real) {
    zs != [] && Peak(zs) >= theta
  }

  function VoteCount(tiers: seq<seq<real>>, theta: real): nat {
    if tiers == [] then 0
    else VoteCount(tiers[..|tiers| - 1], theta) + if Votes(tiers[|tiers| - 1], theta) then 1 else 0
  }

  /** Two tiers, or one together with a z-score a quarter beyond the threshold. */
  predicate Detected(row: Row, theta: real) {
    || VoteCount(row, theta) >= MIN_TIERS
    || (VoteCount(row, theta) >= 1 && Peak(Flatten(row)) >= theta * SINGLE_TIER_MULT)
  }

  lemma {:induction false} PeakConcat(a: seq<real>, b: seq<real>)
    ensures Peak(a + b) == Max(Peak(a), Peak(b))
    ensures 0.0 <= Peak(a)
  {
    if b == [] {
      PeakNonNegative(a);
      assert a + b == a;
    } else {
      PeakConcat(a, b[..|b| - 1]);
      assert (a + b)[..|a + b| - 1] == a + b[..|b| - 1];
    }
  }

  lemma {:induction false} PeakNonNegative(a: seq<real>)
    ensures 0.0 <= Peak(a)
  {
    if a != [] {
      PeakNonNegative(a[..|a| - 1]);
    }
  }

  /** The tiers with a z-score at v or further out. */
  ghost function TiersReaching(tiers: seq<seq<real>>, v: real): set<nat> {
    set k: nat | k < |tiers| && Reaches(tiers[k], v)
  }

  lemma {:induction false} VotesAreTiers(tiers: seq<seq<real>>, theta: real)
    requires 0.0 < theta
    ensures VoteCount(tiers, theta) == |TiersReaching(tiers, theta)|
  {
    hide Peak, Reaches;
    if tiers == [] {
      assert TiersReaching(tiers, theta) == {};
    } else {
      var n := |tiers| - 1;
      VotesAreTiers(tiers[..n], theta);
      PeakReaches(tiers[n], theta);
      NoPeak();
      assert TiersReaching(tiers, theta)
          == TiersReaching(tiers[..n], theta) + if Reaches(tiers[n], theta) then {n} else {};
    }
  }

  lemma {:induction false} FlattenMembers(tiers: seq<seq<real>>, z: real)
    ensures z in Flatten(tiers) <==> InRow(tiers, z)
  {
    if tiers != [] {
      var n := |tiers| - 1;
      FlattenMembers(tiers[..n], z);
      if z in Flatten(tiers[..n]) {
        var k :| 0 <= k < n && z in tiers[..n][k];
        assert z in tiers[k];
      }
      if k :| 0 <= k < |tiers| && z in tiers[k] {
        if k < n {
          assert z in tiers[..n][k];
        }
      }
    }
  }

  lemma SomeTierReaches(tiers: seq<seq<real>>, v: real)
    requires 0.0 < v
    ensures Peak(Flatten(tiers)) >= v <==> TiersReaching(tiers, v) != {}
  {
    hide Peak, Flatten;
    PeakReaches(Flatten(tiers), v);
    if Reaches(Flatten(tiers), v) {
      var z :| z in Flatten(tiers) && (z >= v || z <= -v);
      FlattenMembers(tiers, z);
      var k :| 0 <= k < |tiers| && z in tiers[k];
      assert k in TiersReaching(tiers, v);
    }
    if k: nat :| k in TiersReaching(tiers, v) {
      var z :| z in tiers[k] && (z >= v || z <= -v);
      FlattenMembers(tiers, z);
    }
  }

  /** z is one of the row's z-scores. */
  predicate InRow(tiers: seq<seq<real>>, z: real) {
    exists k :: 0 <= k < |tiers| && z in tiers[k]
  }

  /** The row's largest |z|: no z-score of any tier is further out and, if there is any, one is as far. */
  lemma LargestOfRow(tiers: seq<seq<real>>)
    ensures var p := Peak(Flatten(tiers));
      && (forall z :: InRow(tiers, z) ==> -p <= z <= p)
      && (InRow(tiers, p) || InRow(tiers, -p) || (p == 0.0 && forall z :: !InRow(tiers, z)))
  {
    hide Peak, Flatten;
    PeakIsLargest(Flatten(tiers));
    forall z ensures z in Flatten(tiers) <==> InRow(tiers, z) {
      FlattenMembers(tiers, z);
    }
  }

  /** A row is detected when two tiers have a z-score at theta or further out, or one tier has one at a
      quarter beyond theta. */
  lemma DetectedExactly(row: Row, theta: real)
    requires 0.0 < theta
    ensures VoteCount(row, theta) == |TiersReaching(row, theta)|
    ensures Detected(row, theta) <==> |TiersReaching(row, theta)| >= 2 || TiersReaching(row, 1.25 * theta) != {}
  {
    hide Peak, Flatten, VoteCount, TiersReaching;
    VotesAreTiers(row, theta);
    assert TiersReaching(row, theta) != {} ==> |TiersReaching(row, theta)| >= 1;
    SomeTierReaches(row, theta);
    SomeTierReaches(row, 1.25 * theta);
  }

  /** Turning every z-score round changes nothing. */
  lemma DetectedMirrored(row: Row, theta: real)
    requires 0.0 < theta
    ensures Detected(MirroredRows(row), theta) == Detected(row, theta)
  {
    hide Detected, VoteCount;
    DetectedExactly(row, theta);
    DetectedExactly(MirroredRows(row), theta);
    ReachingMirrored(row, theta);
    ReachingMirrored(row, 1.25 * theta);
  }

  lemma ReachingMirrored(tiers: seq<seq<real>>, v: real)
    requires 0.0 < v
    ensures TiersReaching(MirroredRows(tiers), v) == TiersReaching(tiers, v)
  {
    hide Reaches, Mirrored;
    forall k | 0 <= k < |tiers| ensures Reaches(MirroredRows(tiers)[k], v) == Reaches(tiers[k], v) {
      PeakMirrored(tiers[k]);
      PeakReaches(tiers[k], v);
      PeakReaches(Mirrored(tiers[k]), v);
    }
  }

  /** detect_row, up to the CUSUM and divergence votes. */
  method DetectRow(row: Row, theta: real) returns (detected: bool, triggered: nat, zMax: real)
    ensures detected == Detected(row, theta)
    ensures triggered == VoteCount(row, theta) && zMax == Peak(Flatten(row))
    ensures 0.0 < theta ==> triggered == |TiersReaching(row, theta)|
    ensures 0.0 < theta ==> (detected <==> triggered >= 2 || TiersReaching(row, 1.25 * theta) != {})
    ensures forall z :: InRow(row, z) ==> -zMax <= z <= zMax
    ensures InRow(row, zMax) || InRow(row, -zMax) || (zMax == 0.0 && forall z :: !InRow(row, z))
  {
    hide Peak, Max, TiersReaching, InRow;
    if 0.0 < theta {
      DetectedExactly(row, theta);
    }
    LargestOfRow(row);
    triggered, zMax := 0, 0.0;
    NoPeak();
    for k := 0 to |row|
      invariant triggered == VoteCount(row[..k], theta) && zMax == Peak(Flatten(row[..k]))
    {
      assert row[..k + 1][..k] == row[..k];
      PeakConcat(Flatten(row[..k]), row[k]);
      if row[k] != [] {
        var tierMax := Peak(row[k]);
        if tierMax >= theta {
          triggered := triggered + 1;
        }
        zMax := Max(zMax, tierMax);
      } else {
        assert Flatten(row[..k]) + row[k] == Flatten(row[..k]);
      }
    }
    assert row[..|row|] == row;
    detected := triggered >= MIN_TIERS;
    if !detected && triggered >= 1 && zMax >= theta * SINGLE_TIER_MULT {
      detected := true;
    }
  }

  lemma NoPeak()
    ensures Peak([]) == 0.0
  {
  }

  lemma {:induction false} VoteReaches(tiers: seq<seq<real>>, theta: real)
    requires 0.0 < theta
    ensures VoteCount(tiers, theta) >= 1 <==> Peak(Flatten(tiers)) >= theta
  {
    hide Peak;
    if tiers == [] {
      NoPeak();
    } else {
      var n := |tiers| - 1;
      VoteReaches(tiers[..n], theta);
      PeakConcat(Flatten(tiers[..n]), tiers[n]);
      NoPeak();
    }
  }

  /** A detected row has a z-score at the threshold, and one a quarter beyond it suffices. */
  lemma DetectedBetween(row: Row, theta: real)
    requires 0.0 < theta
    ensures Detected(row, theta) ==> Peak(Flatten(row)) >= theta
    ensures Peak(Flatten(row)) >= theta * SINGLE_TIER_MULT ==> Detected(row, theta)
  {
    hide Peak, Flatten, VoteCount;
    VoteReaches(row, theta);
  }

  // ----- the false-positive rate on the calibration rows -----

  function FlatRows(rows: seq<Row>): seq<seq<real>> {
    Map(rows, (row: Row) => Flatten(row))
  }

  /** calibrate_threshold on these rows. */
  function Threshold(rows: seq<Row>, target: real): real
    requires 0.0 <= target <= 1.0
  {
    Theta(FlatRows(rows), target)
  }

  function Flagged(rows: seq<Row>, theta: real): nat {
    if rows == [] then 0 else (if Detected(rows[0], theta) then 1 else 0) + Flagged(rows[1..], theta)
  }

  /** No row has a z-score beyond the cap. */
  predicate Within(rows: seq<Row>) {
    PeaksWithin(FlatRows(rows), THETA_MAX)
  }

  /** No row's largest |z| is a value that the threshold can take. */
  predicate OffGrid(rows: seq<Row>) {
    forall i :: 0 <= i < |rows| ==> !(THETA_MIN <= Peak(Flatten(rows[i])) && Half(Peak(Flatten(rows[i]))))
  }

  /** The detector with the calibrated threshold flags at most the target share of its calibration rows. */
  predicate RateKept(rows: seq<Row>, target: real)
    requires 0.0 <= target <= 1.0
  {
    Flagged(rows, Threshold(rows, target)) as real <= target * |rows| as real
  }

  lemma {:induction false} FlaggedAtMost(rows: seq<Row>, theta: real)
    requires 0.0 < theta
    ensures Flagged(rows, theta) <= |rows|
    ensures (forall i :: 0 <= i < |rows| ==> Peak(Flatten(rows[i])) != theta) ==>
      Flagged(rows, theta) <= CountAbove(Peaks(FlatRows(rows)), theta)
  {
    hide Detected, Peak, Flatten;
    if rows != [] {
      FlaggedAtMost(rows[1..], theta);
      DetectedBetween(rows[0], theta);
      var peaks := Peaks(FlatRows(rows));
      assert peaks[0] == Peak(Flatten(rows[0]));
      assert peaks[1..] == Peaks(FlatRows(rows[1..]));
    }
  }

  /** What survives: when no largest |z| equals the threshold and none is beyond the cap, at most
      ceil(target * (n - 1)) of the n calibration rows are flagged. */
  lemma FlaggedAllowance(rows: seq<Row>, target: real)
    requires 0.0 <= target <= 1.0 && rows != [] && Within(rows)
    requires forall i :: 0 <= i < |rows| ==> Peak(Flatten(rows[i])) != Threshold(rows, target)
    ensures Flagged(rows, Threshold(rows, target)) <= Allowed(|rows|, target)
  {
    hide Flagged, Allowed, CountAbove, PeaksWithin, Cutoff, Peaks, Peak, Flatten;
    ThetaBoundsHalf();
    var theta := CutoffFacts(Peaks(FlatRows(rows)), target, THETA_MIN, THETA_MAX);
    FlaggedAtMost(rows, theta);
    AllowanceBounds(FlatRows(rows), target);
  }

  /** Off the grid the threshold is never met exactly. */
  lemma OffGridAllowance(rows: seq<Row>, target: real)
    requires 0.0 <= target <= 1.0 && rows != [] && Within(rows) && OffGrid(rows)
    ensures Flagged(rows, Threshold(rows, target)) <= Allowed(|rows|, target)
  {
    hide Flagged, Allowed, Cutoff, Within, Peak, Half;
    ThetaBoundsHalf();
    var theta := CutoffFacts(Peaks(FlatRows(rows)), target, THETA_MIN, THETA_MAX);
    FlaggedAllowance(rows, target);
  }

  // ----- rows with one z-score in two tiers -----

  /** Rows that have their z-score in two tiers. */
  function Twice(peaks: seq<real>): seq<Row> {
    Map(peaks, (p: real) => [[p], [p], []])
  }

  lemma PeakOfOne(p: real)
    requires 0.0 <= p
    ensures Peak([p]) == p
  {
    assert [p][..0] == [];
  }

  lemma TwiceRow(p: real, theta: real)
    requires 0.0 <= p && 0.0 < theta
    ensures Peak(Flatten([[p], [p], []])) == p
    ensures Detected([[p], [p], []], theta) <==> p >= theta
  {
    var row: Row := [[p], [p], []];
    PeakOfOne(p);
    assert row[..2] == [[p], [p]] && row[..2][..1] == [[p]] && row[..2][..1][..0] == [];
    assert Flatten(row[..2][..1]) == [] + [p];
    assert Flatten(row[..2]) == [p] + [p];
    assert Flatten(row) == [p] + [p] + [];
    assert [p] + [p] + [] == [p] + [p];
    PeakConcat([p], [p]);
    hide Peak, Flatten;
    assert VoteCount(row[..2][..1], theta) == 0 + if Votes([p], theta) then 1 else 0;
    assert VoteCount(row[..2], theta) == VoteCount(row[..2][..1], theta) + if Votes([p], theta) then 1 else 0;
    assert VoteCount(row, theta) == VoteCount(row[..2], theta);
  }

  lemma {:induction false} TwiceFlagged(peaks: seq<real>, theta: real)
    requires 0.0 < theta && forall i :: 0 <= i < |peaks| ==> 0.0 <= peaks[i]
    ensures |Twice(peaks)| == |peaks| && Peaks(FlatRows(Twice(peaks))) == peaks
    ensures Flagged(Twice(peaks), theta) == CountAbove(peaks, theta) + CountEqual(peaks, theta)
  {
    hide Detected, Peak, Flatten;
    if peaks != [] {
      TwiceFlagged(peaks[1..], theta);
      TwiceRow(peaks[0], theta);
      assert Twice(peaks)[1..] == Twice(peaks[1..]);
      assert Peaks(FlatRows(Twice(peaks))) == [peaks[0]] + Peaks(FlatRows(Twice(peaks[1..])));
    }
  }

  lemma {:induction false} AllEqual(n: nat, v: real)
    ensures CountEqual(seq(n, _ => v), v) == n && CountAbove(seq(n, _ => v), v) == 0
  {
    if n > 0 {
      AllEqual(n - 1, v);
      assert seq(n, _ => v)[1..] == seq(n - 1, _ => v);
    }
  }

  // ----- when the promise holds -----

  /** Rows whose |z| is 5 in two tiers calibrate the threshold to 5, and every one of them is flagged. */
  lemma TiesFlagged(n: nat, target: real)
    requires 0.0 <= target <= 1.0 && n > 0
    ensures var rows := Twice(seq(n, _ => 5.0));
      && |rows| == n && Within(rows)
      && Threshold(rows, target) == 5.0 && Flagged(rows, 5.0) == n
  {
    hide Flagged, CountAbove, CountEqual, Twice, Peaks, Sort, UpperPctl, Clamp, CeilHalf;
    var peaks := seq(n, _ => 5.0);
    TwiceFlagged(peaks, 5.0);
    AllEqual(n, 5.0);
    FlatPercentile(n, target);
  }

  lemma FlatPercentile(n: nat, target: real)
    requires 0.0 <= target <= 1.0 && n > 0
    ensures var peaks := seq(n, _ => 5.0);
      Sort(peaks, Identity) == peaks && Clamp(THETA_MIN, THETA_MAX, CeilHalf(UpperPctl(peaks, target))) == 5.0
  {
    hide Interpolate, Pctl, UpperPctl, Position, Sort;
    var peaks := seq(n, _ => 5.0);
    SortKeepsSorted(peaks, Identity);
    UpperPctlIs(peaks, target);
    InterpolateBetween(peaks, Position(n, target));
    assert CeilHalf(5.0) == 5.0;
  }

  ghost predicate AllRatesKept(n: nat, target: real)
    requires 0.0 <= target <= 1.0
  {
    forall rows: seq<Row> :: |rows| == n && Within(rows) ==> RateKept(rows, target)
  }

  /** The configuration promises a false-positive rate of at most target on the calibration rows. The
      detector flags at the threshold, not beyond it, so even without a z-score beyond the cap no data
      set size keeps that promise at any target below 1. */
  lemma RatePromise(n: nat, target: real)
    requires 0.0 <= target <= 1.0 && n > 0
    ensures AllRatesKept(n, target) <==> target == 1.0
  {
    hide Flagged, Within, Threshold;
    var ties := Twice(seq(n, _ => 5.0));
    TiesFlagged(n, target);
    BelowAll(n, target);
    assert RateKept(ties, target) <==> n as real <= target * n as real;
    forall rows: seq<Row> | |rows| == n ensures Flagged(rows, Threshold(rows, target)) <= n {
      ThresholdPositive(rows, target);
      FlaggedAtMost(rows, Threshold(rows, target));
    }
  }

  lemma ThresholdPositive(rows: seq<Row>, target: real)
    requires 0.0 <= target <= 1.0
    ensures 0.0 < Threshold(rows, target)
  {
    hide Cutoff, Peaks, Half;
    ThetaBoundsHalf();
    var theta := CutoffFacts(Peaks(FlatRows(rows)), target, THETA_MIN, THETA_MAX);
  }

  /** The same promise on rows whose largest |z| the threshold cannot meet exactly. */
  ghost predicate AllOffGridKept(n: nat, target: real)
    requires 0.0 <= target <= 1.0
  {
    forall rows: seq<Row> :: |rows| == n && Within(rows) && OffGrid(rows) ==> RateKept(rows, target)
  }

  lemma LevelOffGrid(n: nat, target: real)
    ensures var level := LevelFor(n, target);
      8.5 < level <= 8.9 && !Half(level)
  {
    hide LevelFor;
    LevelBounds(n, target);
    var twice := 2.0 * LevelFor(n, target);
    assert 17.0 < twice < 18.0;
  }

  /** For every size and target some off-grid rows have exactly the allowance flagged. */
  lemma OffGridReached(n: nat, target: real) returns (rows: seq<Row>)
    requires 0.0 <= target <= 1.0 && n > 0
    ensures |rows| == n && Within(rows) && OffGrid(rows)
    ensures Flagged(rows, Threshold(rows, target)) == Allowed(n, target)
  {
    hide Flagged, CountAbove, CountEqual, Peaks, Peak, Flatten, Sort, Cutoff, Allowed, LevelFor, Spread, Half;
    var peaks := AllowancePeaks(n, target);
    LevelOffGrid(n, target);
    SpreadExceeds(peaks, target, THETA_MIN, THETA_MAX, Allowed(n, target));
    var theta := Cutoff(peaks, target, THETA_MIN, THETA_MAX);
    rows := Twice(peaks);
    TwiceFlagged(peaks, theta);
    NoneEqual(peaks, theta);
    forall i | 0 <= i < n ensures Peak(Flatten(rows[i])) == peaks[i] {
      TwiceRow(peaks[i], 1.0);
    }
  }

  lemma {:induction false} NoneEqual(xs: seq<real>, v: real)
    requires forall i :: 0 <= i < |xs| ==> xs[i] != v
    ensures CountEqual(xs, v) == 0
  {
    if xs != [] {
      NoneEqual(xs[1..], v);
    }
  }

  /** On such rows, none beyond the cap, the promise holds for every data set of n rows exactly when
      ceil(target * (n - 1)) <= target * n. */
  lemma OffGridPromise(n: nat, target: real)
    requires 0.0 <= target <= 1.0 && n > 0
    ensures AllOffGridKept(n, target) <==> Allowed(n, target) as real <= target * n as real
  {
    hide Flagged, Within, OffGrid, Threshold, Allowed;
    var worst := OffGridReached(n, target);
    assert RateKept(worst, target) <==> Allowed(n, target) as real <= target * n as real;
    forall rows: seq<Row> | |rows| == n && Within(rows) && OffGrid(rows)
      ensures Flagged(rows, Threshold(rows, target)) <= Allowed(n, target)
    {
      OffGridAllowance(rows, target);
    }
  }

  /** At the repository's own 3 percent: a single calibration row with |z| = 5 in two tiers gives a
      threshold of 5 and is flagged. */
  lemma RateBrokenByTie()
    ensures var rows: seq<Row> := [[[5.0], [5.0], []]];
      Threshold(rows, 0.03) == 5.0 && Flagged(rows, 5.0) == 1 && !RateKept(rows, 0.03)
  {
    hide Flagged, Theta;
    TiesFlagged(1, 0.03);
    assert Twice(seq(1, _ => 5.0)) == [[[5.0], [5.0], []]];
  }

  /** And without a tie: nine rows at 4.4 and one at 8.6, each in two tiers, give 7.5, which the last
      row passes in both. */
  lemma RateBrokenOffGrid()
    ensures var rows := Twice([4.4, 4.4, 4.4, 4.4, 4.4, 4.4, 4.4, 4.4, 4.4, 8.6]);
      Threshold(rows, 0.03) == 7.5 && Flagged(rows, 7.5) == 1 && !RateKept(rows, 0.03)
  {
    hide Flagged, Twice, Peaks, Sort, UpperPctl, Clamp, CeilHalf, CountAbove, CountEqual;
    var peaks := [4.4, 4.4, 4.4, 4.4, 4.4, 4.4, 4.4, 4.4, 4.4, 8.6];
    TwiceFlagged(peaks, 7.5);
    AboveAtMost(peaks, 7.5, 9);
    NoneEqual(peaks, 7.5);
    SortKeepsSorted(peaks, Identity);
    OneHighOfTen(peaks);
  }

  lemma OneHighOfTen(peaks: seq<real>)
    requires peaks == [4.4, 4.4, 4.4, 4.4, 4.4, 4.4, 4.4, 4.4, 4.4, 8.6]
    ensures Clamp(THETA_MIN, THETA_MAX, CeilHalf(UpperPctl(peaks, 0.03))) == 7.5
  {
    hide Interpolate, Pctl, UpperPctl;
    UpperPctlIs(peaks, 0.03);
    assert peaks == TwoLevels(10, 8, 4.4, 8.6);
    hide TwoLevels;
    TwoLevelsInterpolated(10, 8.73, 4.4, 8.6);
    assert UpperPctl(peaks, 0.03) == 7.466;
  }
}
