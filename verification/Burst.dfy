// The burst factor: an EWMA of the packet rate that the engine steps every second, computed by one
// pass over the windows that exist.
module Burst {
  import opened RealMath
  import opened Strings
  import opened Options
  import Slots

  const ALPHA := 0.033
  const SEED_FLOOR := 1.0
  const FACTOR_NORMAL := 100
  const BURST_MAX := 3030

  function Step(mean: real, x: real): real {
    if mean < SEED_FLOOR then x else mean + ALPHA * (x - mean)
  }

  function Factor(meanPost: real, x: real): int {
    if meanPost > 0.0 then Trunc(x * 100.0 / meanPost) else FACTOR_NORMAL
  }

  // ----- the engine: one step per second, traffic or not -----

  /** One destination's rate in each second that has a window; every other second is silent. */
  type Rates = map<int, real>

  function RateAt(m: Rates, s: int): real {
    if s in m then m[s] else 0.0
  }

  /** The mean after second s of a run that begins with mean 0 before second start. */
  function DenseMean(m: Rates, start: int, s: int): real
    decreases s - start + 1
  {
    if s < start then 0.0 else Step(DenseMean(m, start, s - 1), RateAt(m, s))
  }

  /** k seconds of silence. */
  function Silence(mean: real, k: nat): real {
    if k == 0 then mean else Step(Silence(mean, k - 1), 0.0)
  }

  predicate SilentBetween(m: Rates, a: int, b: int) {
    forall s :: a < s < b ==> RateAt(m, s) == 0.0
  }

  predicate SilentBefore(m: Rates, b: int) {
    forall s :: s in m && s < b ==> m[s] == 0.0
  }

  lemma {:induction false} DenseOverSilence(m: Rates, start: int, a: int, b: int)
    requires start - 1 <= a < b && SilentBetween(m, a, b)
    ensures DenseMean(m, start, b - 1) == Silence(DenseMean(m, start, a), b - 1 - a)
    decreases b - a
  {
    hide Step;
    if a + 1 < b {
      DenseOverSilence(m, start, a, b - 1);
      assert RateAt(m, b - 1) == 0.0;
    }
  }

  lemma {:induction false} DenseBeforeTraffic(m: Rates, start: int, s: int)
    requires SilentBefore(m, s + 1)
    ensures DenseMean(m, start, s) == 0.0
    decreases s - start + 1
  {
    if start <= s {
      DenseBeforeTraffic(m, start, s - 1);
      assert RateAt(m, s) == 0.0;
    }
  }

  /** Where the dense run starts does not matter, as long as it is not after the first traffic. */
  lemma {:induction false} StartIrrelevant(m: Rates, start: int, other: int, s: int)
    requires SilentBefore(m, start) && SilentBefore(m, other)
    ensures DenseMean(m, start, s) == DenseMean(m, other, s)
    decreases if s < start || s < other then 0 else s - start + 1
  {
    if s < start || s < other {
      assert SilentBefore(m, s + 1);
      DenseBeforeTraffic(m, start, s);
      DenseBeforeTraffic(m, other, s);
    } else {
      StartIrrelevant(m, start, other, s - 1);
    }
  }

  lemma {:induction false} SilenceAtZero(k: nat)
    ensures Silence(0.0, k) == 0.0
  {
    if k > 0 {
      SilenceAtZero(k - 1);
    }
  }

  lemma {:induction false} SilenceSplit(mean: real, j: nat, k: nat)
    ensures Silence(Silence(mean, j), k) == Silence(mean, j + k)
  {
    hide Step;
    if k > 0 {
      SilenceSplit(mean, j, k - 1);
    }
  }

  /** The inner loop: step over the seconds with no window, leaving early once the mean is 0. */
  method StepSilent(mean: real, gap: int) returns (r: real)
    ensures r == Silence(mean, if gap < 0 then 0 else gap)
  {
    r := mean;
    var k := 0;
    while k < gap
      invariant 0 <= k && (gap < 0 ==> k == 0) && (0 <= gap ==> k <= gap)
      invariant r == Silence(mean, k)
    {
      if r == 0.0 {
        SilenceSplit(mean, k, gap - k);
        SilenceAtZero(gap - k);
        break;
      }
      r := Step(r, 0.0);
      k := k + 1;
    }
  }

  // ----- pcap_feature_extractor.py: all destinations in one pass -----

  datatype Window = Window(dst: string, sec: int, n: nat)
  datatype Row = Row(dst: string, sec: int, mean: real, factor: int)

  /** sorted(self.windows.items()): strictly increasing (destination, second) keys. */
  predicate SortedKeys(ws: seq<Window>) {
    forall i, j :: 0 <= i < j < |ws| ==>
      Less(ws[i].dst, ws[j].dst) || (ws[i].dst == ws[j].dst && ws[i].sec < ws[j].sec)
  }

  lemma KeysUnique(ws: seq<Window>, i: nat, j: nat)
    requires SortedKeys(ws) && i < |ws| && j < |ws| && ws[i].dst == ws[j].dst
    ensures i < j <==> ws[i].sec < ws[j].sec
  {
    LessIrreflexive(ws[i].dst);
  }

  ghost function RatesOf(ws: seq<Window>, dst: string): Rates
    requires SortedKeys(ws)
  {
    LessIrreflexive(dst);
    map k | 0 <= k < |ws| && ws[k].dst == dst :: ws[k].sec := ws[k].n as real
  }

  /** The windows of one destination are contiguous. */
  lemma Contiguous(ws: seq<Window>, i: nat, k: nat, j: nat)
    requires SortedKeys(ws) && i <= k <= j < |ws| && ws[i].dst == ws[j].dst
    ensures ws[k].dst == ws[i].dst
  {
    Sandwich(ws[i].dst, ws[k].dst);
  }

  /** What each destination's own dense run says, for the windows with traffic among the first i. */
  ghost function DenseRows(ws: seq<Window>, start: int, i: nat): seq<Row>
    requires SortedKeys(ws) && i <= |ws|
  {
    if i == 0 then []
    else
      var w := ws[i - 1];
      if w.n == 0 then DenseRows(ws, start, i - 1)
      else
        var mean := DenseMean(RatesOf(ws, w.dst), start, w.sec);
        DenseRows(ws, start, i - 1) + [Row(w.dst, w.sec, mean, Factor(mean, w.n as real))]
  }

  /** Position last is the latest window with traffic among the first i. */
  predicate LastTraffic(ws: seq<Window>, last: int, i: nat) {
    && -1 <= last < i <= |ws|
    && (0 <= last ==> ws[last].n > 0)
    && forall k :: last < k < i ==> ws[k].n == 0
  }

  /** The next window continues the same destination: only silence in between. */
  lemma ContinuesAfterSilence(ws: seq<Window>, last: nat, i: nat)
    requires SortedKeys(ws) && i < |ws| && LastTraffic(ws, last, i) && ws[last].dst == ws[i].dst
    ensures ws[last].sec < ws[i].sec
    ensures SilentBetween(RatesOf(ws, ws[i].dst), ws[last].sec, ws[i].sec)
  {
    KeysUnique(ws, last, i);
    var m := RatesOf(ws, ws[i].dst);
    forall s | ws[last].sec < s < ws[i].sec ensures RateAt(m, s) == 0.0 {
      if s in m {
        var k :| 0 <= k < |ws| && ws[k].dst == ws[i].dst && ws[k].sec == s;
        KeysUnique(ws, last, k);
        KeysUnique(ws, k, i);
        RateOfWindow(ws, k);
      }
    }
  }

  /** The next window opens a destination: nothing came before it. */
  lemma OpensAfterSilence(ws: seq<Window>, last: int, i: nat)
    requires SortedKeys(ws) && i < |ws| && LastTraffic(ws, last, i)
    requires 0 <= last ==> ws[last].dst != ws[i].dst
    ensures SilentBefore(RatesOf(ws, ws[i].dst), ws[i].sec)
  {
    var m := RatesOf(ws, ws[i].dst);
    forall s | s in m && s < ws[i].sec ensures m[s] == 0.0 {
      var k :| 0 <= k < |ws| && ws[k].dst == ws[i].dst && ws[k].sec == s;
      KeysUnique(ws, k, i);
      RateOfWindow(ws, k);
      if k <= last {
        Contiguous(ws, k, last, i);
      }
    }
  }

  lemma RateOfWindow(ws: seq<Window>, i: nat)
    requires SortedKeys(ws) && i < |ws|
    ensures RateAt(RatesOf(ws, ws[i].dst), ws[i].sec) == ws[i].n as real
  {
    var m := RatesOf(ws, ws[i].dst);
    assert ws[i].sec in m;
    var k :| 0 <= k < |ws| && ws[k].dst == ws[i].dst && ws[k].sec == ws[i].sec && m[ws[i].sec] == ws[k].n as real;
    KeysUnique(ws, i, k);
    KeysUnique(ws, k, i);
  }

  /** finalize(): one running mean serves every destination in turn, windows without packets are
      passed over, and silent seconds are stepped only while the mean is not 0. The result is what a
      separate dense run per destination gives. */
  method FinalizeBursts(ws: seq<Window>, ghost start: int) returns (out: seq<Row>)
    requires SortedKeys(ws) && forall k :: 0 <= k < |ws| ==> start <= ws[k].sec
    ensures out == DenseRows(ws, start, |ws|)
  {
    hide Step, Factor, DenseMean, Silence, RatesOf, SortedKeys, RateAt;
    out := [];
    var bDst: Option<string>, bSec, bMean := None, 0, 0.0;
    ghost var last := -1;
    for i := 0 to |ws|
      invariant out == DenseRows(ws, start, i)
      invariant LastTraffic(ws, last, i)
      invariant last == -1 <==> bDst.None?
      invariant 0 <= last ==>
        bDst == Some(ws[last].dst) && bSec == ws[last].sec && bMean == DenseMean(RatesOf(ws, ws[last].dst), start, bSec)
    {
      var w := ws[i];
      if w.n > 0 {
        if bDst != Some(w.dst) {
          OpensAfterSilence(ws, last, i);
          DenseBeforeTraffic(RatesOf(ws, w.dst), start, w.sec - 1);
          bDst, bMean := Some(w.dst), 0.0;
        } else {
          ContinuesAfterSilence(ws, last, i);
          DenseOverSilence(RatesOf(ws, w.dst), start, bSec, w.sec);
          bMean := StepSilent(bMean, w.sec - bSec - 1);
        }
        RateOfWindow(ws, i);
        DenseStep(RatesOf(ws, w.dst), start, w.sec);
        bMean := Step(bMean, w.n as real);
        bSec := w.sec;
        out := out + [Row(w.dst, w.sec, bMean, Factor(bMean, w.n as real))];
        last := i;
      }
    }
  }

  lemma DenseStep(m: Rates, start: int, s: int)
    requires start <= s
    ensures DenseMean(m, start, s) == Step(DenseMean(m, start, s - 1), RateAt(m, s))
  {
  }

  // ----- litnet_loader.py: one destination or subnet at a time -----

  predicate Increasing(keys: seq<int>) {
    forall i, j :: 0 <= i < j < |keys| ==> keys[i] < keys[j]
  }

  /** Between one window and the next there is only silence, and before the first nothing. */
  lemma GapBefore(m: Rates, keys: seq<int>, i: nat, start: int)
    requires Increasing(keys) && m.Keys == (set k | k in keys) && i < |keys|
    requires forall k :: k in keys ==> start <= k
    ensures keys[i] in m
    ensures i == 0 ==> DenseMean(m, start, keys[i] - 1) == 0.0
    ensures i > 0 ==>
      && keys[i - 1] < keys[i]
      && DenseMean(m, start, keys[i] - 1) == Silence(DenseMean(m, start, keys[i - 1]), keys[i] - keys[i - 1] - 1)
    ensures DenseMean(m, start, keys[i]) == Step(DenseMean(m, start, keys[i] - 1), m[keys[i]])
  {
    hide Step, DenseMean, Silence;
    var key := keys[i];
    assert key in keys;
    DenseStep(m, start, key);
    if i > 0 {
      assert keys[i - 1] in keys;
      assert SilentBetween(m, keys[i - 1], key);
      DenseOverSilence(m, start, keys[i - 1], key);
    } else {
      assert SilentBefore(m, key);
      DenseBeforeTraffic(m, start, key - 1);
    }
  }

  /** The finalize loop of load_litnet_per_ip and load_litnet_per_subnet, for one key: means and
      factors over the sorted window numbers, windows without packets included. */
  method LitnetBursts(m: Rates, keys: seq<int>, ghost start: int) returns (means: seq<real>, factors: seq<int>)
    requires Increasing(keys) && m.Keys == (set k | k in keys) && forall k :: k in keys ==> start <= k
    ensures |means| == |factors| == |keys|
    ensures forall i :: 0 <= i < |keys| ==> means[i] == DenseMean(m, start, keys[i])
    ensures forall i :: 0 <= i < |keys| ==> factors[i] == Factor(means[i], m[keys[i]])
  {
    hide Step, Factor, DenseMean, Silence, Increasing;
    means, factors := [], [];
    var mean, prev: Option<int> := 0.0, None;
    for i := 0 to |keys|
      invariant |means| == |factors| == i
      invariant forall j :: 0 <= j < i ==> means[j] == DenseMean(m, start, keys[j])
      invariant forall j :: 0 <= j < i ==> factors[j] == Factor(means[j], m[keys[j]])
      invariant prev == if i == 0 then None else Some(keys[i - 1])
      invariant mean == if i == 0 then 0.0 else DenseMean(m, start, keys[i - 1])
    {
      var key := keys[i];
      GapBefore(m, keys, i, start);
      if prev.Some? {
        mean := StepSilent(mean, key - prev.value - 1);
      }
      var x := m[key];
      mean, prev := Step(mean, x), Some(key);
      means := means + [mean];
      factors := factors + [Factor(mean, x)];
    }
  }

  /** The rows of one destination, as litnet's per-key loop would write them. */
  ghost function OwnRows(ws: seq<Window>, dst: string, start: int, i: nat): seq<Row>
    requires SortedKeys(ws) && i <= |ws|
  {
    if i == 0 then []
    else
      var w, m := ws[i - 1], RatesOf(ws, dst);
      OwnRows(ws, dst, start, i - 1) +
      if w.dst != dst then []
      else
        var mean := DenseMean(m, start, w.sec);
        [Row(dst, w.sec, mean, Factor(mean, RateAt(m, w.sec)))]
  }

  function RowsFor(rows: seq<Row>, dst: string): seq<Row> {
    if rows == [] then []
    else RowsFor(rows[..|rows| - 1], dst) + if rows[|rows| - 1].dst == dst then [rows[|rows| - 1]] else []
  }

  lemma RowsForNone(dst: string)
    ensures RowsFor([], dst) == []
  {
  }

  lemma RowsForAppend(rows: seq<Row>, r: Row, dst: string)
    ensures RowsFor(rows + [r], dst) == RowsFor(rows, dst) + if r.dst == dst then [r] else []
  {
    assert (rows + [r])[..|rows|] == rows;
  }

  /** The two forms agree: the shared pass of the pcap extractor, read for one destination, is that
      destination's own pass, as every window an aggregator holds has a packet. */
  lemma {:induction false} FormsAgree(ws: seq<Window>, dst: string, start: int, i: nat)
    requires SortedKeys(ws) && i <= |ws| && forall k :: 0 <= k < |ws| ==> ws[k].n > 0
    ensures RowsFor(DenseRows(ws, start, i), dst) == OwnRows(ws, dst, start, i)
  {
    hide DenseMean, Factor, RateAt, RatesOf, RowsFor;
    RowsForNone(dst);
    if i > 0 {
      var w := ws[i - 1];
      var mean := DenseMean(RatesOf(ws, w.dst), start, w.sec);
      FormsAgree(ws, dst, start, i - 1);
      RateOfWindow(ws, i - 1);
      RowsForAppend(DenseRows(ws, start, i - 1), Row(w.dst, w.sec, mean, Factor(mean, w.n as real)), dst);
    }
  }

  // ----- range and decay -----

  lemma QuotientBound(x: real, m: real, b: real)
    requires 0.0 < m && x <= b * m
    ensures x / m <= b
  {
    var q := x / m;
    assert q * m == x;
    if q > b {
      ProductPositive(q - b, m);
      assert false;
    }
  }

  lemma QuotientSign(x: real, m: real)
    requires 0.0 < m && 0.0 <= x
    ensures 0.0 <= x / m
  {
  }

  /** On a nonnegative rate the factor is between 0 and 3030, after any earlier mean. */
  lemma FactorRange(mean: real, x: real)
    requires 0.0 <= x
    ensures 0 <= Factor(Step(mean, x), x) <= BURST_MAX
  {
    var post := Step(mean, x);
    if post > 0.0 {
      QuotientSign(x * 100.0, post);
      if mean < SEED_FLOOR {
        QuotientBound(x * 100.0, post, 100.0);
      } else {
        assert 33.0 * x <= 1000.0 * post;
        QuotientBound(x * 100.0, post, 100000.0 / 33.0);
      }
    }
  }

  /** The bound is reached, so it cannot be lowered. */
  lemma FactorMaximum()
    ensures Factor(Step(1.0, 1000000.0), 1000000.0) == BURST_MAX
  {
    assert Step(1.0, 1000000.0) == 33000.967;
    var q := 100000000.0 / 33000.967;
    assert q * 33000.967 == 100000000.0;
    assert 3030.0 <= q < 3031.0;
  }

  /** A destination's first traffic always reads 100, and so does the first after a faded mean. */
  lemma SeedReads100(mean: real, x: real)
    requires mean < SEED_FLOOR && 0.0 <= x
    ensures Factor(Step(mean, x), x) == FACTOR_NORMAL
  {
    if x > 0.0 {
      var q := x * 100.0 / x;
      assert q * x == x * 100.0;
      assert (q - 100.0) * x == 0.0;
    }
  }

  lemma {:induction false} FirstTrafficReads100(m: Rates, start: int, s: int)
    requires start <= s && s in m && 0.0 <= m[s] && SilentBefore(m, s)
    ensures Factor(DenseMean(m, start, s), m[s]) == FACTOR_NORMAL
  {
    DenseBeforeTraffic(m, start, s - 1);
    SeedReads100(0.0, m[s]);
  }

  lemma {:induction false} DenseNonNegative(m: Rates, start: int, s: int)
    requires forall t :: t in m ==> 0.0 <= m[t]
    ensures 0.0 <= DenseMean(m, start, s)
    decreases s - start + 1
  {
    if start <= s {
      DenseNonNegative(m, start, s - 1);
    }
  }

  /** In every run on nonnegative rates, at every second. */
  lemma RunFactorRange(m: Rates, start: int, s: int)
    requires start <= s && forall t :: t in m ==> 0.0 <= m[t]
    ensures 0 <= Factor(DenseMean(m, start, s), RateAt(m, s)) <= BURST_MAX
  {
    DenseStep(m, start, s);
    FactorRange(DenseMean(m, start, s - 1), RateAt(m, s));
  }

  /** While it is at least 1 before each step, a silent mean falls by the factor 0.967. */
  lemma {:induction false} SilentDecay(mean: real, k: nat)
    requires forall j :: 0 <= j < k ==> Silence(mean, j) >= SEED_FLOOR
    ensures Silence(mean, k) == Pow(1.0 - ALPHA, k) * mean
  {
    if k > 0 {
      SilentDecay(mean, k - 1);
      assert Silence(mean, k - 1) >= SEED_FLOOR;
      DecayAlgebra(Pow(1.0 - ALPHA, k - 1), mean);
    }
  }

  lemma DecayAlgebra(p: real, mean: real)
    ensures p * mean + ALPHA * (0.0 - p * mean) == ((1.0 - ALPHA) * p) * mean
  {
  }

  /** Below 1 it is 0 one second later and for good. */
  lemma SilentDeath(mean: real, k: nat, j: nat)
    requires Silence(mean, k) < SEED_FLOOR && k < j
    ensures Silence(mean, j) == 0.0
  {
    SilenceSplit(mean, k + 1, j - k - 1);
    SilenceAtZero(j - k - 1);
  }

  lemma {:induction false} SilentFall(mean: real, k: nat)
    ensures Silence(mean, k) == 0.0 || Silence(mean, k) <= mean - ALPHA * k as real
  {
    if k > 0 {
      SilentFall(mean, k - 1);
    }
  }

  /** And that happens: after more than (mean - 1)/0.033 silent seconds the mean is 0. */
  lemma SilenceReachesZero(mean: real, k: nat)
    requires ALPHA * k as real > mean - SEED_FLOOR
    ensures forall j :: k < j ==> Silence(mean, j) == 0.0
  {
    SilentFall(mean, k);
    forall j | k < j ensures Silence(mean, j) == 0.0 {
      SilentDeath(mean, k, j);
    }
  }

  // ----- seconds with traffic -----

  /** The rates of the n seconds from second s on. */
  function RatesFrom(m: Rates, s: int, n: nat): (xs: seq<real>)
    ensures |xs| == n
  {
    seq(n, i requires 0 <= i < n => RateAt(m, s + i))
  }

  /** The n seconds from second s on all end with a mean of at least 1. */
  predicate Busy(m: Rates, start: int, s: int, n: nat) {
    forall t :: s <= t < s + n ==> DenseMean(m, start, t) >= 1.0
  }

  lemma StepMixes(mean: real, x: real)
    ensures mean >= 1.0 ==> Step(mean, x) == Slots.Mix(0.033, mean, x)
    ensures mean < 1.0 ==> Step(mean, x) == x
  {
  }

  /** From any second on, while the mean stays at least 1, it is the weighted mean of its value then and
      the rates since, each second keeping 0.967 of the old weights and giving 0.033 to its own rate. */
  lemma {:induction false} BusyIsWeighted(m: Rates, start: int, s: int, n: nat)
    requires Busy(m, start, s, n)
    ensures DenseMean(m, start, s + n) == Slots.WeightedSum(0.033, [DenseMean(m, start, s)] + RatesFrom(m, s + 1, n))
  {
    hide Step, Slots.WeightedSum, Slots.Mix, RateAt;
    var mean := DenseMean(m, start, s);
    if n == 0 {
      assert [mean] + RatesFrom(m, s + 1, 0) == [mean];
      Slots.WeightedSumStep(0.033, [], mean);
    } else {
      BusyIsWeighted(m, start, s, n - 1);
      var x, before := RateAt(m, s + n), [mean] + RatesFrom(m, s + 1, n - 1);
      assert [mean] + RatesFrom(m, s + 1, n) == before + [x];
      assert DenseMean(m, start, s + n - 1) >= 1.0;
      DenseFrom(m, start, s + n);
      StepMixes(DenseMean(m, start, s + n - 1), x);
      Slots.WeightedSumStep(0.033, before, x);
    }
  }

  lemma DenseFrom(m: Rates, start: int, s: int)
    requires DenseMean(m, start, s - 1) >= 1.0
    ensures start <= s
    ensures DenseMean(m, start, s) == Step(DenseMean(m, start, s - 1), RateAt(m, s))
  {
  }

  /** After a mean below 1 the next second seeds it with its own rate, and from there on it is the
      weighted mean of the rates alone. */
  lemma SeededIsWeighted(m: Rates, start: int, s: int, n: nat)
    requires start <= s && DenseMean(m, start, s - 1) < 1.0 && Busy(m, start, s, n)
    ensures DenseMean(m, start, s + n) == Slots.WeightedSum(0.033, RatesFrom(m, s, n + 1))
  {
    hide Step, Slots.WeightedSum;
    DenseStep(m, start, s);
    StepMixes(DenseMean(m, start, s - 1), RateAt(m, s));
    BusyIsWeighted(m, start, s, n);
    assert RatesFrom(m, s, n + 1) == [RateAt(m, s)] + RatesFrom(m, s + 1, n);
  }

  /** So it lies between the least and the greatest of them. */
  lemma BusyBetween(m: Rates, start: int, s: int, n: nat, lo: real, hi: real)
    requires Busy(m, start, s, n) && lo <= DenseMean(m, start, s) <= hi
    requires forall t :: s < t <= s + n ==> lo <= RateAt(m, t) <= hi
    ensures lo <= DenseMean(m, start, s + n) <= hi
  {
    hide DenseMean, RateAt, Slots.WeightedSum, Slots.Squares, Slots.Chord;
    BusyIsWeighted(m, start, s, n);
    Slots.MomentBounds(0.033, [DenseMean(m, start, s)] + RatesFrom(m, s + 1, n), lo, hi);
  }

  /** A constant rate of at least 1 after silence keeps that mean and reads 100 in every second. */
  lemma {:induction false} ConstantRate(m: Rates, start: int, s: int, n: nat, x: real)
    requires start <= s && 1.0 <= x && DenseMean(m, start, s - 1) < 1.0
    requires forall t :: s <= t <= s + n ==> RateAt(m, t) == x
    ensures DenseMean(m, start, s + n) == x && Factor(x, x) == 100
  {
    SeedReads100(0.0, x);
    DenseStep(m, start, s);
    hide Factor;
    if n > 0 {
      ConstantRate(m, start, s, n - 1, x);
      DenseStep(m, start, s + n);
      assert RateAt(m, s + n) == x;
    }
  }

  /** The factor is the percentage of the rate over the mean, rounded down; without a mean it is 100. */
  lemma FactorIs(mean: real, x: real)
    ensures 0.0 < mean && 0.0 <= x ==>
      var f := Factor(mean, x);
      f as real * mean <= 100.0 * x < (f + 1) as real * mean
    ensures mean <= 0.0 ==> Factor(mean, x) == 100
  {
    if 0.0 < mean && 0.0 <= x {
      var f := Factor(mean, x);
      QuotientSign(x * 100.0, mean);
      QuotientTimes(x * 100.0, mean);
      Scaled(f as real, x * 100.0 / mean, (f + 1) as real, mean, x * 100.0);
    }
  }

  lemma Scaled(lo: real, q: real, hi: real, m: real, y: real)
    requires 0.0 < m && lo <= q < hi && q * m == y
    ensures lo * m <= y < hi * m
  {
    MulMonotone(lo, q, m);
    MulStrict(q, hi, m);
  }

  lemma MulStrict(a: real, b: real, m: real)
    requires a < b && 0.0 < m
    ensures a * m < b * m
  {
    if b * m <= a * m {
      DivideOut(b, a, m);
    }
  }
}
