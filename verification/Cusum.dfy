// CUSUMDetector: two-sided cumulative sums with optional decay and reset on alarm.
module Cusum {
  import opened RealMath
  import opened Sequences

  const K_MULT := 0.25
  const H_MULT := 5.0
  const MIN_SAMPLES := 30
  const CUSUM_FEATURES := ["packets_per_sec", "bytes_per_sec", "flows_per_sec", "burst_factor"]

  /** One feature's reading: its value and the tier-1 mean and deviation it is compared with. */
  datatype Reading = Reading(x: real, mu: real, sigma: real)

  datatype Config = Config(decay: real, hMult: real, noReset: bool)

  /** The running state of one feature. */
  datatype Sums = Sums(high: real, low: real, count: nat)

  const ZERO := Sums(0.0, 0.0, 0)

  function NextHigh(decay: real, high: real, r: Reading): real {
    Max(0.0, decay * high + (r.x - r.mu - K_MULT * r.sigma))
  }

  function NextLow(decay: real, low: real, r: Reading): real {
    Max(0.0, decay * low - (r.x - r.mu + K_MULT * r.sigma))
  }

  function Grow(c: Config, s: Sums, r: Reading): Sums {
    Sums(NextHigh(c.decay, s.high, r), NextLow(c.decay, s.low, r), s.count + 1)
  }

  function Limit(c: Config, sigma: real): real {
    c.hMult * sigma
  }

  predicate Alarms(c: Config, grown: Sums, sigma: real) {
    var h := Limit(c, sigma);
    grown.count >= MIN_SAMPLES && h > 0.0 && (grown.high > h || grown.low > h)
  }

  function Step(c: Config, s: Sums, r: Reading): Sums {
    var g := Grow(c, s, r);
    if Alarms(c, g, r.sigma) && !c.noReset then Sums(0.0, 0.0, g.count) else g
  }

  function Get(row: map<string, real>, f: string): real {
    if f in row then row[f] else 0.0
  }

  function ReadingOf(row: map<string, real>, stats: map<string, (real, real)>, f: string): (r: Reading)
    requires f in stats
    ensures r.x == (if f in row then row[f] else 0.0) && r.mu == stats[f].0 && r.sigma == stats[f].1
  {
    Reading(Get(row, f), stats[f].0, stats[f].1)
  }

  class CUSUMDetector {
    const features: seq<string>
    const config: Config
    var sHigh: map<string, real>
    var sLow: map<string, real>
    var counts: map<string, nat>

    ghost predicate Valid()
      reads this
    {
      NoRepeats(features) && Tracked(features, sHigh, sLow, counts)
    }

    /** The sums of every tracked feature. */
    ghost function State(): map<string, Sums>
      requires Valid()
      reads this
    {
      Pack(features, sHigh, sLow, counts)
    }

    /** The detector keeps those of the caller's features that it knows. */
    constructor (names: seq<string>, config: Config)
      requires NoRepeats(names)
      ensures Valid() && this.config == config
      ensures forall f :: f in features <==> f in names && f in CUSUM_FEATURES
      ensures State() == map f | f in features :: ZERO
    {
      var kept := Known(names);
      features, this.config := kept, config;
      sHigh := map f | f in kept :: 0.0;
      sLow := map f | f in kept :: 0.0;
      counts := map f | f in kept :: 0;
      hide NoRepeats;
    }

    /** The loop body of update() for one feature. */
    method UpdateFeature(f: string, r: Reading) returns (alarm: bool)
      requires Valid() && f in features
      modifies this
      ensures Valid()
      ensures State() == old(State())[f := Step(config, old(State())[f], r)]
      ensures alarm == Alarms(config, Grow(config, old(State())[f], r), r.sigma)
    {
      hide NextHigh, NextLow, Limit, NoRepeats;
      ghost var before := State();
      var h := Limit(config, r.sigma);
      var high, low := NextHigh(config.decay, sHigh[f], r), NextLow(config.decay, sLow[f], r);
      PackOne(features, sHigh, sLow, counts, f, high, low, counts[f] + 1);
      hide Pack, Tracked;
      sHigh, sLow, counts := sHigh[f := high], sLow[f := low], counts[f := counts[f] + 1];
      alarm := false;
      if counts[f] >= MIN_SAMPLES && h > 0.0 {
        if high > h || low > h {
          alarm := true;
          if !config.noReset {
            PackOne(features, sHigh, sLow, counts, f, 0.0, 0.0, counts[f]);
            Overwrite(before, f, Sums(high, low, counts[f]), Sums(0.0, 0.0, counts[f]));
            Overwrite(counts, f, counts[f], counts[f]);
            sHigh := sHigh[f := 0.0];
            sLow := sLow[f := 0.0];
          }
        }
      }
    }

    /** One window: every feature advances by Step and the window alarms when some feature does. */
    method Update(row: map<string, real>, stats: map<string, (real, real)>)
      returns (any: bool, alarms: map<string, bool>)
      requires Valid() && forall f :: f in features ==> f in stats
      modifies this
      ensures Valid()
      ensures State() == Advanced(config, old(State()), row, stats, features)
      ensures alarms == AlarmsOf(config, old(State()), row, stats, features)
      ensures any <==> exists f :: f in alarms && alarms[f]
    {
      ghost var before := State();
      StartAdvance(config, before, row, stats);
      assert NoRepeats(features);
      hide Step, Grow, Alarms, ReadingOf, Valid, State, Advanced, AlarmsOf, NoRepeats;
      alarms, any := map[], false;
      for i := 0 to |features|
        invariant Valid()
        invariant State() == Advanced(config, before, row, stats, features[..i])
        invariant alarms == AlarmsOf(config, before, row, stats, features[..i])
        invariant any <==> exists f :: f in alarms && alarms[f]
      {
        var f := features[i];
        NotYet(features, i);
        AdvanceOne(config, before, row, stats, features[..i], f);
        var alarm := UpdateFeature(f, ReadingOf(row, stats, f));
        alarms := alarms[f := alarm];
        any := any || alarm;
      }
      assert features[..|features|] == features;
    }
  }

  // ----- the dictionaries of the detector as one map -----

  predicate Tracked(features: seq<string>, high: map<string, real>, low: map<string, real>, counts: map<string, nat>) {
    forall f :: f in features ==> f in high && f in low && f in counts
  }

  ghost function Pack(features: seq<string>, high: map<string, real>, low: map<string, real>,
      counts: map<string, nat>): (m: map<string, Sums>)
    requires Tracked(features, high, low, counts)
    ensures forall f :: f in m <==> f in features
  {
    map f | f in features :: Sums(high[f], low[f], counts[f])
  }

  lemma PackOne(features: seq<string>, high: map<string, real>, low: map<string, real>, counts: map<string, nat>,
      f: string, h: real, l: real, n: nat)
    requires Tracked(features, high, low, counts) && f in features
    ensures Tracked(features, high[f := h], low[f := l], counts[f := n])
    ensures Pack(features, high[f := h], low[f := l], counts[f := n])
         == Pack(features, high, low, counts)[f := Sums(h, l, n)]
  {
  }

  lemma Overwrite<K, V>(m: map<K, V>, k: K, u: V, v: V)
    ensures m[k := u][k := v] == m[k := v]
    ensures k in m && m[k] == u ==> m[k := u] == m
  {
  }

  // ----- one window over all features -----

  /** The features in done have taken their reading, the others have not. */
  ghost function Advanced(c: Config, before: map<string, Sums>, row: map<string, real>,
      stats: map<string, (real, real)>, done: seq<string>): map<string, Sums>
    requires forall f :: f in before ==> f in stats
  {
    map f | f in before :: if f in done then Step(c, before[f], ReadingOf(row, stats, f)) else before[f]
  }

  ghost function AlarmsOf(c: Config, before: map<string, Sums>, row: map<string, real>,
      stats: map<string, (real, real)>, done: seq<string>): (m: map<string, bool>)
    requires (forall f :: f in before ==> f in stats) && forall f :: f in done ==> f in before
    ensures forall f :: f in m <==> f in done
  {
    map f | f in done :: Alarms(c, Grow(c, before[f], ReadingOf(row, stats, f)), stats[f].1)
  }

  lemma StartAdvance(c: Config, before: map<string, Sums>, row: map<string, real>, stats: map<string, (real, real)>)
    requires forall f :: f in before ==> f in stats
    ensures Advanced(c, before, row, stats, []) == before && AlarmsOf(c, before, row, stats, []) == map[]
  {
  }

  lemma AdvanceOne(c: Config, before: map<string, Sums>, row: map<string, real>, stats: map<string, (real, real)>,
      done: seq<string>, f: string)
    requires (forall g :: g in before ==> g in stats) && forall g :: g in done ==> g in before
    requires f in before && f !in done
    ensures var now := Advanced(c, before, row, stats, done);
      && f in now && now[f] == before[f]
      && now[f := Step(c, before[f], ReadingOf(row, stats, f))] == Advanced(c, before, row, stats, done + [f])
    ensures var alarm := Alarms(c, Grow(c, before[f], ReadingOf(row, stats, f)), stats[f].1);
      AlarmsOf(c, before, row, stats, done)[f := alarm] == AlarmsOf(c, before, row, stats, done + [f])
  {
    hide Step, Grow, Alarms, ReadingOf;
  }

  function Known(names: seq<string>): (kept: seq<string>)
    ensures forall f :: f in kept <==> f in names && f in CUSUM_FEATURES
    ensures NoRepeats(names) ==> NoRepeats(kept)
  {
    if names == [] then []
    else
      var rest := Known(names[1..]);
      assert names == [names[0]] + names[1..];
      if names[0] in CUSUM_FEATURES then [names[0]] + rest else rest
  }

  // ----- one feature over a whole run -----

  /** The sums after some readings, from zero sums and a count of warm: prewarming keeps the counts. */
  function RunFrom(c: Config, warm: nat, rs: seq<Reading>): Sums {
    if rs == [] then Sums(0.0, 0.0, warm) else Step(c, RunFrom(c, warm, rs[..|rs| - 1]), rs[|rs| - 1])
  }

  /** A run of a new detector. */
  function Run(c: Config, rs: seq<Reading>): Sums {
    RunFrom(c, 0, rs)
  }

  /** Whether the last reading of the run raises an alarm. */
  predicate AlarmFrom(c: Config, warm: nat, rs: seq<Reading>)
    requires rs != []
  {
    Alarms(c, Grow(c, RunFrom(c, warm, rs[..|rs| - 1]), rs[|rs| - 1]), rs[|rs| - 1].sigma)
  }

  predicate AlarmAtEnd(c: Config, rs: seq<Reading>)
    requires rs != []
  {
    AlarmFrom(c, 0, rs)
  }

  // ----- the whole detector over a run -----

  /** One call of update(): a row, and the tier-1 statistics it is compared with. */
  datatype Call = Call(row: map<string, real>, stats: map<string, (real, real)>)

  predicate Covered(features: seq<string>, calls: seq<Call>) {
    forall i, f :: 0 <= i < |calls| && f in features ==> f in calls[i].stats
  }

  /** The detector's dictionaries after a sequence of calls on a new detector, as Update moves them. */
  ghost function DetectorRun(c: Config, features: seq<string>, calls: seq<Call>): (m: map<string, Sums>)
    requires Covered(features, calls)
    ensures forall f :: f in m <==> f in features
  {
    if calls == [] then map f | f in features :: ZERO
    else
      var n := |calls| - 1;
      Advanced(c, DetectorRun(c, features, calls[..n]), calls[n].row, calls[n].stats, features)
  }

  function ReadingsOf(calls: seq<Call>, f: string): seq<Reading>
    requires forall i :: 0 <= i < |calls| ==> f in calls[i].stats
  {
    seq(|calls|, i requires 0 <= i < |calls| => ReadingOf(calls[i].row, calls[i].stats, f))
  }

  /** The features do not interact: each one's sums are the run of its own readings. */
  lemma {:induction false} DetectorRunIs(c: Config, features: seq<string>, calls: seq<Call>, f: string)
    requires Covered(features, calls) && f in features
    ensures DetectorRun(c, features, calls)[f] == Run(c, ReadingsOf(calls, f))
  {
    if calls != [] {
      hide Step;
      var n := |calls| - 1;
      DetectorRunIs(c, features, calls[..n], f);
      assert ReadingsOf(calls, f)[..n] == ReadingsOf(calls[..n], f);
    }
  }

  /** The alarm that a call raises for a feature is the alarm at the end of the feature's readings. */
  lemma DetectorAlarmIs(c: Config, features: seq<string>, calls: seq<Call>, f: string)
    requires Covered(features, calls) && f in features && calls != []
    ensures var n := |calls| - 1;
      AlarmsOf(c, DetectorRun(c, features, calls[..n]), calls[n].row, calls[n].stats, features)[f]
      == AlarmAtEnd(c, ReadingsOf(calls, f))
  {
    hide RunFrom, Alarms, Grow, DetectorRun;
    var n := |calls| - 1;
    DetectorRunIs(c, features, calls[..n], f);
    assert ReadingsOf(calls, f)[..n] == ReadingsOf(calls[..n], f);
  }

  // ----- the closed form -----

  /** Upward deviation beyond the slack. */
  function Excess(r: Reading): real {
    r.x - r.mu - 0.25 * r.sigma
  }

  function Excesses(rs: seq<Reading>): seq<real> {
    Map(rs, (r: Reading) => Excess(r))
  }

  /** The sum of the deviations from j on, each decayed once per later step. */
  function Decayed(decay: real, devs: seq<real>, j: nat): real
    requires j <= |devs|
    decreases |devs| - j
  {
    if j == |devs| then 0.0 else Pow(decay, |devs| - 1 - j) * devs[j] + Decayed(decay, devs, j + 1)
  }

  /** s is the largest decayed suffix sum, the empty suffix counting 0. */
  ghost predicate LargestSuffix(decay: real, devs: seq<real>, s: real) {
    && (forall j :: 0 <= j <= |devs| ==> Decayed(decay, devs, j) <= s)
    && exists j :: 0 <= j <= |devs| && Decayed(decay, devs, j) == s
  }

  function Affine(decay: real, u: real, d: real): real {
    decay * u + d
  }

  function Accumulate(decay: real, devs: seq<real>): real {
    if devs == [] then 0.0
    else Max(0.0, Affine(decay, Accumulate(decay, devs[..|devs| - 1]), devs[|devs| - 1]))
  }

  lemma DecayedAlgebra(decay: real, p: real, d: real, rest: real, e: real)
    ensures (decay * p) * d + Affine(decay, rest, e) == Affine(decay, p * d + rest, e)
  {
  }

  lemma {:induction false} DecayedStep(decay: real, devs: seq<real>, d: real, j: nat)
    requires j <= |devs|
    ensures Decayed(decay, devs + [d], j) == Affine(decay, Decayed(decay, devs, j), d)
    decreases |devs| - j
  {
    if j == |devs| {
      assert Pow(decay, 0) == 1.0;
      assert Decayed(decay, devs + [d], j + 1) == 0.0;
    } else {
      DecayedStep(decay, devs, d, j + 1);
      DecayedAlgebra(decay, Pow(decay, |devs| - 1 - j), devs[j], Decayed(decay, devs, j + 1), d);
      assert Pow(decay, |devs| - j) == decay * Pow(decay, |devs| - 1 - j);
    }
  }

  lemma AffineMonotone(decay: real, u: real, v: real, d: real)
    requires 0.0 <= decay && u <= v
    ensures Affine(decay, u, d) <= Affine(decay, v, d)
  {
  }

  lemma {:induction false} AccumulateIsLargestSuffix(decay: real, devs: seq<real>)
    requires 0.0 <= decay
    ensures LargestSuffix(decay, devs, Accumulate(decay, devs))
  {
    if devs == [] {
      assert Decayed(decay, devs, 0) == 0.0;
    } else {
      var n := |devs| - 1;
      var d := devs[n];
      var before := Accumulate(decay, devs[..n]);
      assert Decayed(decay, devs, n + 1) == 0.0;
      hide Decayed, Affine;
      AccumulateIsLargestSuffix(decay, devs[..n]);
      assert devs == devs[..n] + [d];
      forall j | 0 <= j <= n ensures Decayed(decay, devs, j) <= Affine(decay, before, d) {
        DecayedStep(decay, devs[..n], d, j);
        AffineMonotone(decay, Decayed(decay, devs[..n], j), before, d);
      }
      var j :| 0 <= j <= n && Decayed(decay, devs[..n], j) == before;
      DecayedStep(decay, devs[..n], d, j);
    }
  }

  function Mirror(r: Reading): Reading {
    Reading(-r.x, -r.mu, r.sigma)
  }

  function MirrorAll(rs: seq<Reading>): seq<Reading> {
    Map(rs, (r: Reading) => Mirror(r))
  }

  function Swapped(s: Sums): Sums {
    Sums(s.low, s.high, s.count)
  }

  lemma StepMirrored(c: Config, s: Sums, r: Reading)
    ensures Grow(c, Swapped(s), Mirror(r)) == Swapped(Grow(c, s, r))
    ensures Step(c, Swapped(s), Mirror(r)) == Swapped(Step(c, s, r))
  {
  }

  /** The low side is the high side of the negated signal, with or without reset. */
  lemma {:induction false} LowIsMirroredHigh(c: Config, rs: seq<Reading>)
    ensures Run(c, MirrorAll(rs)) == Swapped(Run(c, rs))
  {
    hide Step;
    if rs != [] {
      var n := |rs| - 1;
      LowIsMirroredHigh(c, rs[..n]);
      assert MirrorAll(rs)[..n] == MirrorAll(rs[..n]);
      StepMirrored(c, Run(c, rs[..n]), rs[n]);
    }
  }

  lemma {:induction false} NoResetAccumulates(c: Config, rs: seq<Reading>)
    requires c.noReset
    ensures Run(c, rs).high == Accumulate(c.decay, Excesses(rs))
    ensures Run(c, rs).count == |rs|
  {
    if rs != [] {
      var n := |rs| - 1;
      NoResetAccumulates(c, rs[..n]);
      assert Excesses(rs)[..n] == Excesses(rs[..n]);
    }
  }

  /** Without reset, each side is the largest decayed suffix sum of its excesses. */
  lemma NoResetClosedForm(c: Config, rs: seq<Reading>)
    requires c.noReset && 0.0 <= c.decay
    ensures LargestSuffix(c.decay, Excesses(rs), Run(c, rs).high)
    ensures LargestSuffix(c.decay, Excesses(MirrorAll(rs)), Run(c, rs).low)
  {
    NoResetAccumulates(c, rs);
    NoResetAccumulates(c, MirrorAll(rs));
    LowIsMirroredHigh(c, rs);
    AccumulateIsLargestSuffix(c.decay, Excesses(rs));
    AccumulateIsLargestSuffix(c.decay, Excesses(MirrorAll(rs)));
  }

  /** Some stretch of the run up to now has a decayed excess above h. */
  ghost predicate SuffixAbove(decay: real, devs: seq<real>, h: real) {
    exists j :: 0 <= j <= |devs| && Decayed(decay, devs, j) > h
  }

  lemma LargestAbove(decay: real, devs: seq<real>, s: real, h: real)
    requires LargestSuffix(decay, devs, s)
    ensures s > h <==> SuffixAbove(decay, devs, h)
  {
    hide Decayed;
  }

  /** What an alarm of the no-reset detector means, in terms of the readings alone. */
  lemma NoResetAlarmIff(c: Config, rs: seq<Reading>)
    requires c.noReset && 0.0 <= c.decay && rs != []
    ensures var h := c.hMult * rs[|rs| - 1].sigma;
      AlarmAtEnd(c, rs) <==>
      |rs| >= 30 && h > 0.0
      && (SuffixAbove(c.decay, Excesses(rs), h) || SuffixAbove(c.decay, Excesses(MirrorAll(rs)), h))
  {
    hide LargestSuffix, SuffixAbove, Grow, Accumulate;
    var h := c.hMult * rs[|rs| - 1].sigma;
    NoResetClosedForm(c, rs);
    NoResetAccumulates(c, rs);
    LargestAbove(c.decay, Excesses(rs), Run(c, rs).high, h);
    LargestAbove(c.decay, Excesses(MirrorAll(rs)), Run(c, rs).low, h);
  }

  // ----- the bound -----

  lemma GrowBelow(c: Config, s: Sums, r: Reading, b: real)
    requires 0.0 <= c.decay && 0.0 <= b && s.high <= b && s.low <= b
    requires c.decay * b + Excess(r) <= b && c.decay * b + Excess(Mirror(r)) <= b
    ensures Grow(c, s, r).high <= b && Grow(c, s, r).low <= b
  {
    AffineMonotone(c.decay, s.high, b, Excess(r));
    AffineMonotone(c.decay, s.low, b, Excess(Mirror(r)));
  }

  lemma {:induction false} StaysBelow(c: Config, rs: seq<Reading>, b: real)
    requires c.noReset && 0.0 <= c.decay && 0.0 <= b
    requires forall i :: 0 <= i < |rs| ==>
      c.decay * b + Excess(rs[i]) <= b && c.decay * b + Excess(Mirror(rs[i])) <= b
    ensures Run(c, rs).high <= b && Run(c, rs).low <= b
  {
    hide Alarms, Grow, Excess;
    if rs != [] {
      var n := |rs| - 1;
      StaysBelow(c, rs[..n], b);
      GrowBelow(c, Run(c, rs[..n]), rs[n], b);
    }
  }

  lemma NegativeProduct(p: real, q: real)
    requires p < 0.0 < q
    ensures p * q < 0.0
  {
  }

  lemma QuotientFacts(decay: real, bound: real)
    requires 0.0 <= decay < 1.0 && 0.0 <= bound
    ensures 0.0 <= bound / (1.0 - decay)
    ensures decay * (bound / (1.0 - decay)) + bound == bound / (1.0 - decay)
  {
    var b := bound / (1.0 - decay);
    assert b * (1.0 - decay) == bound;
    if b < 0.0 {
      NegativeProduct(b, 1.0 - decay);
      assert false;
    }
  }

  /** A leaky accumulator cannot latch: deviations of at most bound keep it below bound/(1 - decay). */
  lemma LeakyBound(c: Config, rs: seq<Reading>, bound: real)
    requires 0.0 <= c.decay < 1.0 && 0.0 <= bound
    requires forall i :: 0 <= i < |rs| ==> Excess(rs[i]) <= bound && Excess(Mirror(rs[i])) <= bound
    ensures Run(c, rs).high <= bound / (1.0 - c.decay)
    ensures Run(c, rs).low <= bound / (1.0 - c.decay)
  {
    hide Excess, RunFrom;
    QuotientFacts(c.decay, bound);
    StaysBelow(c.(noReset := true), rs, bound / (1.0 - c.decay));
    NoResetDominates(c, 0, rs);
    assert c == c.(noReset := true) || c == c.(noReset := false);
  }

  // ----- reset against no reset -----

  lemma GrowMonotone(c: Config, d: Config, s: Sums, t: Sums, r: Reading)
    requires c.decay == d.decay && 0.0 <= c.decay
    requires s.high <= t.high && s.low <= t.low && s.count == t.count
    ensures Grow(c, s, r).high <= Grow(d, t, r).high && Grow(c, s, r).low <= Grow(d, t, r).low
    ensures Grow(c, s, r).count == Grow(d, t, r).count
  {
    AffineMonotone(c.decay, s.high, t.high, Excess(r));
    AffineMonotone(c.decay, s.low, t.low, Excess(Mirror(r)));
  }

  /** On the same readings the no-reset sums are at least the reset sums, at every step. */
  lemma {:induction false} NoResetDominates(c: Config, warm: nat, rs: seq<Reading>)
    requires 0.0 <= c.decay
    ensures var reset, keep := RunFrom(c.(noReset := false), warm, rs), RunFrom(c.(noReset := true), warm, rs);
      && 0.0 <= reset.high <= keep.high && 0.0 <= reset.low <= keep.low
      && reset.count == keep.count == warm + |rs|
  {
    hide Alarms;
    if rs != [] {
      var n := |rs| - 1;
      NoResetDominates(c, warm, rs[..n]);
      GrowMonotone(c.(noReset := false), c.(noReset := true),
        RunFrom(c.(noReset := false), warm, rs[..n]), RunFrom(c.(noReset := true), warm, rs[..n]), rs[n]);
    }
  }

  lemma AlarmsMonotone(c: Config, d: Config, g: Sums, g': Sums, sigma: real)
    requires c.hMult == d.hMult && g.high <= g'.high && g.low <= g'.low && g.count == g'.count
    ensures Alarms(c, g, sigma) ==> Alarms(d, g', sigma)
  {
  }

  /** Resetting on alarm can only lose alarms. */
  lemma ResetAlarmsSubset(c: Config, warm: nat, rs: seq<Reading>)
    requires 0.0 <= c.decay && rs != []
    ensures AlarmFrom(c.(noReset := false), warm, rs) ==> AlarmFrom(c.(noReset := true), warm, rs)
  {
    hide RunFrom, Grow, Alarms;
    var n, reset, keep := |rs| - 1, c.(noReset := false), c.(noReset := true);
    NoResetDominates(c, warm, rs[..n]);
    GrowMonotone(reset, keep, RunFrom(reset, warm, rs[..n]), RunFrom(keep, warm, rs[..n]), rs[n]);
    AlarmsMonotone(reset, keep, Grow(reset, RunFrom(reset, warm, rs[..n]), rs[n]),
      Grow(keep, RunFrom(keep, warm, rs[..n]), rs[n]), rs[n].sigma);
  }

  lemma ResetStep(c: Config, rs: seq<Reading>)
    requires !c.noReset && rs != []
    ensures AlarmAtEnd(c, rs) ==> Run(c, rs).high == 0.0 == Run(c, rs).low
    ensures !AlarmAtEnd(c, rs) ==> Run(c, rs) == Grow(c, Run(c, rs[..|rs| - 1]), rs[|rs| - 1])
  {
    hide Grow, Alarms;
  }

  function HighOf(decay: real, rs: seq<Reading>): real {
    Accumulate(decay, Excesses(rs))
  }

  lemma HighOfStep(c: Config, s: Sums, rs: seq<Reading>, r: Reading)
    ensures s.high == HighOf(c.decay, rs) ==> Grow(c, s, r).high == HighOf(c.decay, rs + [r])
    ensures s.low == HighOf(c.decay, MirrorAll(rs)) ==> Grow(c, s, r).low == HighOf(c.decay, MirrorAll(rs + [r]))
  {
    assert Excesses(rs + [r])[..|rs|] == Excesses(rs);
    assert Excesses(MirrorAll(rs + [r]))[..|rs|] == Excesses(MirrorAll(rs));
  }

  predicate AlarmAt(c: Config, rs: seq<Reading>, k: nat)
    requires 0 < k <= |rs|
  {
    AlarmAtEnd(c, rs[..k])
  }

  /** No alarm after the first i readings. */
  predicate SilentAfter(c: Config, rs: seq<Reading>, i: nat) {
    forall k :: i < k <= |rs| ==> !AlarmAt(c, rs, k)
  }

  lemma SilentBefore(c: Config, rs: seq<Reading>, i: nat)
    requires i < |rs| && SilentAfter(c, rs, i)
    ensures SilentAfter(c, rs[..|rs| - 1], i) && !AlarmAtEnd(c, rs)
  {
    hide AlarmAtEnd;
    assert rs[..|rs|] == rs;
    assert !AlarmAt(c, rs, |rs|);
    var init := rs[..|rs| - 1];
    forall k | i < k < |rs| ensures !AlarmAt(c, init, k) {
      assert !AlarmAt(c, rs, k);
      assert init[..k] == rs[..k];
    }
  }

  /** With reset, the sums are those of a no-reset run started right after the last alarm. */
  lemma {:induction false} ResetRestarts(c: Config, rs: seq<Reading>, i: nat)
    requires !c.noReset && i <= |rs|
    requires i > 0 ==> AlarmAt(c, rs, i)
    requires SilentAfter(c, rs, i)
    ensures Run(c, rs).high == HighOf(c.decay, rs[i..])
    ensures Run(c, rs).low == HighOf(c.decay, MirrorAll(rs[i..]))
    decreases |rs|
  {
    if i == |rs| {
      assert rs[i..] == [] && rs[..i] == rs;
      if i > 0 {
        ResetStep(c, rs);
      }
    } else {
      hide Grow, HighOf, AlarmAtEnd, SilentAfter;
      var n := |rs| - 1;
      assert rs[..n][..i] == rs[..i];
      SilentBefore(c, rs, i);
      ResetRestarts(c, rs[..n], i);
      ResetStep(c, rs);
      HighOfStep(c, Run(c, rs[..n]), rs[..n][i..], rs[n]);
      hide Run;
      assert rs[i..] == rs[..n][i..] + [rs[n]];
    }
  }
}
