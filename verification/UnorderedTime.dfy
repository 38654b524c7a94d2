// A run whose times go backwards: the poisoning guard freezes twice in the same second.
module UnorderedTime {
  import opened RealMath
  import opened Options
  import opened Slots
  import opened Tiers
  import opened PoisonGuard

  const RATE := "packets_per_sec"

  /** What the tier-1 mean is multiplied by when the sample is 20 times the mean. */
  const GROWTH := 3.85

  function OneFeature(log: real -> real): Config {
    Config({RATE}, false, false, log)
  }

  function At(sec: real, x: real): Event {
    Event(map[RATE := x], Stamp(sec, 0, 0))
  }

  /** Ten calm updates over 301 s apart, the last at 900 s; then twenty surges, all in second 0 but
      for number 20, which comes at 900 s. */
  function TraceAt(i: nat): Event {
    if i < 10 then At(900.0 + 301.0 * (i - 9) as real, 1.0)
    else At(if i == 20 then 900.0 else 0.0, 20.0 * Pow(GROWTH, i - 10))
  }

  function Trace(n: nat): seq<Event> {
    seq(n, i requires 0 <= i < n => TraceAt(i))
  }

  lemma TraceStep(n: nat)
    ensures Trace(n + 1) == Trace(n) + [TraceAt(n)]
    ensures forall k :: 0 <= k <= n ==> Trace(n)[..k] == Trace(k)
  {
  }

  function MeanAfter(n: nat): real {
    if n <= 10 then 1.0 else Pow(GROWTH, n - 10)
  }

  /** The tier-1 slot after the first n updates. */
  predicate ExpectedSlot(s: Slot, n: nat) {
    s.count == n && (n > 0 ==> s.mean == MeanAfter(n))
  }

  /** The guard after the first n updates. */
  predicate ExpectedGuard(g: Guard, n: nat) {
    && g.frozen == (n == 20 || n == 30)
    && (g.frozen ==> g.detectedAt == Some(0.0))
    && g.largeChanges == (if n <= 10 then 0 else if n <= 20 then n - 10 else n - 20)
    && g.windowStart == (
      if n == 0 then None else if n <= 10 then Some(900.0 + 301.0 * (n - 10) as real) else Some(900.0))
  }

  lemma {:induction false} GrowthAtLeastOne(k: nat)
    ensures Pow(GROWTH, k) >= 1.0
  {
    if k > 0 {
      GrowthAtLeastOne(k - 1);
    }
  }

  /** The tier-1 slot after an accepted update. */
  lemma SlotMoves(log: real -> real, b: Baseline, e: Event)
    requires var c := OneFeature(log);
      Shaped(c, b) && Accepts(b.guard, e.stamp.sec)
    ensures var c := OneFeature(log);
      Update(c, b, e).t1[RATE] == Step(TIER1_ALPHA, b.t1[RATE], Get(e.row, RATE))
  {
    hide Check, Step;
  }

  lemma SampleIs(log: real -> real, n: nat)
    ensures Sample(OneFeature(log), TraceAt(n).row, RATE) == Get(TraceAt(n).row, RATE)
    ensures Get(TraceAt(n).row, RATE) == if n < 10 then 1.0 else 20.0 * MeanAfter(n)
  {
    if n == 10 {
      assert Pow(GROWTH, 0) == 1.0;
    }
  }

  lemma NextMean(s: Slot, n: nat)
    requires ExpectedSlot(s, n)
    ensures ExpectedSlot(Step(TIER1_ALPHA, s, if n < 10 then 1.0 else 20.0 * MeanAfter(n)), n + 1)
  {
    hide Spread;
    if n == 10 {
      assert Pow(GROWTH, 1) == GROWTH * Pow(GROWTH, 0);
    }
  }

  lemma GuardNext(g: Guard, g': Guard, k: nat, counted: bool)
    requires k < 30 && ExpectedGuard(g, k) && Coherent(g')
    requires GuardStep(g, g', TraceAt(k).stamp.sec, counted)
    requires k >= 10 ==> g'.largeChanges == (if g.frozen then 0 else g.largeChanges) + 1
    ensures ExpectedGuard(g', k + 1)
  {
  }

  lemma GuardFacts(g: Guard, k: nat)
    requires k < 30 && ExpectedGuard(g, k)
    ensures Accepts(g, TraceAt(k).stamp.sec)
    ensures WindowExpired(g, TraceAt(k).stamp.sec) <==> k < 10
  {
  }

  /** A surge is counted. */
  lemma SurgeCounts(log: real -> real, k: nat)
    requires 10 <= k < 30
    requires var b := Run(OneFeature(log), Trace(k));
      ExpectedSlot(b.t1[RATE], k) && ExpectedGuard(b.guard, k)
    ensures var b, b' := Run(OneFeature(log), Trace(k)), Run(OneFeature(log), Trace(k) + [TraceAt(k)]);
      b'.guard.largeChanges == (if b.guard.frozen then 0 else b.guard.largeChanges) + 1
  {
    var c, e := OneFeature(log), TraceAt(k);
    var b := Run(c, Trace(k));
    hide Run, Step, ExpectedGuard, TraceAt;
    GuardFacts(b.guard, k);
    SampleIs(log, k);
    NextMean(b.t1[RATE], k);
    assert TierReady(Feed(c, TIER1_ALPHA, b.t1, e.row), TIER1_MIN_SAMPLES);
    GrowthAtLeastOne(k - 10);
    assert Pow(GROWTH, 0) == 1.0;
    assert RATE in KEY_FEATURES && RATE in c.features && JumpSample(b.t1[RATE].mean, Sample(c, e.row, RATE));
    TriggerExact(c, Trace(k), e);
  }

  /** Every calm update opens a new window and every surge counts. */
  lemma {:induction false} TraceRuns(log: real -> real, n: nat)
    requires n <= 30
    ensures var b := Run(OneFeature(log), Trace(n));
      ExpectedSlot(b.t1[RATE], n) && ExpectedGuard(b.guard, n)
  {
    var c := OneFeature(log);
    if n == 0 {
      assert Trace(0) == [];
    } else {
      hide Update, Step, GuardStep, CountedAt, ExpectedGuard, ExpectedSlot, TraceAt, Coherent;
      var k := n - 1;
      TraceRuns(log, k);
      TraceStep(k);
      TraceStep(n);
      OneStep(c, Trace(n), k);
      var b, e := Run(c, Trace(k)), TraceAt(k);
      assert Run(c, Trace(n)) == Update(c, b, e);
      hide Run;
      GuardFacts(b.guard, k);
      SlotMoves(log, b, e);
      SampleIs(log, k);
      NextMean(b.t1[RATE], k);
      if k >= 10 {
        SurgeCounts(log, k);
      }
      GuardNext(b.guard, Run(c, Trace(n)).guard, k, CountedAt(c, Trace(n), k));
    }
  }

  lemma TraceAccepts(log: real -> real, i: nat)
    requires i < 30
    ensures AcceptedAt(OneFeature(log), Trace(30), i)
  {
    hide Run, TraceAt, ExpectedGuard;
    TraceRuns(log, i);
    TraceStep(30);
    GuardFacts(Run(OneFeature(log), Trace(i)).guard, i);
  }

  lemma {:induction false} AllAccepted(log: real -> real, j: nat, n: nat)
    requires j <= n <= 30
    ensures AcceptedIn(OneFeature(log), Trace(30), j, n) == n - j
    decreases n
  {
    hide AcceptedAt;
    if j < n {
      AllAccepted(log, j, n - 1);
      TraceAccepts(log, n - 1);
    }
  }

  lemma TraceFreezes(log: real -> real, i: nat)
    requires i == 19 || i == 29
    ensures FreezesAt(OneFeature(log), Trace(30), i)
  {
    hide Run, AcceptedAt;
    TraceAccepts(log, i);
    TraceRuns(log, i + 1);
    TraceStep(30);
  }

  /** Without order of time both halves of the separation fail: the guard freezes at updates 19 and 29,
      both in second 0, with only ten accepted updates from one to the other. */
  lemma FreezesInOneSecond(log: real -> real)
    ensures var c, events := OneFeature(log), Trace(30);
      && FreezesAt(c, events, 19) && FreezesAt(c, events, 29)
      && events[19].stamp.sec == events[29].stamp.sec
      && AcceptedIn(c, events, 20, 30) == 10
  {
    hide FreezesAt, AcceptedIn;
    TraceFreezes(log, 19);
    TraceFreezes(log, 29);
    AllAccepted(log, 20, 30);
  }
}
