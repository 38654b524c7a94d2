// The poison-freeze / recover state machine over whole runs.
module PoisonGuard {
  import opened RealMath
  import opened Options
  import opened Slots
  import opened Tiers

  // ----- what holds in every reachable state -----

  /** frozen, detected and a set detection time are one fact, and ten counted changes make it. */
  predicate Coherent(g: Guard) {
    && (g.frozen <==> g.detected)
    && (g.frozen <==> g.detectedAt.Some?)
    && (g.frozen ==> g.largeChanges == 10 && g.windowStart.Some?)
    && (!g.frozen ==> g.largeChanges < 10)
    && (g.windowStart.None? ==> g.largeChanges == 0)
  }

  /** The reference the next check compares with is the tier-1 mean, for every key feature. */
  predicate Referenced(b: Baseline)
    requires b.t1.Keys == b.guard.lastMean.Keys
  {
    forall f :: f in KEY_FEATURES && f in b.t1 ==> b.guard.lastMean[f] == b.t1[f].mean
  }

  lemma CheckCoherent(tier: Tier, g: Guard, sec: real)
    requires tier.Keys == g.lastMean.Keys && Coherent(g)
    ensures Coherent(Check(tier, g, sec))
    ensures !g.frozen ==> forall f :: f in KEY_FEATURES && f in tier ==> Check(tier, g, sec).lastMean[f] == tier[f].mean
  {
    hide LargeChange;
  }

  lemma UpdateCoherent(c: Config, b: Baseline, e: Event)
    requires Shaped(c, b) && Coherent(b.guard) && Referenced(b)
    ensures Coherent(Update(c, b, e).guard) && Referenced(Update(c, b, e))
  {
    hide Check, Step;
    var g := Recover(b.t1, b.guard, e.stamp.sec);
    if !g.frozen {
      CheckCoherent(FeedAll(c, b.(guard := g), e).t1, g, e.stamp.sec);
    }
  }

  lemma {:induction false} RunCoherent(c: Config, events: seq<Event>)
    ensures Coherent(Run(c, events).guard) && Referenced(Run(c, events))
  {
    if events != [] {
      hide Coherent, Referenced, Update;
      RunCoherent(c, events[..|events| - 1]);
      UpdateCoherent(c, Run(c, events[..|events| - 1]), events[|events| - 1]);
    } else {
      assert Run(c, events) == Initial(c);
    }
  }

  // ----- frozen means frozen -----

  /** Until 900 seconds after detection nothing changes: no slot, no reference, no counter. */
  lemma FrozenUntouched(c: Config, events: seq<Event>, e: Event)
    requires Run(c, events).guard.frozen
    ensures Run(c, events).guard.detectedAt.Some?
    ensures e.stamp.sec - Run(c, events).guard.detectedAt.value < 900.0 ==>
      Run(c, events + [e]) == Run(c, events)
  {
    RunCoherent(c, events);
    assert (events + [e])[..|events|] == events;
  }

  // ----- the exact trigger -----

  /** A one-cycle jump of the tier-1 mean, in terms of the sample that caused it. */
  predicate JumpSample(m: real, x: real) {
    m >= 1.0 && (x > 43.0 / 3.0 * m || x < -37.0 / 3.0 * m)
  }

  lemma RatioAbove(d: real, m: real, rate: real)
    requires m > 0.0
    ensures d / m > rate <==> d > rate * m
  {
    var q := d / m;
    assert q * m == d;
  }

  lemma JumpExact(s: Slot, x: real)
    requires s.count > 0
    ensures JumpedFrom(s.mean, Step(TIER1_ALPHA, s, x).mean) <==> JumpSample(s.mean, x)
  {
    if s.mean >= 1.0 {
      RatioAbove(Abs(TIER1_ALPHA * (x - s.mean)), s.mean, CHANGE_RATE_THRESHOLD);
    }
  }

  /** With tier 1 ready, a check inside its window counts a large change exactly when some key
      feature's sample is that far from its prior mean, also right after a recovery. */
  lemma TriggerExact(c: Config, events: seq<Event>, e: Event)
    requires var b := Run(c, events);
      && Accepts(b.guard, e.stamp.sec) && !WindowExpired(b.guard, e.stamp.sec)
      && TierReady(Feed(c, TIER1_ALPHA, b.t1, e.row), TIER1_MIN_SAMPLES)
    ensures var b, b' := Run(c, events), Run(c, events + [e]);
      b'.guard.largeChanges == (if b.guard.frozen then 0 else b.guard.largeChanges) + (
        if exists f :: f in KEY_FEATURES && f in c.features && JumpSample(b.t1[f].mean, Sample(c, e.row, f))
        then 1 else 0)
  {
    var b := Run(c, events);
    RunCoherent(c, events);
    assert (events + [e])[..|events|] == events;
    assert Run(c, events + [e]) == Update(c, b, e);
    hide Run, Update, JumpSample, Step, Sample, Feed, LargeChange, TierReady, WindowExpired;
    CheckCounts(c, b, e);
    RecoverReferenced(b, e.stamp.sec);
    JumpsExact(c, b.(guard := Recover(b.t1, b.guard, e.stamp.sec)), e);
  }

  lemma RecoverReferenced(b: Baseline, sec: real)
    requires b.t1.Keys == b.guard.lastMean.Keys && Referenced(b)
    ensures Referenced(b.(guard := Recover(b.t1, b.guard, sec)))
  {
  }

  lemma CheckCounts(c: Config, b: Baseline, e: Event)
    requires Shaped(c, b) && Accepts(b.guard, e.stamp.sec) && !WindowExpired(b.guard, e.stamp.sec)
    requires TierReady(Feed(c, TIER1_ALPHA, b.t1, e.row), TIER1_MIN_SAMPLES)
    ensures var g := Recover(b.t1, b.guard, e.stamp.sec);
      && g.largeChanges == (if b.guard.frozen then 0 else b.guard.largeChanges)
      && Update(c, b, e).guard.largeChanges
         == g.largeChanges + if LargeChange(Feed(c, TIER1_ALPHA, b.t1, e.row), g.lastMean) then 1 else 0
  {
    hide LargeChange, TierReady, Feed, Means, KeyMeans;
  }

  lemma JumpsExact(c: Config, b: Baseline, e: Event)
    requires Shaped(c, b) && Referenced(b)
    requires TierReady(Feed(c, TIER1_ALPHA, b.t1, e.row), TIER1_MIN_SAMPLES)
    ensures LargeChange(Feed(c, TIER1_ALPHA, b.t1, e.row), b.guard.lastMean) <==>
      exists f :: f in KEY_FEATURES && f in c.features && JumpSample(b.t1[f].mean, Sample(c, e.row, f))
  {
    hide JumpedFrom, JumpSample;
    forall f | f in KEY_FEATURES && f in c.features
      ensures JumpedFrom(b.guard.lastMean[f], Step(TIER1_ALPHA, b.t1[f], Sample(c, e.row, f)).mean)
         <==> JumpSample(b.t1[f].mean, Sample(c, e.row, f))
    {
      assert Feed(c, TIER1_ALPHA, b.t1, e.row)[f].count >= TIER1_MIN_SAMPLES;
      JumpExact(b.t1[f], Sample(c, e.row, f));
    }
  }

  /** Nonnegative samples: only rises count, beyond 43/3 of a prior mean of at least 1. */
  lemma DropsNeverCount(m: real, x: real)
    requires 0.0 <= x
    ensures JumpSample(m, x) <==> m >= 1.0 && x > 43.0 / 3.0 * m
  {
  }

  // ----- counting over a run -----

  predicate AcceptedAt(c: Config, events: seq<Event>, i: nat)
    requires i < |events|
  {
    Accepts(Run(c, events[..i]).guard, events[i].stamp.sec)
  }

  /** Update i reached the slots and its check counted a large change. */
  predicate CountedAt(c: Config, events: seq<Event>, i: nat)
    requires i < |events|
  {
    var before := Run(c, events[..i]);
    && AcceptedAt(c, events, i)
    && Run(c, events[..i + 1]).guard.largeChanges
       == Recover(before.t1, before.guard, events[i].stamp.sec).largeChanges + 1
  }

  /** Update i reached the slots and left the baseline frozen. */
  predicate FreezesAt(c: Config, events: seq<Event>, i: nat)
    requires i < |events|
  {
    AcceptedAt(c, events, i) && Run(c, events[..i + 1]).guard.frozen
  }

  function CountedIn(c: Config, events: seq<Event>, j: nat, n: nat): nat
    requires j <= n <= |events|
    decreases n
  {
    if j == n then 0 else CountedIn(c, events, j, n - 1) + if CountedAt(c, events, n - 1) then 1 else 0
  }

  function AcceptedIn(c: Config, events: seq<Event>, j: nat, n: nat): nat
    requires j <= n <= |events|
    decreases n
  {
    if j == n then 0 else AcceptedIn(c, events, j, n - 1) + if AcceptedAt(c, events, n - 1) then 1 else 0
  }

  /** How one update moves the guard, forgetting the slots. */
  predicate GuardStep(g: Guard, g': Guard, sec: real, counted: bool) {
    if !Accepts(g, sec) then g' == g && !counted
    else
      var base := if g.frozen then 0 else g.largeChanges;
      if WindowExpired(g, sec) then
        g'.windowStart == Some(sec) && g'.largeChanges == 0 && !g'.frozen && !counted
      else
        && g'.windowStart == g.windowStart
        && g'.largeChanges == base + (if counted then 1 else 0)
        && (g'.frozen ==> counted && g'.detectedAt == Some(sec))
  }

  lemma CheckStep(old1: Tier, new1: Tier, g: Guard, sec: real)
    requires old1.Keys == g.lastMean.Keys == new1.Keys && Coherent(g) && Accepts(g, sec)
    ensures !Recover(old1, g, sec).frozen
    ensures var r := Recover(old1, g, sec); var g' := Check(new1, r, sec);
      GuardStep(g, g', sec, g'.largeChanges == r.largeChanges + 1)
  {
    hide LargeChange, TierReady, Means;
  }

  lemma NoStep(tier: Tier, g: Guard, sec: real)
    requires tier.Keys == g.lastMean.Keys && Coherent(g) && !Accepts(g, sec)
    ensures Recover(tier, g, sec) == g && g.frozen
    ensures GuardStep(g, g, sec, false)
  {
  }

  lemma OneStep(c: Config, events: seq<Event>, i: nat)
    requires i < |events|
    ensures var g, g' := Run(c, events[..i]).guard, Run(c, events[..i + 1]).guard;
      GuardStep(g, g', events[i].stamp.sec, CountedAt(c, events, i))
    ensures Coherent(Run(c, events[..i]).guard) && Coherent(Run(c, events[..i + 1]).guard)
  {
    hide Check, GuardStep, FeedAll, Coherent;
    RunCoherent(c, events[..i]);
    RunCoherent(c, events[..i + 1]);
    assert events[..i + 1][..i] == events[..i];
    var b, sec := Run(c, events[..i]), events[i].stamp.sec;
    if Accepts(b.guard, sec) {
      CheckStep(b.t1, FeedAll(c, b.(guard := Recover(b.t1, b.guard, sec)), events[i]).t1, b.guard, sec);
    } else {
      NoStep(b.t1, b.guard, sec);
    }
  }

  /** The counted changes the guard remembers lie in its window: some suffix of the run holds exactly
      that many, none of them over 300 s past the window's start, and none before it when time is in
      order. */
  lemma {:induction false} WindowHolds(c: Config, events: seq<Event>, n: nat) returns (j: nat)
    requires n <= |events|
    ensures j <= n && CountedIn(c, events, j, n) == Run(c, events[..n]).guard.largeChanges
    ensures var start := Run(c, events[..n]).guard.windowStart;
      start.Some? ==>
        && n > 0
        && (forall i :: j <= i < n && CountedAt(c, events, i) ==> events[i].stamp.sec - start.value <= 300.0)
        && (Ordered(events) ==>
          && start.value <= events[n - 1].stamp.sec
          && forall i :: j <= i < n ==> start.value <= events[i].stamp.sec)
    decreases n
  {
    hide Run, CountedAt, Coherent;
    if n == 0 {
      j := 0;
      InitialGuard(c, events);
    } else {
      j := WindowHolds(c, events, n - 1);
      OneStep(c, events, n - 1);
      var g, g' := Run(c, events[..n - 1]).guard, Run(c, events[..n]).guard;
      var sec := events[n - 1].stamp.sec;
      if Accepts(g, sec) {
        if WindowExpired(g, sec) {
          j := n;
        } else if g.frozen {
          j := n - 1;
        }
      }
    }
  }

  lemma InitialGuard(c: Config, events: seq<Event>)
    ensures Run(c, events[..0]).guard.largeChanges == 0
    ensures Run(c, events[..0]).guard.windowStart.None?
  {
    assert events[..0] == [];
  }

  /** Every freeze is preceded by ten counted updates, the freezing one included, and within 300 s
      when time is in order. */
  lemma FreezeNeedsTen(c: Config, events: seq<Event>, k: nat) returns (j: nat)
    requires k < |events| && FreezesAt(c, events, k)
    ensures j <= k && CountedIn(c, events, j, k + 1) == 10
    ensures Ordered(events) ==> events[k].stamp.sec - events[j].stamp.sec <= 300.0
  {
    j := WindowHolds(c, events, k + 1);
    OneStep(c, events, k);
    if j == k + 1 {
      assert false;
    }
  }

  /** Some update strictly between a and n reached the slots with a time at least 900 s past event a's. */
  predicate RecoveredBetween(c: Config, events: seq<Event>, a: nat, n: nat)
    requires a < n <= |events|
  {
    exists i :: a < i < n && AcceptedAt(c, events, i) && events[i].stamp.sec - events[a].stamp.sec >= 900.0
  }

  /** After a freeze at a, whatever the order of time: still frozen since then, or an update 900 s past
      it has recovered and no more changes are counted than updates accepted. */
  lemma {:induction false} AfterFreeze(c: Config, events: seq<Event>, a: nat, n: nat)
    requires a < n <= |events| && FreezesAt(c, events, a)
    ensures var g := Run(c, events[..n]).guard;
      || (g.frozen && g.detectedAt == Some(events[a].stamp.sec) && AcceptedIn(c, events, a + 1, n) == 0)
      || (RecoveredBetween(c, events, a, n) && AcceptedIn(c, events, a + 1, n) >= g.largeChanges)
    decreases n
  {
    hide Run, CountedAt;
    OneStep(c, events, n - 1);
    if n > a + 1 {
      AfterFreeze(c, events, a, n - 1);
      hide GuardStep, AcceptedIn;
      StillRecovered(c, events, a, n);
    }
  }

  lemma StillRecovered(c: Config, events: seq<Event>, a: nat, n: nat)
    requires a + 1 < n <= |events|
    ensures RecoveredBetween(c, events, a, n - 1) ==> RecoveredBetween(c, events, a, n)
    ensures AcceptedAt(c, events, n - 1) && events[n - 1].stamp.sec - events[a].stamp.sec >= 900.0 ==>
      RecoveredBetween(c, events, a, n)
  {
    hide AcceptedAt;
  }

  /** When time is in order, a recovery opens a new window, so its own update is not counted. */
  lemma {:induction false} AfterFreezeInOrder(c: Config, events: seq<Event>, a: nat, n: nat)
    requires Ordered(events) && a < n <= |events| && FreezesAt(c, events, a)
    ensures var g := Run(c, events[..n]).guard;
      || (g.frozen && g.detectedAt == Some(events[a].stamp.sec) && AcceptedIn(c, events, a + 1, n) == 0
          && g.windowStart.Some? && g.windowStart.value <= events[a].stamp.sec)
      || (events[n - 1].stamp.sec - events[a].stamp.sec >= 900.0
          && AcceptedIn(c, events, a + 1, n) >= g.largeChanges + 1)
    decreases n
  {
    hide Run, CountedAt;
    OneStep(c, events, n - 1);
    if n == a + 1 {
      var j := WindowHolds(c, events, n);
    } else {
      AfterFreezeInOrder(c, events, a, n - 1);
    }
  }

  /** Between two freezes of any run lies an accepted update at least 900 s after the first freeze, and
      at least 10 updates are accepted. */
  lemma FreezesSeparated(c: Config, events: seq<Event>, a: nat, b: nat)
    requires a < b < |events| && FreezesAt(c, events, a) && FreezesAt(c, events, b)
    ensures RecoveredBetween(c, events, a, b)
    ensures AcceptedIn(c, events, a + 1, b + 1) >= 10
  {
    hide Run, RecoveredBetween;
    AfterFreeze(c, events, a, b);
    AfterFreeze(c, events, a, b + 1);
    OneStep(c, events, b);
  }

  /** Two freezes of a run in order are at least 900 s and at least 11 accepted updates apart. */
  lemma FreezesApart(c: Config, events: seq<Event>, a: nat, b: nat)
    requires Ordered(events) && a < b < |events| && FreezesAt(c, events, a) && FreezesAt(c, events, b)
    ensures events[b].stamp.sec - events[a].stamp.sec >= 900.0
    ensures AcceptedIn(c, events, a + 1, b + 1) >= 11
  {
    hide Run;
    AfterFreezeInOrder(c, events, a, b + 1);
    OneStep(c, events, b);
  }
}
