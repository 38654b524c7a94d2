// The poisoning guard by accepted rows: what every update does to it, the ten rows before the first
// counted change, and the references the next check compares with.
module Readiness {
  import opened RealMath
  import opened Options
  import opened Slots
  import opened Tiers
  import opened PoisonGuard
  import opened TierHistory
  import opened UnorderedTime

  /** How many updates have reached the slots. */
  function Rows(c: Config, events: seq<Event>): nat {
    |AcceptedRows(c, events)|
  }

  predicate WindowOpen(g: Guard, sec: real) {
    g.windowStart.Some? && sec - g.windowStart.value <= 300.0
  }

  predicate StillFrozen(g: Guard, sec: real) {
    g.frozen && g.detectedAt.Some? && sec - g.detectedAt.value < 900.0
  }

  /** Some key feature's sample is that far from its prior mean. */
  predicate Jumps(c: Config, b: Baseline, row: Row)
    requires Shaped(c, b)
  {
    exists f :: f in {"packets_per_sec", "bytes_per_sec", "syn_per_sec", "flows_per_sec"} && f in c.features
      && JumpSample(b.t1[f].mean, Sample(c, row, f))
  }

  lemma RunMore(c: Config, events: seq<Event>, e: Event)
    ensures Run(c, events + [e]) == Update(c, Run(c, events), e)
    ensures var g := Run(c, events).guard;
      Rows(c, events + [e]) == Rows(c, events) + if Accepts(g, e.stamp.sec) then 1 else 0
  {
    assert (events + [e])[..|events|] == events;
  }

  /** An accepted update in terms of the functions of one update. */
  lemma AcceptedUpdate(c: Config, b: Baseline, e: Event)
    requires Shaped(c, b) && Accepts(b.guard, e.stamp.sec)
    ensures var b', g, t := Update(c, b, e), Recover(b.t1, b.guard, e.stamp.sec), Feed(c, TIER1_ALPHA, b.t1, e.row);
      b'.t1 == t && g.lastMean.Keys == t.Keys && b'.guard == Check(t, g, e.stamp.sec)
  {
    hide Check, Feed;
  }

  /** Tier 1 is ready after the update exactly when nine rows came before it. */
  lemma ReadyAfter(c: Config, events: seq<Event>, e: Event)
    requires Accepts(Run(c, events).guard, e.stamp.sec) && c.features != {}
    ensures TierReady(Feed(c, TIER1_ALPHA, Run(c, events).t1, e.row), TIER1_MIN_SAMPLES) <==> Rows(c, events) >= 9
  {
    hide Run, TierReady, Check, Feed, OfHour, OfWeekHour;
    RunMore(c, events, e);
    AcceptedUpdate(c, Run(c, events), e);
    ReadyByRows(c, events + [e]);
  }

  lemma UnreadyCheck(tier: Tier, g: Guard, sec: real)
    requires tier.Keys == g.lastMean.Keys && !g.frozen && WindowOpen(g, sec) && !TierReady(tier, TIER1_MIN_SAMPLES)
    ensures Check(tier, g, sec) == g.(lastMean := Means(tier))
  {
  }

  /** The change counter after an update inside the window. */
  lemma CounterExactly(c: Config, events: seq<Event>, e: Event)
    requires var g := Run(c, events).guard; Accepts(g, e.stamp.sec) && WindowOpen(g, e.stamp.sec)
    ensures var b, g' := Run(c, events), Run(c, events + [e]).guard;
      g'.largeChanges == (if b.guard.frozen then 0 else b.guard.largeChanges)
        + if Rows(c, events) >= 9 && Jumps(c, b, e.row) then 1 else 0
  {
    var b := Run(c, events);
    var t := Feed(c, TIER1_ALPHA, b.t1, e.row);
    hide Run, JumpSample, Sample, Check, TierReady, Rows;
    if TierReady(t, TIER1_MIN_SAMPLES) {
      TriggerExact(c, events, e);
      if c.features != {} {
        ReadyAfter(c, events, e);
      }
    } else {
      NeverEmptyUnready(c, b, e);
      ReadyAfter(c, events, e);
      RunMore(c, events, e);
      AcceptedUpdate(c, b, e);
      UnreadyCheck(t, Recover(b.t1, b.guard, e.stamp.sec), e.stamp.sec);
    }
  }

  lemma NeverEmptyUnready(c: Config, b: Baseline, e: Event)
    requires Shaped(c, b) && !TierReady(Feed(c, TIER1_ALPHA, b.t1, e.row), TIER1_MIN_SAMPLES)
    ensures c.features != {}
  {
  }

  /** Everything an update does to the guard. Within 900 s of a freeze: nothing. Otherwise, outside its
      300 s window, it opens a new one and counts from 0. Inside, it counts one more exactly when nine
      rows came before and some key feature jumps, and it freezes exactly at the tenth. */
  lemma GuardExactly(c: Config, events: seq<Event>, e: Event)
    ensures var b, b', sec := Run(c, events), Run(c, events + [e]), e.stamp.sec;
      var g, g' := b.guard, b'.guard;
      && (StillFrozen(g, sec) ==> b' == b)
      && (!StillFrozen(g, sec) && !WindowOpen(g, sec) ==>
        g'.windowStart == Some(sec) && g'.largeChanges == 0 && !g'.frozen)
      && (!StillFrozen(g, sec) && WindowOpen(g, sec) ==>
        && g'.windowStart == g.windowStart
        && g'.largeChanges
           == (if g.frozen then 0 else g.largeChanges) + (if Rows(c, events) >= 9 && Jumps(c, b, e.row) then 1 else 0)
        && (g'.frozen <==> g'.largeChanges == 10)
        && (g'.frozen ==> g'.detectedAt == Some(sec)))
  {
    var g, sec := Run(c, events).guard, e.stamp.sec;
    RunCoherent(c, events);
    RunCoherent(c, events + [e]);
    hide Run, Rows, Jumps, CountedAt;
    if StillFrozen(g, sec) {
      FrozenUntouched(c, events, e);
    } else {
      assert (events + [e])[..|events|] == events && (events + [e])[..|events| + 1] == events + [e];
      OneStep(c, events + [e], |events|);
      if WindowOpen(g, sec) {
        CounterExactly(c, events, e);
      }
    }
  }

  lemma AcceptedUnlessFrozen(c: Config, events: seq<Event>, sec: real)
    ensures Accepts(Run(c, events).guard, sec) <==> !StillFrozen(Run(c, events).guard, sec)
  {
    hide Run;
    RunCoherent(c, events);
  }

  /** The reference of every feature after an accepted update: its new tier-1 mean if it is a key feature,
      if the window was opened or if fewer than ten rows are in; else it stays, but for a recovery, which
      set it to the mean before the update. */
  lemma ReferenceExactly(c: Config, events: seq<Event>, e: Event, f: string)
    requires f in c.features && !StillFrozen(Run(c, events).guard, e.stamp.sec)
    ensures var b, b' := Run(c, events), Run(c, events + [e]);
      b'.guard.lastMean[f] ==
        if f in {"packets_per_sec", "bytes_per_sec", "syn_per_sec", "flows_per_sec"} then b'.t1[f].mean
        else if !WindowOpen(b.guard, e.stamp.sec) || Rows(c, events + [e]) < 10 then b'.t1[f].mean
        else if b.guard.frozen then b.t1[f].mean
        else b.guard.lastMean[f]
  {
    var b := Run(c, events);
    RunCoherent(c, events + [e]);
    RunMore(c, events, e);
    AcceptedUnlessFrozen(c, events, e.stamp.sec);
    hide Run, TierReady, Update, Rows, Feed, LargeChange, Coherent;
    ReadyAfter(c, events, e);
    AcceptedUpdate(c, b, e);
  }

  /** While fewer than ten rows are in, the reference of every feature is its tier-1 mean after each
      accepted update. */
  lemma UnreadyReferences(c: Config, events: seq<Event>, i: nat)
    requires i < |events| && AcceptedAt(c, events, i) && Rows(c, events[..i + 1]) < 10
    ensures var b := Run(c, events[..i + 1]); forall f :: f in c.features ==> b.guard.lastMean[f] == b.t1[f].mean
  {
    hide Run, Rows;
    assert events[..i + 1] == events[..i] + [events[i]];
    forall f | f in c.features
      ensures Run(c, events[..i + 1]).guard.lastMean[f] == Run(c, events[..i + 1]).t1[f].mean
    {
      ReferenceExactly(c, events[..i], events[i], f);
    }
  }

  /** Which updates of a run are counted. */
  lemma CountedExactly(c: Config, events: seq<Event>, i: nat)
    requires i < |events|
    ensures var b, e := Run(c, events[..i]), events[i];
      CountedAt(c, events, i) <==>
        && !StillFrozen(b.guard, e.stamp.sec) && WindowOpen(b.guard, e.stamp.sec)
        && Rows(c, events[..i]) >= 9 && Jumps(c, b, e.row)
  {
    var b, e := Run(c, events[..i]), events[i];
    RunCoherent(c, events[..i]);
    hide Run, Rows, Jumps;
    assert events[..i + 1] == events[..i] + [e];
    GuardExactly(c, events[..i], e);
  }

  /** No update is counted before ten rows are in. */
  lemma CountsNeedTenRows(c: Config, events: seq<Event>, i: nat)
    requires i < |events| && CountedAt(c, events, i)
    ensures Rows(c, events[..i + 1]) >= 10
  {
    hide Run, Rows, Jumps;
    CountedExactly(c, events, i);
    assert events[..i + 1] == events[..i] + [events[i]];
    RunMore(c, events[..i], events[i]);
  }

  /** m counted updates need nine rows and m more. */
  lemma {:induction false} CountedRows(c: Config, events: seq<Event>, j: nat, n: nat)
    requires j <= n <= |events| && CountedIn(c, events, j, n) > 0
    ensures Rows(c, events[..n]) >= 9 + CountedIn(c, events, j, n)
    decreases n
  {
    hide Run, Rows, CountedAt, Accepts;
    assert events[..n] == events[..n - 1] + [events[n - 1]];
    RunMore(c, events[..n - 1], events[n - 1]);
    if CountedAt(c, events, n - 1) {
      CountsNeedTenRows(c, events, n - 1);
      CountedAccepted(c, events, n - 1);
    }
    if CountedIn(c, events, j, n - 1) > 0 {
      CountedRows(c, events, j, n - 1);
    }
  }

  lemma CountedAccepted(c: Config, events: seq<Event>, i: nat)
    requires i < |events| && CountedAt(c, events, i)
    ensures Accepts(Run(c, events[..i]).guard, events[i].stamp.sec)
  {
  }

  /** So no baseline freezes before its nineteenth row. */
  lemma FreezeNeedsNineteenRows(c: Config, events: seq<Event>, k: nat)
    requires k < |events| && FreezesAt(c, events, k)
    ensures Rows(c, events[..k + 1]) >= 19
  {
    hide Run, Rows, CountedIn, FreezesAt;
    var j := FreezeNeedsTen(c, events, k);
    CountedRows(c, events, j, k + 1);
  }

  // ----- and one that freezes right there -----

  /** Nine calm updates and ten surges, all in second 0. */
  function EarlyAt(i: nat): Event {
    At(0.0, if i < 9 then 1.0 else 20.0 * Pow(GROWTH, i - 9))
  }

  function Early(n: nat): seq<Event> {
    seq(n, i requires 0 <= i < n => EarlyAt(i))
  }

  lemma EarlyStep(n: nat)
    ensures Early(n + 1) == Early(n) + [EarlyAt(n)]
    ensures forall k :: 0 <= k <= n ==> Early(n)[..k] == Early(k)
  {
  }

  function EarlyMean(n: nat): real {
    if n <= 9 then 1.0 else Pow(GROWTH, n - 9)
  }

  predicate EarlySlot(s: Slot, n: nat) {
    s.count == n && (n > 0 ==> s.mean == EarlyMean(n))
  }

  predicate EarlyGuard(g: Guard, n: nat) {
    && g.frozen == (n == 19)
    && g.largeChanges == (if n <= 9 then 0 else n - 9)
    && g.windowStart == (if n == 0 then None else Some(0.0))
  }

  lemma EarlyNextMean(s: Slot, n: nat)
    requires EarlySlot(s, n)
    ensures EarlySlot(Step(TIER1_ALPHA, s, Get(EarlyAt(n).row, RATE)), n + 1)
  {
    hide Spread;
    if n == 9 {
      assert Pow(GROWTH, 0) == 1.0 && Pow(GROWTH, 1) == GROWTH * Pow(GROWTH, 0);
    }
  }

  lemma EarlyJumps(log: real -> real, b: Baseline, n: nat)
    requires n >= 9 && Shaped(OneFeature(log), b) && EarlySlot(b.t1[RATE], n)
    ensures Jumps(OneFeature(log), b, EarlyAt(n).row)
  {
    var c := OneFeature(log);
    GrowthAtLeastOne(n - 9);
    assert n == 9 ==> Pow(GROWTH, 0) == 1.0;
    assert JumpSample(b.t1[RATE].mean, Sample(c, EarlyAt(n).row, RATE));
    hide JumpSample, Sample;
    assert RATE in {"packets_per_sec", "bytes_per_sec", "syn_per_sec", "flows_per_sec"} && RATE in c.features;
  }

  lemma EarlyGuardNext(c: Config, k: nat)
    requires k < 19 && EarlyGuard(Run(c, Early(k)).guard, k) && Rows(c, Early(k)) == k
    requires k >= 9 ==> Jumps(c, Run(c, Early(k)), EarlyAt(k).row)
    ensures EarlyGuard(Run(c, Early(k) + [EarlyAt(k)]).guard, k + 1)
    ensures Rows(c, Early(k) + [EarlyAt(k)]) == k + 1
  {
    RunMore(c, Early(k), EarlyAt(k));
    hide Run, Rows, Jumps, EarlyAt, Early;
    EarlyTime(k);
    RunCoherent(c, Early(k) + [EarlyAt(k)]);
    GuardExactly(c, Early(k), EarlyAt(k));
  }

  lemma {:induction false} EarlyRuns(log: real -> real, n: nat)
    requires n <= 19
    ensures var b := Run(OneFeature(log), Early(n));
      EarlySlot(b.t1[RATE], n) && EarlyGuard(b.guard, n) && Rows(OneFeature(log), Early(n)) == n
  {
    var c := OneFeature(log);
    if n == 0 {
      assert Early(0) == [];
    } else {
      hide Update, Step, EarlySlot, EarlyAt, Jumps, Rows;
      var k := n - 1;
      EarlyRuns(log, k);
      EarlyStep(k);
      RunMore(c, Early(k), EarlyAt(k));
      hide Run, Early;
      var b := Run(c, Early(k));
      SlotMoves(log, b, EarlyAt(k));
      EarlyNextMean(b.t1[RATE], k);
      if k >= 9 {
        EarlyJumps(log, b, k);
      }
      EarlyGuardNext(c, k);
    }
  }

  lemma EarlyTime(n: nat)
    ensures EarlyAt(n).stamp.sec == 0.0
  {
  }

  /** Nineteen is exact: some run freezes with its nineteenth row. */
  lemma NineteenRowsCanFreeze(log: real -> real)
    ensures var c, events := OneFeature(log), Early(19);
      FreezesAt(c, events, 18) && Rows(c, events[..19]) == 19
  {
    hide Run, Rows, EarlySlot;
    EarlyRuns(log, 18);
    EarlyRuns(log, 19);
    EarlyStep(19);
  }
}
