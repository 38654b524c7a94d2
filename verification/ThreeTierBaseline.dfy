// The mutable ThreeTierBaseline: dictionaries of slot objects, proved to follow Tiers.Update.
module ThreeTierBaseline {
  import opened Sequences
  import opened Options
  import opened Slots
  import opened Tiers

  type SlotMap = map<string, SlotBaseline>

  function SetOf(features: seq<string>): set<string> {
    set f | f in features
  }

  const KEY_LIST := ["packets_per_sec", "bytes_per_sec", "syn_per_sec", "flows_per_sec"]

  lemma KeyListFacts()
    ensures NoRepeats(KEY_LIST) && SetOf(KEY_LIST) == KEY_FEATURES
  {
  }

  /** The dict of new slots at position k of a tier. */
  method FreshSlots(features: seq<string>, k: nat, alpha: real, minSamples: nat)
    returns (m: SlotMap, ghost made: set<SlotBaseline>)
    ensures fresh(made) && m.Keys == SetOf(features)
    ensures forall f :: f in m ==>
      && m[f] in made && m[f].place == Place(k, f)
      && m[f].alpha == alpha && m[f].minSamples == minSamples && m[f].State() == FRESH
  {
    m, made := map[], {};
    for j := 0 to |features|
      invariant fresh(made) && m.Keys == SetOf(features[..j])
      invariant forall f :: f in m ==>
        && m[f] in made && m[f].place == Place(k, f)
        && m[f].alpha == alpha && m[f].minSamples == minSamples && m[f].State() == FRESH
    {
      var s := new SlotBaseline(alpha, minSamples, Place(k, features[j]));
      m := m[features[j] := s];
      made := made + {s};
    }
    assert features[..|features|] == features;
  }

  /** The list of those dicts. */
  method FreshTable(features: seq<string>, n: nat, alpha: real, minSamples: nat)
    returns (ms: seq<SlotMap>, ghost made: set<SlotBaseline>)
    ensures fresh(made) && |ms| == n
    ensures forall k :: 0 <= k < n ==> ms[k].Keys == SetOf(features)
    ensures forall k, f :: 0 <= k < n && f in SetOf(features) ==>
      && ms[k][f] in made && ms[k][f].place == Place(k, f)
      && ms[k][f].alpha == alpha && ms[k][f].minSamples == minSamples && ms[k][f].State() == FRESH
  {
    hide SetOf;
    ms, made := [], {};
    for k := 0 to n
      invariant |ms| == k && fresh(made)
      invariant forall i :: 0 <= i < k ==> ms[i].Keys == SetOf(features)
      invariant forall i, f :: 0 <= i < k && f in SetOf(features) ==>
        && ms[i][f] in made && ms[i][f].place == Place(i, f)
        && ms[i][f].alpha == alpha && ms[i][f].minSamples == minSamples && ms[i][f].State() == FRESH
    {
      var m, some := FreshSlots(features, k, alpha, minSamples);
      ms := ms + [m];
      made := made + some;
    }
  }

  /** One tier: a list of dicts from feature to slot object, one dict per slot of the tier. */
  class SlotTable {
    const rows: seq<SlotMap>
    ghost const alpha: real
    ghost const minSamples: nat
    ghost const names: set<string>
    ghost const slots: set<SlotBaseline>
    ghost var states: seq<Tier>

    /** Which slot objects there are; this never changes. */
    ghost predicate Layout() {
      && (forall k :: 0 <= k < |rows| ==> rows[k].Keys == names)
      && forall k, f :: 0 <= k < |rows| && f in names ==>
        && rows[k][f] in slots && rows[k][f].place == Place(k, f)
        && rows[k][f].alpha == alpha && rows[k][f].minSamples == minSamples
    }

    ghost predicate Valid()
      reads this, slots
    {
      && Layout()
      && |states| == |rows|
      && (forall k :: 0 <= k < |rows| ==> states[k].Keys == names)
      && forall k, f :: 0 <= k < |rows| && f in names ==> rows[k][f].State() == states[k][f]
    }

    constructor (features: seq<string>, n: nat, alpha: real, minSamples: nat)
      ensures Valid() && fresh(slots)
      ensures names == SetOf(features) && |rows| == n && this.alpha == alpha && this.minSamples == minSamples
      ensures |states| == n && forall k :: 0 <= k < n ==> states[k] == map f | f in names :: FRESH
    {
      var ms, made := FreshTable(features, n, alpha, minSamples);
      rows, slots, names, this.alpha, this.minSamples := ms, made, SetOf(features), alpha, minSamples;
      hide SetOf;
      states := seq(n, _ => map f | f in SetOf(features) :: FRESH);
    }

    method Feed(k: nat, f: string, x: real)
      requires Valid() && k < |rows| && f in names
      modifies `states, slots
      ensures Valid()
      ensures states == old(states)[k := old(states)[k][f := Step(alpha, old(states)[k][f], x)]]
    {
      hide Step;
      var slot := rows[k][f];
      slot.Update(x);
      forall i, g | 0 <= i < |rows| && g in names && !(i == k && g == f)
        ensures rows[i][g].State() == old(states)[i][g]
      {
        assert rows[i][g].place != slot.place;
      }
      states := states[k := states[k][f := slot.State()]];
    }

    /** Feed a tier that may be switched off. */
    method FeedIf(on: bool, k: nat, f: string, x: real)
      requires Valid() && f in names && (on ==> k < |rows|)
      modifies `states, slots
      ensures Valid()
      ensures states ==
        if on then old(states)[k := old(states)[k][f := Step(alpha, old(states)[k][f], x)]] else old(states)
    {
      hide Step, Valid;
      if on {
        Feed(k, f, x);
      }
    }
  }

  /** The states of the slot objects of one dict. */
  ghost predicate Holds(slots: SlotMap, tier: Tier)
    reads slots.Values
  {
    slots.Keys == tier.Keys && forall f :: f in tier ==> slots[f].State() == tier[f]
  }

  /** The loop over the key features: compare each mean with its reference and advance the reference. */
  method CompareSlots(slots: SlotMap, ghost tier: Tier, last: map<string, real>, keys: seq<string>)
    returns (means: map<string, real>, largeChange: bool)
    requires Holds(slots, tier) && tier.Keys == last.Keys && NoRepeats(keys)
    ensures means == MeansTo(tier, last, keys) && largeChange == LargeTo(tier, last, keys)
  {
    CompareNone(tier, last);
    hide JumpedFrom, MeansTo, LargeTo;
    means, largeChange := last, false;
    for i := 0 to |keys|
      invariant means == MeansTo(tier, last, keys[..i])
      invariant largeChange == LargeTo(tier, last, keys[..i])
    {
      var f := keys[i];
      NotYet(keys, i);
      CompareOne(tier, last, keys[..i], f);
      if f in slots {
        var curr, prev := slots[f].mean, means[f];
        means := means[f := curr];
        if JumpedFrom(prev, curr) {
          largeChange := true;
        }
      }
    }
    assert keys[..|keys|] == keys;
  }

  class ThreeTierBaseline {
    const features: seq<string>
    const config: Config
    const t1: SlotTable
    const t2: SlotTable
    const t3: SlotTable
    var frozen: bool
    var lastMean: map<string, real>
    var windowStart: Option<real>
    var largeChanges: nat
    var detected: bool
    var detectedAt: Option<real>

    ghost function Repr(): set<object> {
      {t1, t2, t3} + t1.slots + t2.slots + t3.slots
    }

    ghost predicate Layout() {
      && config.features == SetOf(features)
      && t1 != t2 && t1 != t3 && t2 != t3
      && t1.slots !! t2.slots && t1.slots !! t3.slots && t2.slots !! t3.slots
      && t1.names == t2.names == t3.names == config.features
      && t1.alpha == TIER1_ALPHA && t2.alpha == TIER2_ALPHA && t3.alpha == TIER3_ALPHA
      && t1.minSamples == TIER1_MIN_SAMPLES && t2.minSamples == TIER2_MIN_SAMPLES && t3.minSamples == TIER3_MIN_SAMPLES
      && |t1.rows| == 1
      && |t2.rows| == (if config.useTier2 then TIER2_SLOTS else 0)
      && |t3.rows| == (if config.useTier3 then TIER3_SLOTS else 0)
    }

    ghost predicate Valid()
      reads this, Repr()
    {
      && Layout()
      && t1.Valid() && t2.Valid() && t3.Valid()
      && |t1.states| == 1
      && Shaped(config, Baseline(t1.states[0], t2.states, t3.states, GuardState()))
    }

    ghost function GuardState(): Guard
      reads this
    {
      Guard(frozen, lastMean, windowStart, largeChanges, detected, detectedAt)
    }

    ghost function State(): Baseline
      requires Valid()
      reads this, Repr()
    {
      Baseline(t1.states[0], t2.states, t3.states, GuardState())
    }

    constructor (features: seq<string>, useTier2: bool, useTier3: bool, log: real -> real)
      ensures Valid() && fresh(Repr()) && this.features == features
      ensures config == Config(SetOf(features), useTier2, useTier3, log)
      ensures State() == Initial(config)
    {
      hide SlotTable.Valid;
      this.features := features;
      config := Config(SetOf(features), useTier2, useTier3, log);
      var a := new SlotTable(features, 1, TIER1_ALPHA, TIER1_MIN_SAMPLES);
      var b := new SlotTable(features, if useTier2 then TIER2_SLOTS else 0, TIER2_ALPHA, TIER2_MIN_SAMPLES);
      var d := new SlotTable(features, if useTier3 then TIER3_SLOTS else 0, TIER3_ALPHA, TIER3_MIN_SAMPLES);
      t1, t2, t3 := a, b, d;
      ghost var init := Initial(Config(SetOf(features), useTier2, useTier3, log));
      assert b.states == init.t2 && d.states == init.t3;
      frozen, windowStart, largeChanges, detected, detectedAt := false, None, 0, false, None;
      lastMean := map f | f in features :: 0.0;
    }

    /** The current tier-1 means, the new references of every feature. */
    method CurrentMeans() returns (means: map<string, real>)
      requires Valid()
      ensures means == Means(State().t1)
    {
      means := lastMean;
      for i := 0 to |features|
        invariant means.Keys == config.features
        invariant forall j :: 0 <= j < i ==> means[features[j]] == t1.states[0][features[j]].mean
      {
        var f := features[i];
        means := means[f := t1.rows[0][f].mean];
      }
    }

    /** _tier_all_ready, for tier 1. */
    method TierAllReady() returns (ready: bool)
      requires Valid()
      ensures ready <==> TierReady(State().t1, TIER1_MIN_SAMPLES)
    {
      ready := true;
      for i := 0 to |features|
        invariant ready <==> forall j :: 0 <= j < i ==> t1.states[0][features[j]].count >= TIER1_MIN_SAMPLES
      {
        ready := ready && t1.rows[0][features[i]].Ready();
      }
    }

    /** The comparison of the key features with their references. */
    method CompareKeyFeatures(keys: seq<string>) returns (means: map<string, real>, largeChange: bool)
      requires Valid() && NoRepeats(keys) && SetOf(keys) == KEY_FEATURES
      ensures means == KeyMeans(State().t1, lastMean)
      ensures largeChange == LargeChange(State().t1, lastMean)
    {
      means, largeChange := CompareSlots(t1.rows[0], t1.states[0], lastMean, keys);
      CompareDone(t1.states[0], lastMean, keys);
    }

    /** A new counting window: the counter restarts and every reference is renewed. */
    method OpenWindow(sec: real)
      requires Valid()
      modifies this
      ensures Valid()
      ensures State() == old(State()).(guard := old(GuardState()).(
        windowStart := Some(sec), largeChanges := 0, lastMean := Means(old(State()).t1)))
    {
      hide SlotTable.Valid, Means;
      windowStart, largeChanges := Some(sec), 0;
      lastMean := CurrentMeans();
    }

    /** _check_poisoning */
    method CheckPoisoning(sec: real)
      requires Valid()
      modifies this
      ensures Valid()
      ensures State() == old(State()).(guard := Check(old(State()).t1, old(GuardState()), sec))
    {
      hide SlotTable.Valid, LargeChange, TierReady, Means, KeyMeans, Counted;
      if frozen {
        return;
      }
      if windowStart.None? || sec - windowStart.value > WINDOW_SEC {
        OpenWindow(sec);
        return;
      }
      var ready := TierAllReady();
      if !ready {
        lastMean := CurrentMeans();
        return;
      }
      KeyListFacts();
      var means, largeChange := CompareKeyFeatures(KEY_LIST);
      Count(means, largeChange, sec);
    }

    /** The end of _check_poisoning: take over the references and count the change. */
    method Count(means: map<string, real>, largeChange: bool, sec: real)
      modifies this
      ensures GuardState() == Counted(old(GuardState()).(lastMean := means), largeChange, sec)
    {
      lastMean := means;
      if largeChange {
        largeChanges := largeChanges + 1;
        if largeChanges >= COUNT_THRESHOLD {
          detected, frozen, detectedAt := true, true, Some(sec);
        }
      }
    }

    /** The feature loop of update(): each value goes to tier 1 and to the slots of its hour and
        week hour. */
    method FeedRow(e: Event)
      requires Valid()
      modifies Repr()
      ensures Valid()
      ensures State() == FeedTo(config, old(State()), e, features)
    {
      hide Step, Sample, SlotTable.Valid, SlotTable.Layout;
      ghost var b := State();
      for i := 0 to |features|
        invariant Valid()
        invariant State() == FeedTo(config, b, e, features[..i])
      {
        FeedFeature(e, features[i]);
        FeedOneMore(config, b, e, features, i);
      }
      assert features[..|features|] == features;
    }

    method FeedFeature(e: Event, f: string)
      requires Valid() && f in config.features
      modifies Repr()
      ensures Valid()
      ensures State() == FeedOne(config, old(State()), e, f)
    {
      hide Step, Sample, SlotTable.Valid, SlotTable.Layout;
      var x := Sample(config, e.row, f);
      ghost var r := FeedOne(config, State(), e, f);
      assert r.t1 == FeedSlot(config, TIER1_ALPHA, t1.states[0], e.row, f);
      t1.Feed(0, f, x);
      FeedCalendar(e, f, x);
    }

    /** The slots of the hour and of the week hour, where these tiers are kept. */
    method FeedCalendar(e: Event, f: string, x: real)
      requires Valid() && f in config.features && x == Sample(config, e.row, f)
      modifies t2`states, t2.slots, t3`states, t3.slots
      ensures Valid()
      ensures State() == FeedOne(config, old(State()), e, f).(t1 := old(State()).t1)
    {
      hide Step, Sample, SlotTable.Valid, SlotTable.Layout;
      ghost var r := FeedOne(config, State(), e, f);
      assert Shaped(config, r);
      hide Shaped;
      t2.FeedIf(config.useTier2, Hourly(e.stamp), f, x);
      t3.FeedIf(config.useTier3, Weekly(e.stamp), f, x);
    }

    /** The recovery block at the head of update(). */
    method RecoverIfDue(sec: real)
      requires Valid()
      modifies this
      ensures Valid() && frozen == State().guard.frozen
      ensures State() == old(State()).(guard := Recover(old(State()).t1, old(State()).guard, sec))
    {
      hide SlotTable.Valid, Means;
      if frozen && detectedAt.Some? {
        var elapsed := sec - detectedAt.value;
        if elapsed >= RECOVERY_SEC {
          frozen, detected, detectedAt, largeChanges := false, false, None, 0;
          lastMean := CurrentMeans();
        }
      }
    }

    /** update(), whatever the feature list. */
    method UpdateInOrder(e: Event)
      requires Valid()
      modifies this, Repr()
      ensures Valid()
      ensures State() == UpdateBy(config, old(State()), e, features)
    {
      hide SlotTable.Valid, Check, FeedTo, Recover;
      RecoverIfDue(e.stamp.sec);
      if frozen {
        return;
      }
      FeedRow(e);
      CheckPoisoning(e.stamp.sec);
    }

    /** update(): one pass over the feature list as it is, and exactly Tiers.Update when it repeats no
        name. */
    method Update(e: Event)
      requires Valid()
      modifies this, Repr()
      ensures Valid()
      ensures State() == UpdateBy(config, old(State()), e, features)
      ensures NoRepeats(features) ==> State() == Tiers.Update(config, old(State()), e)
    {
      hide SlotTable.Valid, UpdateBy, Tiers.Update, NoRepeats;
      ghost var b := State();
      UpdateInOrder(e);
      if NoRepeats(features) {
        UpdateByIs(config, b, e, features);
      }
    }
  }

  // ----- the key-feature loop on values -----

  /** The references after comparing the features in done. */
  ghost function MeansTo(tier: Tier, last: map<string, real>, done: seq<string>): (m: map<string, real>)
    requires tier.Keys == last.Keys
    ensures m.Keys == tier.Keys
  {
    map f | f in tier :: if f in done then tier[f].mean else last[f]
  }

  ghost predicate LargeTo(tier: Tier, last: map<string, real>, done: seq<string>)
    requires tier.Keys == last.Keys
  {
    exists f :: f in done && f in tier && JumpedFrom(last[f], tier[f].mean)
  }

  lemma CompareNone(tier: Tier, last: map<string, real>)
    requires tier.Keys == last.Keys
    ensures MeansTo(tier, last, []) == last && !LargeTo(tier, last, [])
  {
  }

  lemma CompareOne(tier: Tier, last: map<string, real>, done: seq<string>, f: string)
    requires tier.Keys == last.Keys && f !in done
    ensures f in tier ==>
      && MeansTo(tier, last, done)[f] == last[f]
      && MeansTo(tier, last, done + [f]) == MeansTo(tier, last, done)[f := tier[f].mean]
    ensures f !in tier ==> MeansTo(tier, last, done + [f]) == MeansTo(tier, last, done)
    ensures LargeTo(tier, last, done + [f]) <==>
      LargeTo(tier, last, done) || (f in tier && JumpedFrom(last[f], tier[f].mean))
  {
    hide JumpedFrom;
  }

  lemma CompareDone(tier: Tier, last: map<string, real>, keys: seq<string>)
    requires tier.Keys == last.Keys && SetOf(keys) == KEY_FEATURES
    ensures MeansTo(tier, last, keys) == KeyMeans(tier, last)
    ensures LargeTo(tier, last, keys) == LargeChange(tier, last)
  {
    hide JumpedFrom;
    assert forall f :: f in keys <==> f in SetOf(keys);
  }

  // ----- the feature loop on values -----

  ghost function FeedSlot(c: Config, alpha: real, tier: Tier, row: Row, f: string): Tier
    requires f in tier
  {
    tier[f := Step(alpha, tier[f], Sample(c, row, f))]
  }

  /** One turn of the loop. */
  ghost function FeedOne(c: Config, b: Baseline, e: Event, f: string): (r: Baseline)
    requires Shaped(c, b) && f in c.features
    ensures Shaped(c, r)
  {
    var h, w := Hourly(e.stamp), Weekly(e.stamp);
    b.(t1 := FeedSlot(c, TIER1_ALPHA, b.t1, e.row, f),
       t2 := if c.useTier2 then b.t2[h := FeedSlot(c, TIER2_ALPHA, b.t2[h], e.row, f)] else b.t2,
       t3 := if c.useTier3 then b.t3[w := FeedSlot(c, TIER3_ALPHA, b.t3[w], e.row, f)] else b.t3)
  }

  ghost function FeedTo(c: Config, b: Baseline, e: Event, done: seq<string>): (r: Baseline)
    requires Shaped(c, b) && forall f :: f in done ==> f in c.features
    ensures Shaped(c, r)
  {
    if done == [] then b else FeedOne(c, FeedTo(c, b, e, done[..|done| - 1]), e, done[|done| - 1])
  }

  lemma FeedOneMore(c: Config, b: Baseline, e: Event, features: seq<string>, i: nat)
    requires Shaped(c, b) && i < |features| && forall f :: f in features ==> f in c.features
    ensures FeedTo(c, b, e, features[..i + 1]) == FeedOne(c, FeedTo(c, b, e, features[..i]), e, features[i])
  {
    assert features[..i + 1][..i] == features[..i];
  }

  /** A tier in the middle of the feature loop. */
  ghost function FedTo(c: Config, alpha: real, tier: Tier, row: Row, done: seq<string>): Tier {
    map f | f in tier :: if f in done then Step(alpha, tier[f], Sample(c, row, f)) else tier[f]
  }

  lemma FedStep(c: Config, alpha: real, tier: Tier, row: Row, done: seq<string>, f: string)
    requires f in tier && f !in done
    ensures FedTo(c, alpha, tier, row, done + [f]) == FeedSlot(c, alpha, FedTo(c, alpha, tier, row, done), row, f)
  {
    hide Step, Sample;
  }

  /** Exactly the slots of the features in done have moved. */
  ghost function Fed(c: Config, b: Baseline, e: Event, done: seq<string>): (r: Baseline)
    requires Shaped(c, b)
    ensures Shaped(c, r)
  {
    var h, w := Hourly(e.stamp), Weekly(e.stamp);
    b.(t1 := FedTo(c, TIER1_ALPHA, b.t1, e.row, done),
       t2 := if c.useTier2 then b.t2[h := FedTo(c, TIER2_ALPHA, b.t2[h], e.row, done)] else b.t2,
       t3 := if c.useTier3 then b.t3[w := FedTo(c, TIER3_ALPHA, b.t3[w], e.row, done)] else b.t3)
  }

  lemma FedOneMore(c: Config, b: Baseline, e: Event, done: seq<string>, f: string)
    requires Shaped(c, b) && f in c.features && f !in done
    ensures FeedOne(c, Fed(c, b, e, done), e, f) == Fed(c, b, e, done + [f])
  {
    hide FeedSlot, FedTo;
    FedStep(c, TIER1_ALPHA, b.t1, e.row, done, f);
    if c.useTier2 {
      FedStep(c, TIER2_ALPHA, b.t2[Hourly(e.stamp)], e.row, done, f);
    }
    if c.useTier3 {
      FedStep(c, TIER3_ALPHA, b.t3[Weekly(e.stamp)], e.row, done, f);
    }
  }

  lemma NothingFed(c: Config, b: Baseline, e: Event)
    requires Shaped(c, b)
    ensures Fed(c, b, e, []) == b
  {
    assert forall tier, alpha :: FedTo(c, alpha, tier, e.row, []) == tier;
  }

  lemma {:induction false} FeedToIs(c: Config, b: Baseline, e: Event, done: seq<string>)
    requires Shaped(c, b) && NoRepeats(done) && forall f :: f in done ==> f in c.features
    ensures FeedTo(c, b, e, done) == Fed(c, b, e, done)
  {
    hide Fed, FeedOne, Shaped;
    if done == [] {
      NothingFed(c, b, e);
    } else {
      var n := |done| - 1;
      assert done == done[..n] + [done[n]];
      FeedToIs(c, b, e, done[..n]);
      FedOneMore(c, b, e, done[..n], done[n]);
    }
  }

  /** The whole loop is FeedAll. */
  lemma FeedDone(c: Config, b: Baseline, e: Event, features: seq<string>)
    requires Shaped(c, b) && NoRepeats(features) && c.features == SetOf(features)
    ensures FeedTo(c, b, e, features) == FeedAll(c, b, e)
  {
    hide Step, Sample;
    FeedToIs(c, b, e, features);
    forall tier: Tier, alpha | tier.Keys == c.features
      ensures FedTo(c, alpha, tier, e.row, features) == Feed(c, alpha, tier, e.row)
    {
    }
  }

  // ----- the whole update on values -----

  /** update() with the feature list in the caller's order, repeats included. */
  ghost function UpdateBy(c: Config, b: Baseline, e: Event, features: seq<string>): Baseline
    requires Shaped(c, b) && forall f :: f in features ==> f in c.features
  {
    var g := Recover(b.t1, b.guard, e.stamp.sec);
    if g.frozen then b.(guard := g)
    else
      var fed := FeedTo(c, b.(guard := g), e, features);
      fed.(guard := Check(fed.t1, g, e.stamp.sec))
  }

  lemma UpdateByIs(c: Config, b: Baseline, e: Event, features: seq<string>)
    requires Shaped(c, b) && NoRepeats(features) && c.features == SetOf(features)
    ensures forall f :: f in features ==> f in c.features
    ensures UpdateBy(c, b, e, features) == Tiers.Update(c, b, e)
  {
    hide Check, FeedTo, FeedAll;
    var g := Recover(b.t1, b.guard, e.stamp.sec);
    if !g.frozen {
      FeedDone(c, b.(guard := g), e, features);
    }
  }

  lemma StepCounts(alpha: real, s: Slot, x: real)
    ensures Step(alpha, s, x).count == s.count + 1
  {
  }

  /** A name listed twice feeds its slot twice per row. */
  lemma {:induction false} RepeatsFeedAgain(c: Config, b: Baseline, e: Event, done: seq<string>, f: string)
    requires Shaped(c, b) && f in c.features && forall g :: g in done ==> g in c.features
    ensures FeedTo(c, b, e, done).t1[f].count == b.t1[f].count + multiset(done)[f]
  {
    if done != [] {
      var n := |done| - 1;
      assert done == done[..n] + [done[n]];
      RepeatsFeedAgain(c, b, e, done[..n], f);
      var before := FeedTo(c, b, e, done[..n]);
      assert FeedTo(c, b, e, done).t1 == FeedSlot(c, TIER1_ALPHA, before.t1, e.row, done[n]);
      StepCounts(TIER1_ALPHA, before.t1[done[n]], Sample(c, e.row, done[n]));
      hide FeedTo, Step, Sample, Shaped;
    }
  }
}
