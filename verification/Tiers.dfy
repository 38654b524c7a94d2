// The state of ThreeTierBaseline as a value: what one update does to the three tiers and to the
// poisoning guard.
module Tiers {
  import opened RealMath
  import opened Options
  import opened Slots

  const TIER1_ALPHA := 0.15
  const TIER2_ALPHA := 0.05
  const TIER3_ALPHA := 0.01
  const TIER1_MIN_SAMPLES := 10
  const TIER2_MIN_SAMPLES := 20
  const TIER3_MIN_SAMPLES := 40
  const TIER2_SLOTS := 24
  const TIER3_SLOTS := 168

  const CHANGE_RATE_THRESHOLD := 2.0
  const WINDOW_SEC := 300.0
  const COUNT_THRESHOLD := 10
  const RECOVERY_SEC := 900.0

  const KEY_FEATURES := {"packets_per_sec", "bytes_per_sec", "syn_per_sec", "flows_per_sec"}
  const LOG_TRANSFORM_FEATURES := {"unique_src_ips", "unique_dst_ports", "unique_flows"}

  type Row = map<string, real>

  /** A datetime: its second on the time line and the calendar fields the slots are picked by. */
  datatype RawStamp = Stamp(sec: real, hour: nat, weekday: nat)

  type Stamp = s: RawStamp | s.hour < 24 && s.weekday < 7 witness Stamp(0.0, 0, 0)

  datatype Event = Event(row: Row, stamp: Stamp)

  /** The feature names, which optional tiers are kept, and the logarithm, which stays abstract. */
  datatype Config = Config(features: set<string>, useTier2: bool, useTier3: bool, log: real -> real)

  type Tier = map<string, Slot>

  datatype Guard = Guard(
    frozen: bool,
    lastMean: map<string, real>,
    windowStart: Option<real>,
    largeChanges: nat,
    detected: bool,
    detectedAt: Option<real>)

  datatype Baseline = Baseline(t1: Tier, t2: seq<Tier>, t3: seq<Tier>, guard: Guard)

  // ----- initial state -----

  function FreshTier(c: Config): Tier {
    map f | f in c.features :: FRESH
  }

  function Initial(c: Config): Baseline {
    Baseline(
      FreshTier(c),
      if c.useTier2 then seq(TIER2_SLOTS, _ => FreshTier(c)) else [],
      if c.useTier3 then seq(TIER3_SLOTS, _ => FreshTier(c)) else [],
      Guard(false, map f | f in c.features :: 0.0, None, 0, false, None))
  }

  predicate Shaped(c: Config, b: Baseline) {
    && b.t1.Keys == c.features
    && |b.t2| == (if c.useTier2 then TIER2_SLOTS else 0)
    && |b.t3| == (if c.useTier3 then TIER3_SLOTS else 0)
    && (forall h :: 0 <= h < |b.t2| ==> b.t2[h].Keys == c.features)
    && (forall w :: 0 <= w < |b.t3| ==> b.t3[w].Keys == c.features)
    && b.guard.lastMean.Keys == c.features
  }

  // ----- one update of the slots -----

  function Hourly(s: Stamp): nat {
    s.hour
  }

  function Weekly(s: Stamp): (w: nat)
    ensures w < TIER3_SLOTS
  {
    s.weekday * 24 + s.hour
  }

  function Get(row: Row, f: string): real {
    if f in row then row[f] else 0.0
  }

  /** The value a feature's slots are fed: cardinalities go in through the logarithm. */
  function Sample(c: Config, row: Row, f: string): real {
    if f in LOG_TRANSFORM_FEATURES then (c.log)(Get(row, f) + 1.0) else Get(row, f)
  }

  function Feed(c: Config, alpha: real, tier: Tier, row: Row): Tier {
    map f | f in tier :: Step(alpha, tier[f], Sample(c, row, f))
  }

  function FeedAt(c: Config, alpha: real, tiers: seq<Tier>, k: nat, row: Row): seq<Tier>
    requires k < |tiers|
  {
    tiers[k := Feed(c, alpha, tiers[k], row)]
  }

  function FeedAll(c: Config, b: Baseline, e: Event): (r: Baseline)
    requires Shaped(c, b)
    ensures Shaped(c, r)
  {
    b.(t1 := Feed(c, TIER1_ALPHA, b.t1, e.row),
       t2 := if c.useTier2 then FeedAt(c, TIER2_ALPHA, b.t2, Hourly(e.stamp), e.row) else [],
       t3 := if c.useTier3 then FeedAt(c, TIER3_ALPHA, b.t3, Weekly(e.stamp), e.row) else [])
  }

  // ----- the poisoning guard -----

  predicate TierReady(tier: Tier, minSamples: nat) {
    forall f :: f in tier ==> tier[f].count >= minSamples
  }

  function Means(tier: Tier): (r: map<string, real>)
    ensures r.Keys == tier.Keys
  {
    map f | f in tier :: tier[f].mean
  }

  /** The references after a full check: only the key features advance. */
  function KeyMeans(tier: Tier, lastMean: map<string, real>): (r: map<string, real>)
    requires tier.Keys == lastMean.Keys
    ensures r.Keys == tier.Keys
  {
    map f | f in tier :: if f in KEY_FEATURES then tier[f].mean else lastMean[f]
  }

  /** The per-cycle test on one feature: its mean moved by more than 200 percent of a reference of
      at least 1. */
  predicate JumpedFrom(prev: real, curr: real) {
    prev >= 1.0 && Abs(curr - prev) / prev > CHANGE_RATE_THRESHOLD
  }

  predicate LargeChange(tier: Tier, lastMean: map<string, real>)
    requires tier.Keys == lastMean.Keys
  {
    exists f :: f in KEY_FEATURES && f in tier && JumpedFrom(lastMean[f], tier[f].mean)
  }

  /** The guard after a comparison: ten large changes in one window freeze the baseline. */
  function Counted(g: Guard, largeChange: bool, sec: real): (r: Guard)
    ensures r.lastMean == g.lastMean
  {
    if !largeChange then g
    else if g.largeChanges + 1 >= COUNT_THRESHOLD then
      g.(largeChanges := g.largeChanges + 1, detected := true, frozen := true, detectedAt := Some(sec))
    else
      g.(largeChanges := g.largeChanges + 1)
  }

  predicate WindowExpired(g: Guard, sec: real) {
    g.windowStart.None? || sec - g.windowStart.value > WINDOW_SEC
  }

  /** _check_poisoning, on the slots as they are after the update. */
  function Check(tier: Tier, g: Guard, sec: real): (r: Guard)
    requires tier.Keys == g.lastMean.Keys
    ensures r.lastMean.Keys == tier.Keys
  {
    if g.frozen then g
    else if WindowExpired(g, sec) then
      g.(windowStart := Some(sec), largeChanges := 0, lastMean := Means(tier))
    else if !TierReady(tier, TIER1_MIN_SAMPLES) then
      g.(lastMean := Means(tier))
    else
      Counted(g.(lastMean := KeyMeans(tier, g.lastMean)), LargeChange(tier, g.lastMean), sec)
  }

  predicate Recovers(g: Guard, sec: real) {
    g.frozen && g.detectedAt.Some? && sec - g.detectedAt.value >= RECOVERY_SEC
  }

  /** An update reaches the slots when the baseline is not frozen or has just recovered. */
  predicate Accepts(g: Guard, sec: real) {
    !g.frozen || Recovers(g, sec)
  }

  function Recover(tier: Tier, g: Guard, sec: real): (r: Guard)
    requires tier.Keys == g.lastMean.Keys
    ensures r.lastMean.Keys == tier.Keys
  {
    if Recovers(g, sec) then
      g.(frozen := false, detected := false, detectedAt := None, largeChanges := 0, lastMean := Means(tier))
    else g
  }

  function Update(c: Config, b: Baseline, e: Event): (r: Baseline)
    requires Shaped(c, b)
    ensures Shaped(c, r)
  {
    hide Check, Feed;
    var g := Recover(b.t1, b.guard, e.stamp.sec);
    if g.frozen then b.(guard := g)
    else
      var fed := FeedAll(c, b.(guard := g), e);
      fed.(guard := Check(fed.t1, g, e.stamp.sec))
  }

  // ----- runs -----

  function Run(c: Config, events: seq<Event>): (b: Baseline)
    ensures Shaped(c, b)
  {
    if events == [] then Initial(c) else Update(c, Run(c, events[..|events| - 1]), events[|events| - 1])
  }

  /** Time never runs backwards along the run. */
  predicate Ordered(events: seq<Event>) {
    forall i, j :: 0 <= i < j < |events| ==> events[i].stamp.sec <= events[j].stamp.sec
  }
}
