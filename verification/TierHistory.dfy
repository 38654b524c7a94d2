// What the 1 + 24 + 168 slots of every feature hold after any run: each is a fresh slot folded over
// the accepted rows of its own hour or weekday-hour.
module TierHistory {
  import opened Sequences
  import opened Slots
  import opened Tiers
  import opened PoisonGuard

  /** The rows that reached the slots, in order. */
  function AcceptedRows(c: Config, events: seq<Event>): seq<Event> {
    if events == [] then []
    else
      var n := |events| - 1;
      AcceptedRows(c, events[..n]) + if Accepts(Run(c, events[..n]).guard, events[n].stamp.sec) then [events[n]] else []
  }

  /** The rows of one slot: all of them for tier 1, those of the hour for tier 2, those of the
      weekday and hour for tier 3. */
  function OfHour(rows: seq<Event>, h: nat): seq<Event> {
    if rows == [] then []
    else OfHour(rows[..|rows| - 1], h) + if rows[|rows| - 1].stamp.hour == h then [rows[|rows| - 1]] else []
  }

  function OfWeekHour(rows: seq<Event>, w: nat): seq<Event> {
    if rows == [] then []
    else
      var e := rows[|rows| - 1];
      OfWeekHour(rows[..|rows| - 1], w) + if e.stamp.weekday * 24 + e.stamp.hour == w then [e] else []
  }

  /** What the rows contribute to feature f: its value, 0 where it is absent, and for the three
      cardinalities the logarithm of one more. */
  function Samples(c: Config, rows: seq<Event>, f: string): (xs: seq<real>)
    ensures |xs| == |rows|
  {
    var value := (e: Event) => if f in e.row then e.row[f] else 0.0;
    if f in {"unique_src_ips", "unique_dst_ports", "unique_flows"} then
      Map(rows, (e: Event) => (c.log)(value(e) + 1.0))
    else Map(rows, value)
  }

  lemma SamplesMore(c: Config, rows: seq<Event>, e: Event, f: string)
    ensures Samples(c, rows + [e], f) == Samples(c, rows, f) + [Sample(c, e.row, f)]
  {
  }

  /** Every slot of the tier is the fold of its feature's samples over the given rows. */
  ghost predicate Folds(c: Config, alpha: real, tier: Tier, rows: seq<Event>) {
    tier.Keys == c.features && forall f :: f in c.features ==> tier[f] == Fold(alpha, Samples(c, rows, f))
  }

  ghost predicate Refines(c: Config, b: Baseline, rows: seq<Event>)
    requires Shaped(c, b)
  {
    && Folds(c, 0.15, b.t1, rows)
    && (forall h :: 0 <= h < |b.t2| ==> Folds(c, 0.05, b.t2[h], OfHour(rows, h)))
    && (forall w :: 0 <= w < |b.t3| ==> Folds(c, 0.01, b.t3[w], OfWeekHour(rows, w)))
  }

  lemma FeedFolds(c: Config, alpha: real, tier: Tier, rows: seq<Event>, e: Event)
    requires Folds(c, alpha, tier, rows)
    ensures Folds(c, alpha, Feed(c, alpha, tier, e.row), rows + [e])
  {
    hide Step, Samples, Sample;
    forall f | f in c.features
      ensures Feed(c, alpha, tier, e.row)[f] == Fold(alpha, Samples(c, rows + [e], f))
    {
      SamplesMore(c, rows, e, f);
      assert Samples(c, rows + [e], f)[..|rows|] == Samples(c, rows, f);
    }
  }

  lemma SlotRowsStep(rows: seq<Event>, e: Event, k: nat)
    ensures OfHour(rows + [e], k) == OfHour(rows, k) + if e.stamp.hour == k then [e] else []
    ensures OfWeekHour(rows + [e], k)
         == OfWeekHour(rows, k) + if e.stamp.weekday * 24 + e.stamp.hour == k then [e] else []
  {
    assert (rows + [e])[..|rows|] == rows;
  }

  lemma FeedAllRefines(c: Config, b: Baseline, rows: seq<Event>, e: Event)
    requires Shaped(c, b) && Refines(c, b, rows)
    ensures Refines(c, FeedAll(c, b, e), rows + [e])
  {
    hide Folds, Feed, OfHour, OfWeekHour;
    var b' := FeedAll(c, b, e);
    FeedFolds(c, TIER1_ALPHA, b.t1, rows, e);
    forall h | 0 <= h < |b'.t2| ensures Folds(c, TIER2_ALPHA, b'.t2[h], OfHour(rows + [e], h)) {
      SlotRowsStep(rows, e, h);
      FeedFolds(c, TIER2_ALPHA, b.t2[h], OfHour(rows, h), e);
      assert OfHour(rows, h) + [] == OfHour(rows, h);
    }
    forall w | 0 <= w < |b'.t3| ensures Folds(c, TIER3_ALPHA, b'.t3[w], OfWeekHour(rows + [e], w)) {
      SlotRowsStep(rows, e, w);
      FeedFolds(c, TIER3_ALPHA, b.t3[w], OfWeekHour(rows, w), e);
      assert OfWeekHour(rows, w) + [] == OfWeekHour(rows, w);
    }
  }

  lemma InitialRefines(c: Config)
    ensures Refines(c, Initial(c), [])
  {
  }

  /** In every reachable state each slot of each tier refines its rows. */
  lemma {:induction false} RunRefines(c: Config, events: seq<Event>)
    ensures Refines(c, Run(c, events), AcceptedRows(c, events))
  {
    hide Refines, FeedAll, Check;
    if events == [] {
      InitialRefines(c);
    } else {
      var n := |events| - 1;
      var b := Run(c, events[..n]);
      RunRefines(c, events[..n]);
      RunCoherent(c, events[..n]);
      var g := Recover(b.t1, b.guard, events[n].stamp.sec);
      if g.frozen {
        GuardOnly(c, b, g, AcceptedRows(c, events[..n]));
        assert AcceptedRows(c, events) == AcceptedRows(c, events[..n]);
      } else {
        GuardOnly(c, b, g, AcceptedRows(c, events[..n]));
        var fed := FeedAll(c, b.(guard := g), events[n]);
        FeedAllRefines(c, b.(guard := g), AcceptedRows(c, events[..n]), events[n]);
        GuardOnly(c, fed, Check(fed.t1, g, events[n].stamp.sec), AcceptedRows(c, events));
      }
    }
  }

  lemma GuardOnly(c: Config, b: Baseline, g: Guard, rows: seq<Event>)
    requires Shaped(c, b) && Refines(c, b, rows) && g.lastMean.Keys == c.features
    ensures Refines(c, b.(guard := g), rows)
  {
    hide Folds;
  }

  // ----- counts -----

  /** Rows in the first n hourly slots. */
  function HourTotal(rows: seq<Event>, n: nat): nat {
    if n == 0 then 0 else HourTotal(rows, n - 1) + |OfHour(rows, n - 1)|
  }

  function WeekTotal(rows: seq<Event>, n: nat): nat {
    if n == 0 then 0 else WeekTotal(rows, n - 1) + |OfWeekHour(rows, n - 1)|
  }

  /** Rows in the weekly slots of hour h over the first n weekdays. */
  function DayTotal(rows: seq<Event>, h: nat, n: nat): nat {
    if n == 0 then 0 else DayTotal(rows, h, n - 1) + |OfWeekHour(rows, (n - 1) * 24 + h)|
  }

  lemma {:induction false} TotalsStep(rows: seq<Event>, e: Event, n: nat)
    ensures HourTotal(rows + [e], n) == HourTotal(rows, n) + if e.stamp.hour < n then 1 else 0
    ensures WeekTotal(rows + [e], n) == WeekTotal(rows, n) + if e.stamp.weekday * 24 + e.stamp.hour < n then 1 else 0
  {
    hide OfHour, OfWeekHour;
    if n > 0 {
      TotalsStep(rows, e, n - 1);
      SlotRowsStep(rows, e, n - 1);
    }
  }

  lemma {:induction false} DayTotalStep(rows: seq<Event>, e: Event, h: nat, n: nat)
    requires h < 24
    ensures DayTotal(rows + [e], h, n)
      == DayTotal(rows, h, n) + if e.stamp.hour == h && e.stamp.weekday < n then 1 else 0
  {
    hide OfHour, OfWeekHour;
    if n > 0 {
      DayTotalStep(rows, e, h, n - 1);
      SlotRowsStep(rows, e, (n - 1) * 24 + h);
    }
  }

  lemma {:induction false} TotalsOfNone(h: nat, n: nat)
    ensures HourTotal([], n) == 0 && WeekTotal([], n) == 0 && DayTotal([], h, n) == 0
  {
    if n > 0 {
      TotalsOfNone(h, n - 1);
    }
  }

  /** The 24 hourly slots, and the 168 weekly ones, partition the rows; the seven weekly slots of an
      hour partition that hour's rows. */
  lemma {:induction false} RowsPartition(rows: seq<Event>, h: nat)
    requires h < 24
    ensures HourTotal(rows, 24) == |rows|
    ensures WeekTotal(rows, 168) == |rows|
    ensures DayTotal(rows, h, 7) == |OfHour(rows, h)|
  {
    hide HourTotal, WeekTotal, DayTotal;
    if rows == [] {
      TotalsOfNone(h, 7);
      TotalsOfNone(h, TIER2_SLOTS);
      TotalsOfNone(h, TIER3_SLOTS);
    } else {
      var n := |rows| - 1;
      RowsPartition(rows[..n], h);
      assert rows == rows[..n] + [rows[n]];
      TotalsStep(rows[..n], rows[n], TIER2_SLOTS);
      TotalsStep(rows[..n], rows[n], TIER3_SLOTS);
      DayTotalStep(rows[..n], rows[n], h, 7);
      SlotRowsStep(rows[..n], rows[n], h);
    }
  }

  function CountSum(tiers: seq<Tier>, f: string, n: nat): nat
    requires n <= |tiers| && forall k :: 0 <= k < |tiers| ==> f in tiers[k]
  {
    if n == 0 then 0 else CountSum(tiers, f, n - 1) + tiers[n - 1][f].count
  }

  /** The counts of feature f's weekly slots of hour h over the first n weekdays. */
  function DayCountSum(tiers: seq<Tier>, f: string, h: nat, n: nat): nat
    requires |tiers| == TIER3_SLOTS && h < 24 && n <= 7
    requires forall k :: 0 <= k < |tiers| ==> f in tiers[k]
  {
    if n == 0 then 0 else DayCountSum(tiers, f, h, n - 1) + tiers[(n - 1) * 24 + h][f].count
  }

  lemma {:induction false} FoldCount(alpha: real, xs: seq<real>)
    ensures Fold(alpha, xs).count == |xs|
  {
    if xs != [] {
      FoldCount(alpha, xs[..|xs| - 1]);
    }
  }

  lemma FoldsCount(c: Config, alpha: real, tier: Tier, rows: seq<Event>, f: string)
    requires Folds(c, alpha, tier, rows) && f in c.features
    ensures tier[f].count == |rows|
  {
    FoldCount(alpha, Samples(c, rows, f));
  }

  lemma {:induction false} CountSums(c: Config, b: Baseline, rows: seq<Event>, f: string, n: nat)
    requires Shaped(c, b) && Refines(c, b, rows) && f in c.features
    ensures n <= |b.t2| ==> CountSum(b.t2, f, n) == HourTotal(rows, n)
    ensures n <= |b.t3| ==> CountSum(b.t3, f, n) == WeekTotal(rows, n)
  {
    hide Folds, OfHour, OfWeekHour;
    if n > 0 {
      CountSums(c, b, rows, f, n - 1);
      if n <= |b.t2| {
        FoldsCount(c, TIER2_ALPHA, b.t2[n - 1], OfHour(rows, n - 1), f);
      }
      if n <= |b.t3| {
        FoldsCount(c, TIER3_ALPHA, b.t3[n - 1], OfWeekHour(rows, n - 1), f);
      }
    }
  }

  lemma {:induction false} DayCountSums(c: Config, b: Baseline, rows: seq<Event>, f: string, h: nat, n: nat)
    requires Shaped(c, b) && Refines(c, b, rows) && f in c.features && c.useTier3 && h < 24 && n <= 7
    ensures DayCountSum(b.t3, f, h, n) == DayTotal(rows, h, n)
  {
    hide Folds, OfHour, OfWeekHour;
    if n > 0 {
      DayCountSums(c, b, rows, f, h, n - 1);
      FoldsCount(c, TIER3_ALPHA, b.t3[(n - 1) * 24 + h], OfWeekHour(rows, (n - 1) * 24 + h), f);
    }
  }

  /** The counts of a feature add up across the tiers in every reachable state. */
  lemma CountsAddUp(c: Config, events: seq<Event>, f: string)
    requires f in c.features
    ensures Run(c, events).t1[f].count == |AcceptedRows(c, events)|
    ensures c.useTier2 ==> CountSum(Run(c, events).t2, f, TIER2_SLOTS) == Run(c, events).t1[f].count
    ensures c.useTier3 ==> CountSum(Run(c, events).t3, f, TIER3_SLOTS) == Run(c, events).t1[f].count
    ensures c.useTier2 && c.useTier3 ==> forall h :: 0 <= h < TIER2_SLOTS ==>
      Run(c, events).t2[h][f].count == DayCountSum(Run(c, events).t3, f, h, 7)
  {
    hide Run, AcceptedRows, Folds, CountSum, DayCountSum, HourTotal, WeekTotal, DayTotal, OfHour, OfWeekHour;
    var b, rows := Run(c, events), AcceptedRows(c, events);
    RunRefines(c, events);
    FoldsCount(c, TIER1_ALPHA, b.t1, rows, f);
    RowsPartition(rows, 0);
    CountSums(c, b, rows, f, TIER2_SLOTS);
    CountSums(c, b, rows, f, TIER3_SLOTS);
    if c.useTier2 && c.useTier3 {
      forall h | 0 <= h < TIER2_SLOTS ensures b.t2[h][f].count == DayCountSum(b.t3, f, h, 7) {
        RowsPartition(rows, h);
        DayCountSums(c, b, rows, f, h, 7);
        FoldsCount(c, TIER2_ALPHA, b.t2[h], OfHour(rows, h), f);
      }
    }
  }

  /** All features of a slot have seen the same rows, so a tier is ready exactly when its slot's
      rows number min_samples; tier 1 after ten accepted updates. */
  lemma ReadyByRows(c: Config, events: seq<Event>)
    requires c.features != {}
    ensures TierReady(Run(c, events).t1, 10) <==> |AcceptedRows(c, events)| >= 10
    ensures forall h :: 0 <= h < |Run(c, events).t2| ==>
      (TierReady(Run(c, events).t2[h], 20) <==> |OfHour(AcceptedRows(c, events), h)| >= 20)
    ensures forall w :: 0 <= w < |Run(c, events).t3| ==>
      (TierReady(Run(c, events).t3[w], 40) <==> |OfWeekHour(AcceptedRows(c, events), w)| >= 40)
  {
    hide Run, AcceptedRows, Folds, OfHour, OfWeekHour, TierReady;
    var b, rows := Run(c, events), AcceptedRows(c, events);
    RunRefines(c, events);
    TierReadyByRows(c, TIER1_ALPHA, b.t1, rows, TIER1_MIN_SAMPLES);
    forall h | 0 <= h < |b.t2|
      ensures TierReady(b.t2[h], 20) <==> |OfHour(rows, h)| >= 20
    {
      TierReadyByRows(c, TIER2_ALPHA, b.t2[h], OfHour(rows, h), TIER2_MIN_SAMPLES);
    }
    forall w | 0 <= w < |b.t3|
      ensures TierReady(b.t3[w], 40) <==> |OfWeekHour(rows, w)| >= 40
    {
      TierReadyByRows(c, TIER3_ALPHA, b.t3[w], OfWeekHour(rows, w), TIER3_MIN_SAMPLES);
    }
  }

  lemma TierReadyByRows(c: Config, alpha: real, tier: Tier, rows: seq<Event>, m: nat)
    requires Folds(c, alpha, tier, rows) && c.features != {}
    ensures TierReady(tier, m) <==> |rows| >= m
  {
    var f :| f in c.features;
    FoldsCount(c, alpha, tier, rows, f);
    forall g | g in c.features ensures tier[g].count == |rows| {
      FoldsCount(c, alpha, tier, rows, g);
    }
  }
}
