// AdaptiveThreshold: the detection threshold driven by the durations of recent events.
module AdaptiveThreshold {
  import opened RealMath
  import opened Options
  import opened FiniteSets

  const THETA_INIT := 4.0
  const THETA_MAX := 10.0
  const THETA_STEP := 0.25
  const WINDOW := 60
  const MIN_EVENTS := 10
  const FP_DURATION := 10.0
  const TP_DURATION := 30.0
  const EVAL_INTERVAL := 300.0
  const FP_RATE_TRIGGER := 0.30
  const TP_RATE_TRIGGER := 0.50

  datatype Adjustment = Adjustment(at: real, before: real, after: real)

  /** The mutable fields of the controller. */
  datatype Controller = Controller(
    theta: real,
    events: seq<real>,
    openEvent: Option<real>,
    lastEval: Option<real>,
    adjustments: seq<Adjustment>)

  const INITIAL := Controller(THETA_INIT, [], None, None, [])

  /** events[-WINDOW:] */
  function Recent(events: seq<real>): seq<real> {
    if |events| <= WINDOW then events else events[|events| - WINDOW..]
  }

  function CountShort(ds: seq<real>): nat {
    if ds == [] then 0 else CountShort(ds[..|ds| - 1]) + if ds[|ds| - 1] < FP_DURATION then 1 else 0
  }

  function CountLong(ds: seq<real>): nat {
    if ds == [] then 0 else CountLong(ds[..|ds| - 1]) + if ds[|ds| - 1] >= TP_DURATION then 1 else 0
  }

  /** The threshold after an evaluation that saw fp false and tp true positives among n events. */
  function NextTheta(theta: real, fp: nat, tp: nat, n: nat): real
    requires n > 0
  {
    var fpRate, tpRate := fp as real / n as real, tp as real / n as real;
    if fpRate > FP_RATE_TRIGGER then
      Min(THETA_MAX, theta + THETA_STEP * (if fpRate > 0.50 then 2.0 else 1.0))
    else if fpRate < 0.10 && tpRate > TP_RATE_TRIGGER + 0.2 && theta > THETA_INIT then
      Max(THETA_INIT, theta - THETA_STEP * 0.5)
    else theta
  }

  function OnDetect(c: Controller, t: real): Controller {
    if c.openEvent.None? then c.(openEvent := Some(t)) else c
  }

  function OnClear(c: Controller, t: real): Controller {
    if c.openEvent.Some? then c.(events := c.events + [t - c.openEvent.value], openEvent := None) else c
  }

  function MaybeAdjust(c: Controller, now: real): Controller {
    if c.lastEval.None? then c.(lastEval := Some(now))
    else if now - c.lastEval.value < EVAL_INTERVAL then c
    else
      var window := Recent(c.events);
      if |window| < MIN_EVENTS then c.(lastEval := Some(now))
      else
        var theta := NextTheta(c.theta, CountShort(window), CountLong(window), |window|);
        c.(theta := theta,
           lastEval := Some(now),
           adjustments := if theta != c.theta then c.adjustments + [Adjustment(now, c.theta, theta)] else c.adjustments)
  }

  class AdaptiveThreshold {
    var theta: real
    var events: seq<real>
    var openEvent: Option<real>
    var lastEval: Option<real>
    var adjustments: seq<Adjustment>

    constructor ()
      ensures State() == INITIAL
    {
      theta, events, openEvent, lastEval, adjustments := THETA_INIT, [], None, None, [];
    }

    function State(): Controller
      reads this
    {
      Controller(theta, events, openEvent, lastEval, adjustments)
    }

    method Detect(t: real)
      modifies this
      ensures State() == OnDetect(old(State()), t)
    {
      if openEvent.None? {
        openEvent := Some(t);
      }
    }

    method Clear(t: real)
      modifies this
      ensures State() == OnClear(old(State()), t)
    {
      if openEvent.Some? {
        var duration := t - openEvent.value;
        events := events + [duration];
        openEvent := None;
      }
    }

    method Evaluate(now: real) returns (r: real)
      modifies this
      ensures State() == MaybeAdjust(old(State()), now)
      ensures r == theta
    {
      if lastEval.None? {
        lastEval := Some(now);
        return theta;
      }
      if now - lastEval.value < EVAL_INTERVAL {
        return theta;
      }
      var window := Recent(events);
      if |window| < MIN_EVENTS {
        lastEval := Some(now);
        return theta;
      }
      var fp, tp := 0, 0;
      for i := 0 to |window|
        invariant fp == CountShort(window[..i]) && tp == CountLong(window[..i])
      {
        assert window[..i + 1][..i] == window[..i];
        if window[i] < FP_DURATION {
          fp := fp + 1;
        }
        if window[i] >= TP_DURATION {
          tp := tp + 1;
        }
      }
      assert window[..|window|] == window;
      var oldTheta := theta;
      theta := NextTheta(theta, fp, tp, |window|);
      lastEval := Some(now);
      if theta != oldTheta {
        adjustments := adjustments + [Adjustment(now, oldTheta, theta)];
      }
      return theta;
    }
  }

  // ----- runs -----

  datatype Call = Detected(t: real) | Cleared(t: real) | Evaluated(t: real)

  function Apply(c: Controller, call: Call): Controller {
    match call
    case Detected(t) => OnDetect(c, t)
    case Cleared(t) => OnClear(c, t)
    case Evaluated(t) => MaybeAdjust(c, t)
  }

  function Run(calls: seq<Call>): Controller {
    if calls == [] then INITIAL else Apply(Run(calls[..|calls| - 1]), calls[|calls| - 1])
  }

  /** theta is a whole number of eighths between 4 and 10. */
  predicate OnGrid(theta: real) {
    (8.0 * theta).Floor as real == 8.0 * theta && 32.0 <= 8.0 * theta <= 80.0
  }

  /** Each adjustment starts where the previous one ended, the first at 4 and the last at theta. */
  predicate Chained(adjs: seq<Adjustment>, theta: real) {
    && (adjs == [] ==> theta == THETA_INIT)
    && (adjs != [] ==> adjs[0].before == THETA_INIT && adjs[|adjs| - 1].after == theta)
    && (forall i :: 0 <= i < |adjs| - 1 ==> adjs[i].after == adjs[i + 1].before)
    && (forall i :: 0 <= i < |adjs| ==> adjs[i].before != adjs[i].after)
  }

  predicate Spaced(adjs: seq<Adjustment>) {
    forall i, j :: 0 <= i < j < |adjs| ==> adjs[j].at - adjs[i].at >= EVAL_INTERVAL
  }

  lemma GridStep(theta: real, k: int, d: int)
    requires 8.0 * theta == k as real && 32 <= k <= 80
    ensures 32 <= k + d <= 80 ==> OnGrid(theta + d as real / 8.0)
    ensures OnGrid(theta) && OnGrid(THETA_MAX) && OnGrid(THETA_INIT)
  {
    assert 8.0 * (theta + d as real / 8.0) == (k + d) as real;
  }

  lemma NextThetaOnGrid(theta: real, fp: nat, tp: nat, n: nat)
    requires OnGrid(theta) && n > 0
    ensures OnGrid(NextTheta(theta, fp, tp, n))
  {
    var k := (8.0 * theta).Floor;
    GridStep(theta, k, 2);
    GridStep(theta, k, 4);
    GridStep(theta, k, -1);
  }

  ghost predicate Sound(c: Controller) {
    && OnGrid(c.theta)
    && Chained(c.adjustments, c.theta)
    && Spaced(c.adjustments)
    && (c.adjustments != [] ==> c.lastEval.Some?)
    && forall i :: 0 <= i < |c.adjustments| ==> c.adjustments[i].at <= c.lastEval.value
  }

  lemma MaybeAdjustSound(c: Controller, now: real)
    requires Sound(c)
    ensures Sound(MaybeAdjust(c, now))
  {
    var window := Recent(c.events);
    if |window| >= MIN_EVENTS {
      NextThetaOnGrid(c.theta, CountShort(window), CountLong(window), |window|);
    }
    hide OnGrid, NextTheta;
  }

  /** Over every sequence of calls, with clocks that may even run backwards: the threshold is a
      whole number of eighths in [4, 10], its recorded adjustments are a chain from 4 to the current
      value, and two of them are never less than 300 seconds apart. */
  lemma {:induction false} RunSound(calls: seq<Call>)
    ensures var c := Run(calls);
      OnGrid(c.theta) && Chained(c.adjustments, c.theta) && Spaced(c.adjustments)
    ensures Sound(Run(calls))
  {
    if calls == [] {
      assert (8.0 * THETA_INIT) == 32.0;
    } else {
      hide OnGrid, Chained, Spaced, MaybeAdjust;
      RunSound(calls[..|calls| - 1]);
      var c, call := Run(calls[..|calls| - 1]), calls[|calls| - 1];
      if call.Evaluated? {
        MaybeAdjustSound(c, call.t);
      }
    }
  }

  lemma RateAbove(k: nat, n: nat, rate: real)
    requires n > 0
    ensures k as real / n as real > rate <==> k as real > rate * n as real
    ensures k as real / n as real < rate <==> (k as real) < rate * n as real
  {
    var q := k as real / n as real;
    assert q * n as real == k as real;
  }

  /** Which way an evaluation moves the threshold, in whole counts. */
  lemma Direction(theta: real, fp: nat, tp: nat, n: nat)
    requires n > 0 && THETA_INIT <= theta <= THETA_MAX
    ensures NextTheta(theta, fp, tp, n) > theta <==> 10 * fp > 3 * n && theta < THETA_MAX
    ensures NextTheta(theta, fp, tp, n) < theta <==> 10 * fp < n && 10 * tp > 7 * n && theta > THETA_INIT
    ensures 2 * fp > n ==> NextTheta(theta, fp, tp, n) == Min(THETA_MAX, theta + 0.5)
  {
    RateAbove(fp, n, FP_RATE_TRIGGER);
    RateAbove(fp, n, 0.50);
    RateAbove(fp, n, 0.10);
    RateAbove(tp, n, TP_RATE_TRIGGER + 0.2);
  }

  // ----- what the calls mean -----

  /** Call j opened the event that is open after the calls: a detection with no clear since, and none
      before it but behind a clear. */
  predicate OpenedBy(calls: seq<Call>, j: nat) {
    && j < |calls| && calls[j].Detected?
    && (forall i :: j < i < |calls| ==> !calls[i].Cleared?)
    && (forall i :: 0 <= i < j && calls[i].Detected? ==> ClearedBetween(calls, i, j))
  }

  predicate ClearedBetween(calls: seq<Call>, i: nat, j: nat)
    requires j < |calls|
  {
    exists k :: i < k < j && calls[k].Cleared?
  }

  /** No detection waits for its clear. */
  predicate AllClear(calls: seq<Call>) {
    forall i :: 0 <= i < |calls| && calls[i].Detected? ==> exists k :: i < k < |calls| && calls[k].Cleared?
  }

  lemma OpenedLater(calls: seq<Call>, j: nat, call: Call)
    requires OpenedBy(calls, j) && !call.Cleared?
    ensures OpenedBy(calls + [call], j)
  {
    var more := calls + [call];
    forall i | 0 <= i < j && more[i].Detected? ensures ClearedBetween(more, i, j) {
      assert ClearedBetween(calls, i, j);
      var k :| i < k < j && calls[k].Cleared?;
      assert more[k].Cleared?;
    }
  }

  lemma OpenedNow(calls: seq<Call>, call: Call)
    requires AllClear(calls) && call.Detected?
    ensures OpenedBy(calls + [call], |calls|)
  {
    var more := calls + [call];
    forall i | 0 <= i < |calls| && more[i].Detected? ensures ClearedBetween(more, i, |calls|) {
      assert calls[i].Detected?;
      var k :| i < k < |calls| && calls[k].Cleared?;
      assert more[k].Cleared?;
    }
  }

  lemma ClearedNow(calls: seq<Call>, call: Call)
    requires call.Cleared? || (AllClear(calls) && !call.Detected?)
    ensures AllClear(calls + [call])
  {
    var more := calls + [call];
    forall i | 0 <= i < |more| && more[i].Detected? ensures exists k :: i < k < |more| && more[k].Cleared? {
      if call.Cleared? {
        assert more[|calls|].Cleared?;
      } else {
        assert calls[i].Detected?;
        var k :| i < k < |calls| && calls[k].Cleared?;
        assert more[k].Cleared?;
      }
    }
  }

  /** The open event is that of the earliest detection since the last clear. */
  lemma {:induction false} OpenEventIs(calls: seq<Call>) returns (j: nat)
    ensures Run(calls).openEvent.Some? ==> OpenedBy(calls, j) && Run(calls).openEvent == Some(calls[j].t)
    ensures Run(calls).openEvent.None? ==> AllClear(calls)
  {
    j := 0;
    if calls != [] {
      hide OpenedBy, AllClear, MaybeAdjust;
      var n := |calls| - 1;
      var before, call := calls[..n], calls[n];
      j := OpenEventIs(before);
      assert calls == before + [call];
      EvaluationKeeps(Run(before), call.t);
      if call.Cleared? || (call.Evaluated? && Run(before).openEvent.None?) {
        ClearedNow(before, call);
      } else if Run(before).openEvent.None? {
        OpenedNow(before, call);
        j := n;
      } else {
        OpenedLater(before, j, call);
        OpenedBelow(before, j);
      }
    } else {
      assert AllClear(calls);
    }
  }

  lemma OpenedBelow(calls: seq<Call>, j: nat)
    ensures OpenedBy(calls, j) ==> j < |calls|
  {
  }

  lemma EvaluationKeeps(c: Controller, now: real)
    ensures MaybeAdjust(c, now).openEvent == c.openEvent && MaybeAdjust(c, now).events == c.events
  {
  }

  /** A clear records the time since the detection that opened the event, and nothing when all is clear;
      no other call records anything. */
  lemma RecordedDuration(calls: seq<Call>, call: Call) returns (j: nat)
    ensures var c, c' := Run(calls), Run(calls + [call]);
      if call.Cleared? && !AllClear(calls) then
        OpenedBy(calls, j) && c'.events == c.events + [call.t - calls[j].t] && c'.openEvent.None?
      else c'.events == c.events
  {
    j := OpenEventIs(calls);
    assert (calls + [call])[..|calls|] == calls;
    hide MaybeAdjust;
    EvaluationKeeps(Run(calls), call.t);
    if Run(calls).openEvent.Some? {
      NotAllClear(calls, j);
    }
  }

  lemma NotAllClear(calls: seq<Call>, j: nat)
    requires OpenedBy(calls, j)
    ensures !AllClear(calls)
  {
    assert calls[j].Detected?;
  }

  /** The positions of the last sixty durations that are short, and of those that are long. */
  function ShortAt(events: seq<real>): set<nat> {
    set i: nat | |events| - 60 <= i < |events| && events[i] < 10.0
  }

  function LongAt(events: seq<real>): set<nat> {
    set i: nat | |events| - 60 <= i < |events| && events[i] >= 30.0
  }

  function Below(ds: seq<real>, v: real): set<nat> {
    set i: nat | i < |ds| && ds[i] < v
  }

  function AtLeast(ds: seq<real>, v: real): set<nat> {
    set i: nat | i < |ds| && ds[i] >= v
  }

  lemma {:induction false} ShortCount(ds: seq<real>)
    ensures CountShort(ds) == |Below(ds, 10.0)|
  {
    if ds == [] {
      assert Below(ds, 10.0) == {};
    } else {
      var n := |ds| - 1;
      ShortCount(ds[..n]);
      assert Below(ds, 10.0) == Below(ds[..n], 10.0) + if ds[n] < 10.0 then {n} else {};
    }
  }

  lemma {:induction false} LongCount(ds: seq<real>)
    ensures CountLong(ds) == |AtLeast(ds, 30.0)|
  {
    if ds == [] {
      assert AtLeast(ds, 30.0) == {};
    } else {
      var n := |ds| - 1;
      LongCount(ds[..n]);
      assert AtLeast(ds, 30.0) == AtLeast(ds[..n], 30.0) + if ds[n] >= 30.0 then {n} else {};
    }
  }

  lemma Shifted(a: set<nat>, b: set<nat>, k: nat)
    requires forall i :: i in a <==> k <= i && i - k in b
    ensures |a| == |b|
  {
    var f := (i: nat) => i + k;
    assert a == Image(b, f);
    ImageSizeExact(b, f);
  }

  lemma RecentCounts(events: seq<real>)
    ensures |Recent(events)| == if |events| < 60 then |events| else 60
    ensures CountShort(Recent(events)) == |ShortAt(events)|
    ensures CountLong(Recent(events)) == |LongAt(events)|
  {
    var k := if |events| <= 60 then 0 else |events| - 60;
    var ds := Recent(events);
    assert ds == events[k..];
    ShortCount(ds);
    LongCount(ds);
    Shifted(ShortAt(events), Below(ds, 10.0), k);
    Shifted(LongAt(events), AtLeast(ds, 30.0), k);
  }

  /** The new threshold in whole counts: up by 0.25 when more than 30 percent are short, by 0.5 when more
      than half are, to at most 10; down by 0.125, to at least 4, when fewer than 10 percent are short and
      more than 70 percent long. */
  lemma NextThetaIs(theta: real, fp: nat, tp: nat, n: nat)
    requires n > 0
    ensures NextTheta(theta, fp, tp, n) ==
      if 2 * fp > n then Min(10.0, theta + 0.5)
      else if 10 * fp > 3 * n then Min(10.0, theta + 0.25)
      else if 10 * fp < n && 10 * tp > 7 * n && theta > 4.0 then Max(4.0, theta - 0.125)
      else theta
  {
    RateAbove(fp, n, FP_RATE_TRIGGER);
    RateAbove(fp, n, 0.50);
    RateAbove(fp, n, 0.10);
    RateAbove(tp, n, TP_RATE_TRIGGER + 0.2);
    hide Min, Max;
  }

  /** An evaluation of any controller: the first one only starts the clock; within 300 s of the last one
      nothing happens; with fewer than ten durations only the clock restarts. Otherwise the last sixty
      durations decide, under 10 s counting as short and from 30 s on as long, and a changed threshold is
      recorded. */
  lemma EvaluationExactly(c: Controller, now: real)
    ensures var c' := MaybeAdjust(c, now);
      if c.lastEval.Some? && now - c.lastEval.value < 300.0 then c' == c
      else if c.lastEval.None? || |c.events| < 10 then c' == c.(lastEval := Some(now))
      else
        var fp, tp, n := |ShortAt(c.events)|, |LongAt(c.events)|, if |c.events| < 60 then |c.events| else 60;
        && c'.lastEval == Some(now) && c'.events == c.events && c'.openEvent == c.openEvent
        && c'.theta == (
          if 2 * fp > n then Min(10.0, c.theta + 0.5)
          else if 10 * fp > 3 * n then Min(10.0, c.theta + 0.25)
          else if 10 * fp < n && 10 * tp > 7 * n && c.theta > 4.0 then Max(4.0, c.theta - 0.125)
          else c.theta)
        && c'.adjustments
           == c.adjustments + if c'.theta == c.theta then [] else [Adjustment(now, c.theta, c'.theta)]
  {
    hide NextTheta, CountShort, CountLong, ShortAt, LongAt, Recent, Min, Max;
    RecentCounts(c.events);
    if |c.events| >= 10 {
      var n := if |c.events| < 60 then |c.events| else 60;
      NextThetaIs(c.theta, |ShortAt(c.events)|, |LongAt(c.events)|, n);
    }
  }
}
