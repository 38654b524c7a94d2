// WindowAggregator: packets accumulated per (destination, second).
module Windows {
  import opened RealMath
  import opened Options
  import opened FiniteSets
  import opened Capped

  datatype Packet = Packet(
    src: string, dst: string, srcPort: int, dstPort: int,
    proto: int, length: int, ttl: int, fragment: bool,
    syn: bool, ack: bool, rst: bool, fin: bool, echo: bool,
    isAttack: bool, attackLabel: string)

  /** A 5-tuple. */
  datatype Flow = Flow(src: string, srcPort: int, dst: string, dstPort: int, proto: int)

  /** The engine's flow key once the destination is fixed. */
  datatype EngineFlow = EngineFlow(src: string, proto: int)

  datatype Key = Key(dst: string, sec: int)

  /** The plain counters of a window. Packet sizes are summed once; the extractor keeps the same sum under
      two names, and the two SYN counts under two names each. */
  datatype Counts = Counts(
    packets: nat, bytes: int, small: nat, fragments: nat, ttlSum: int,
    tcp: nat, udp: nat, icmp: nat, other: nat, icmpEcho: nat,
    syn: nat, synAck: nat, ack: nat, rst: nat, fin: nat)

  datatype Window = Window(
    counts: Counts,
    srcIps: map<string, nat>, srcPorts: map<int, nat>, dstPorts: map<int, nat>,
    flows: set<Flow>, flowsEng: set<EngineFlow>, attackFlows: set<Flow>, attackTypes: map<string, nat>,
    newSrc: nat)

  const NOTHING := Counts(0, 0, 0, 0, 0, 0, 0, 0, 0, 0, 0, 0, 0, 0, 0)
  const EMPTY := Window(NOTHING, map[], map[], map[], {}, {}, {}, map[], 0)

  datatype Timed = Timed(ts: real, p: Packet)

  datatype Aggregate = Aggregate(t0: Option<real>, windows: map<Key, Window>, seen: map<string, set<string>>)

  function FlowOf(p: Packet): Flow {
    Flow(p.src, p.srcPort, p.dst, p.dstPort, p.proto)
  }

  function EngineFlowOf(p: Packet): EngineFlow {
    EngineFlow(p.src, p.proto)
  }

  /** int(ts - t0): truncation toward zero. */
  function SecondOf(t0: real, ts: real): int {
    Trunc(ts - t0)
  }

  function One(b: bool): nat {
    if b then 1 else 0
  }

  /** What a packet does to the plain counters. */
  function Count(c: Counts, p: Packet): Counts {
    var tcp := p.proto == 6;
    Counts(
      c.packets + 1,
      c.bytes + p.length,
      c.small + One(p.length < 100),
      c.fragments + One(p.fragment),
      c.ttlSum + p.ttl,
      c.tcp + One(tcp),
      c.udp + One(p.proto == 17),
      c.icmp + One(p.proto == 1),
      c.other + One(p.proto != 6 && p.proto != 17 && p.proto != 1),
      c.icmpEcho + One(p.proto == 1 && p.echo),
      c.syn + One(tcp && p.syn && !p.ack),
      c.synAck + One(tcp && p.syn && p.ack),
      c.ack + One(tcp && p.ack),
      c.rst + One(tcp && p.rst),
      c.fin + One(tcp && p.fin))
  }

  /** Attack labels are counted without a cap. */
  function CountLabel(types: map<string, nat>, p: Packet): map<string, nat> {
    if p.isAttack && p.attackLabel != "" then Increment(None, types, p.attackLabel) else types
  }

  /** What a packet does to its window, the new-source count aside. */
  function Tally(cap: Cap, w: Window, p: Packet): Window {
    w.(counts := Count(w.counts, p),
       srcIps := Increment(cap, w.srcIps, p.src),
       srcPorts := Increment(cap, w.srcPorts, p.srcPort),
       dstPorts := Increment(cap, w.dstPorts, p.dstPort),
       flows := AddTo(cap, w.flows, FlowOf(p)),
       flowsEng := AddTo(cap, w.flowsEng, EngineFlowOf(p)),
       attackFlows := if p.isAttack then AddTo(cap, w.attackFlows, FlowOf(p)) else w.attackFlows,
       attackTypes := CountLabel(w.attackTypes, p))
  }

  function SeenAt(seen: map<string, set<string>>, dst: string): set<string> {
    if dst in seen then seen[dst] else {}
  }

  function WindowAt(windows: map<Key, Window>, k: Key): Window {
    if k in windows then windows[k] else EMPTY
  }

  function Add(cap: Cap, a: Aggregate, t: Timed): Aggregate {
    var t0 := if a.t0.None? then t.ts else a.t0.value;
    var key := Key(t.p.dst, SecondOf(t0, t.ts));
    var seen := SeenAt(a.seen, t.p.dst);
    var w := Tally(cap, WindowAt(a.windows, key), t.p);
    Aggregate(
      Some(t0),
      a.windows[key := if t.p.src in seen then w else w.(newSrc := w.newSrc + 1)],
      a.seen[t.p.dst := seen + {t.p.src}])
  }

  class WindowAggregator {
    const cap: Cap
    var t0: Option<real>
    var windows: map<Key, Window>
    var seenSrcIps: map<string, set<string>>

    constructor (cap: Cap, t0: Option<real>)
      ensures this.cap == cap && State() == Aggregate(t0, map[], map[])
    {
      this.cap, this.t0 := cap, t0;
      windows, seenSrcIps := map[], map[];
    }

    function State(): Aggregate
      reads this
    {
      Aggregate(t0, windows, seenSrcIps)
    }

    /** The counters of one window: sizes first, then protocol and flags. */
    method CountPacket(before: Counts, p: Packet) returns (c: Counts)
      ensures c == Count(before, p)
    {
      hide One;
      c := CountSizes(before, p);
      c := CountProtocol(c, p);
    }

    method CountSizes(before: Counts, p: Packet) returns (c: Counts)
      ensures c == before.(
        packets := before.packets + 1, bytes := before.bytes + p.length, small := before.small + One(p.length < 100),
        fragments := before.fragments + One(p.fragment), ttlSum := before.ttlSum + p.ttl)
    {
      c := before.(packets := before.packets + 1, bytes := before.bytes + p.length);
      if p.length < 100 {
        c := c.(small := c.small + 1);
      }
      if p.fragment {
        c := c.(fragments := c.fragments + 1);
      }
      if p.ttl != 0 {
        c := c.(ttlSum := c.ttlSum + p.ttl);
      }
    }

    method CountProtocol(before: Counts, p: Packet) returns (c: Counts)
      ensures var tcp := p.proto == 6;
        c == before.(
          tcp := before.tcp + One(tcp), udp := before.udp + One(p.proto == 17),
          icmp := before.icmp + One(p.proto == 1),
          other := before.other + One(p.proto != 6 && p.proto != 17 && p.proto != 1),
          icmpEcho := before.icmpEcho + One(p.proto == 1 && p.echo),
          syn := before.syn + One(tcp && p.syn && !p.ack), synAck := before.synAck + One(tcp && p.syn && p.ack),
          ack := before.ack + One(tcp && p.ack), rst := before.rst + One(tcp && p.rst),
          fin := before.fin + One(tcp && p.fin))
    {
      if p.proto == 6 {
        c := CountFlags(before.(tcp := before.tcp + 1), p);
      } else if p.proto == 17 {
        c := before.(udp := before.udp + 1);
      } else if p.proto == 1 {
        c := before.(icmp := before.icmp + 1);
        if p.echo {
          c := c.(icmpEcho := c.icmpEcho + 1);
        }
      } else {
        c := before.(other := before.other + 1);
      }
    }

    method CountFlags(before: Counts, p: Packet) returns (c: Counts)
      ensures c == before.(
        syn := before.syn + One(p.syn && !p.ack), synAck := before.synAck + One(p.syn && p.ack),
        ack := before.ack + One(p.ack), rst := before.rst + One(p.rst), fin := before.fin + One(p.fin))
    {
      c := before;
      if p.syn && !p.ack {
        c := c.(syn := c.syn + 1);
      } else if p.syn && p.ack {
        c := c.(synAck := c.synAck + 1);
      }
      if p.ack {
        c := c.(ack := c.ack + 1);
      }
      if p.rst {
        c := c.(rst := c.rst + 1);
      }
      if p.fin {
        c := c.(fin := c.fin + 1);
      }
    }

    /** The counters and containers of one window. */
    method TallyPacket(before: Window, p: Packet) returns (w: Window)
      ensures w == Tally(cap, before, p)
    {
      hide Count, Increment, AddTo;
      var counts := CountPacket(before.counts, p);
      w := before.(counts := counts,
                   srcIps := Increment(cap, before.srcIps, p.src),
                   srcPorts := Increment(cap, before.srcPorts, p.srcPort),
                   dstPorts := Increment(cap, before.dstPorts, p.dstPort));
      w := w.(flows := AddTo(cap, w.flows, FlowOf(p)),
              flowsEng := AddTo(cap, w.flowsEng, EngineFlowOf(p)));
      if p.isAttack {
        w := w.(attackFlows := AddTo(cap, w.attackFlows, FlowOf(p)));
        if p.attackLabel != "" {
          w := w.(attackTypes := Increment(None, w.attackTypes, p.attackLabel));
        }
      }
    }

    method AddPacket(ts: real, p: Packet)
      modifies this
      ensures State() == Add(cap, old(State()), Timed(ts, p))
    {
      hide Tally;
      if t0.None? {
        t0 := Some(ts);
      }
      var secIdx := SecondOf(t0.value, ts);
      var key := Key(p.dst, secIdx);
      if key !in windows {
        windows := windows[key := EMPTY];
      }
      var w := TallyPacket(windows[key], p);
      var newSeen := p.src !in SeenAt(seenSrcIps, p.dst);
      seenSrcIps := seenSrcIps[p.dst := SeenAt(seenSrcIps, p.dst) + {p.src}];
      if newSeen {
        w := w.(newSrc := w.newSrc + 1);
      }
      windows := windows[key := w];
    }
  }

  // ----- runs -----

  function Run(cap: Cap, t0: Option<real>, trace: seq<Timed>): Aggregate {
    if trace == [] then Aggregate(t0, map[], map[])
    else Add(cap, Run(cap, t0, trace[..|trace| - 1]), trace[|trace| - 1])
  }

  /** The time origin: the given one, or the first packet's. */
  function Origin(t0: Option<real>, trace: seq<Timed>): real {
    if t0.Some? then t0.value else if trace == [] then 0.0 else trace[0].ts
  }

  function KeyOf(origin: real, t: Timed): Key {
    Key(t.p.dst, SecondOf(origin, t.ts))
  }

  /** The packets that fall into a window, in order. */
  function PacketsIn(origin: real, trace: seq<Timed>, k: Key): seq<Packet> {
    if trace == [] then []
    else
      PacketsIn(origin, trace[..|trace| - 1], k)
      + if KeyOf(origin, trace[|trace| - 1]) == k then [trace[|trace| - 1].p] else []
  }

  function Tallied(cap: Cap, ps: seq<Packet>): Window {
    if ps == [] then EMPTY else Tally(cap, Tallied(cap, ps[..|ps| - 1]), ps[|ps| - 1])
  }

  lemma {:induction false} OriginKept(cap: Cap, t0: Option<real>, trace: seq<Timed>)
    requires t0.Some? || trace != []
    ensures Run(cap, t0, trace).t0 == Some(Origin(t0, trace))
  {
    if trace != [] && (t0.Some? || |trace| > 1) {
      OriginKept(cap, t0, trace[..|trace| - 1]);
    }
  }

  /** The window key of the next packet. */
  function NextKey(a: Aggregate, t: Timed): Key {
    KeyOf(if a.t0.None? then t.ts else a.t0.value, t)
  }

  /** The window that packet t leaves behind. */
  function NextWindow(cap: Cap, a: Aggregate, t: Timed): Window {
    var w := Tally(cap, WindowAt(a.windows, NextKey(a, t)), t.p);
    if t.p.src in SeenAt(a.seen, t.p.dst) then w else w.(newSrc := w.newSrc + 1)
  }

  lemma AddParts(cap: Cap, a: Aggregate, t: Timed)
    ensures Add(cap, a, t).windows == a.windows[NextKey(a, t) := NextWindow(cap, a, t)]
    ensures Add(cap, a, t).seen == a.seen[t.p.dst := SeenAt(a.seen, t.p.dst) + {t.p.src}]
  {
    hide Tally, SecondOf;
  }

  lemma NextWindowIs(cap: Cap, a: Aggregate, t: Timed)
    ensures var w, w' := WindowAt(a.windows, NextKey(a, t)), NextWindow(cap, a, t);
      && w'.(newSrc := 0) == Tally(cap, w.(newSrc := 0), t.p)
      && w'.counts.packets == w.counts.packets + 1
      && w'.newSrc == w.newSrc + One(t.p.src !in SeenAt(a.seen, t.p.dst))
  {
    hide NextKey;
    TallyForgetsNew(cap, WindowAt(a.windows, NextKey(a, t)), t.p);
    hide Tally;
  }

  /** The window at k, new sources aside, before and after. */
  function Body(a: Aggregate, k: Key): Window {
    WindowAt(a.windows, k).(newSrc := 0)
  }

  lemma AddAt(cap: Cap, a: Aggregate, t: Timed, k: Key)
    ensures k in Add(cap, a, t).windows <==> k in a.windows || k == NextKey(a, t)
    ensures Body(Add(cap, a, t), k) == if k == NextKey(a, t) then Tally(cap, Body(a, k), t.p) else Body(a, k)
  {
    AddParts(cap, a, t);
    NextWindowIs(cap, a, t);
    hide Add, NextKey, NextWindow, Tally;
  }

  /** Every window is the tally of exactly its own packets: windows never mix, and one exists exactly
      where a packet fell. */
  lemma {:induction false} WindowsSeparate(cap: Cap, t0: Option<real>, trace: seq<Timed>, k: Key)
    requires t0.Some? || trace != []
    ensures HoldsPackets(cap, Run(cap, t0, trace), PacketsIn(Origin(t0, trace), trace, k), k)
  {
    hide HoldsPackets, KeyOf, Add;
    if trace == [] || (t0.None? && |trace| == 1) {
      NoPackets(cap, Aggregate(t0, map[], map[]), k);
    }
    if trace != [] {
      var n := |trace| - 1;
      assert trace == trace[..n] + [trace[n]];
      if t0.Some? || n > 0 {
        WindowsSeparate(cap, t0, trace[..n], k);
        OriginKept(cap, t0, trace[..n]);
      }
      HoldsOneMore(cap, Run(cap, t0, trace[..n]), Origin(t0, trace), trace[..n], trace[n], k);
    }
  }

  /** The window at k is the tally of these packets, and is there exactly when there are any. */
  predicate HoldsPackets(cap: Cap, a: Aggregate, ps: seq<Packet>, k: Key) {
    (k in a.windows <==> ps != []) && Body(a, k) == Tallied(cap, ps)
  }

  lemma NoPackets(cap: Cap, a: Aggregate, k: Key)
    requires k !in a.windows
    ensures HoldsPackets(cap, a, [], k)
  {
    EmptyBody(a, k);
  }

  lemma HoldsOneMore(cap: Cap, a: Aggregate, origin: real, trace: seq<Timed>, t: Timed, k: Key)
    requires HoldsPackets(cap, a, PacketsIn(origin, trace, k), k) && NextKey(a, t) == KeyOf(origin, t)
    ensures HoldsPackets(cap, Add(cap, a, t), PacketsIn(origin, trace + [t], k), k)
  {
    AddAt(cap, a, t, k);
    PacketsStep(cap, origin, trace, t, k);
    hide Add, Body, Tallied, Tally, PacketsIn, KeyOf, NextKey;
  }

  lemma PacketsStep(cap: Cap, origin: real, trace: seq<Timed>, t: Timed, k: Key)
    ensures var ps, ps' := PacketsIn(origin, trace, k), PacketsIn(origin, trace + [t], k);
      && (k == KeyOf(origin, t) ==> ps' != [] && Tallied(cap, ps') == Tally(cap, Tallied(cap, ps), t.p))
      && (k != KeyOf(origin, t) ==> ps' == ps)
  {
    hide Tally, KeyOf;
    var ps := PacketsIn(origin, trace, k);
    assert (trace + [t])[..|trace|] == trace;
    assert (ps + [t.p])[..|ps|] == ps && ps + [] == ps;
  }

  lemma EmptyBody(a: Aggregate, k: Key)
    requires k !in a.windows
    ensures Body(a, k) == EMPTY
  {
  }

  lemma TallyForgetsNew(cap: Cap, w: Window, p: Packet)
    ensures Tally(cap, w, p).(newSrc := 0) == Tally(cap, w.(newSrc := 0), p)
    ensures Tally(cap, w, p).newSrc == w.newSrc
    ensures Tally(cap, w, p).counts.packets == w.counts.packets + 1
  {
    hide Increment, AddTo, CountLabel, One;
  }

  // ----- one window's counts -----

  function Sources(ps: seq<Packet>): seq<string> {
    seq(|ps|, i requires 0 <= i < |ps| => ps[i].src)
  }

  function Flows(ps: seq<Packet>): seq<Flow> {
    seq(|ps|, i requires 0 <= i < |ps| => FlowOf(ps[i]))
  }

  function EngineFlows(ps: seq<Packet>): seq<EngineFlow> {
    seq(|ps|, i requires 0 <= i < |ps| => EngineFlowOf(ps[i]))
  }

  function SourcePorts(ps: seq<Packet>): seq<int> {
    seq(|ps|, i requires 0 <= i < |ps| => ps[i].srcPort)
  }

  function DestinationPorts(ps: seq<Packet>): seq<int> {
    seq(|ps|, i requires 0 <= i < |ps| => ps[i].dstPort)
  }

  function CountIf(ps: seq<Packet>, f: Packet -> bool): nat {
    if ps == [] then 0 else CountIf(ps[..|ps| - 1], f) + One(f(ps[|ps| - 1]))
  }

  function LengthSum(ps: seq<Packet>): int {
    if ps == [] then 0 else LengthSum(ps[..|ps| - 1]) + ps[|ps| - 1].length
  }

  function TtlSum(ps: seq<Packet>): int {
    if ps == [] then 0 else TtlSum(ps[..|ps| - 1]) + ps[|ps| - 1].ttl
  }

  function Attacks(ps: seq<Packet>): seq<Packet> {
    if ps == [] then [] else Attacks(ps[..|ps| - 1]) + if ps[|ps| - 1].isAttack then [ps[|ps| - 1]] else []
  }

  /** The containers of a window are the capped folds of its packets' sources, ports, flow keys and
      5-tuples. */
  lemma {:induction false} TalliedContainers(cap: Cap, ps: seq<Packet>)
    ensures var w := Tallied(cap, ps);
      && w.srcIps == FoldCounter(cap, Sources(ps))
      && w.srcPorts == FoldCounter(cap, SourcePorts(ps))
      && w.dstPorts == FoldCounter(cap, DestinationPorts(ps))
      && w.flowsEng == FoldSet(cap, EngineFlows(ps))
      && w.flows == FoldSet(cap, Flows(ps))
  {
    if ps != [] {
      hide Increment, AddTo, Count, CountLabel;
      var n := |ps| - 1;
      var p, before := ps[n], Tallied(cap, ps[..n]);
      TalliedContainers(cap, ps[..n]);
      FoldsStep(cap, ps);
      PortsStep(cap, ps);
      assert Tallied(cap, ps) == Tally(cap, before, p);
      hide Tallied, FoldCounter, FoldSet;
    }
  }

  lemma FoldsStep(cap: Cap, ps: seq<Packet>)
    requires ps != []
    ensures var n := |ps| - 1;
      && FoldCounter(cap, Sources(ps)) == Increment(cap, FoldCounter(cap, Sources(ps[..n])), ps[n].src)
      && FoldSet(cap, EngineFlows(ps)) == AddTo(cap, FoldSet(cap, EngineFlows(ps[..n])), EngineFlowOf(ps[n]))
      && FoldSet(cap, Flows(ps)) == AddTo(cap, FoldSet(cap, Flows(ps[..n])), FlowOf(ps[n]))
  {
    hide Increment, AddTo;
    var n := |ps| - 1;
    assert Sources(ps)[..n] == Sources(ps[..n]);
    assert EngineFlows(ps)[..n] == EngineFlows(ps[..n]);
    assert Flows(ps)[..n] == Flows(ps[..n]);
  }

  lemma PortsStep(cap: Cap, ps: seq<Packet>)
    requires ps != []
    ensures var n := |ps| - 1;
      && FoldCounter(cap, SourcePorts(ps)) == Increment(cap, FoldCounter(cap, SourcePorts(ps[..n])), ps[n].srcPort)
      && FoldCounter(cap, DestinationPorts(ps))
         == Increment(cap, FoldCounter(cap, DestinationPorts(ps[..n])), ps[n].dstPort)
  {
    hide Increment, AddTo;
    var n := |ps| - 1;
    assert SourcePorts(ps)[..n] == SourcePorts(ps[..n]);
    assert DestinationPorts(ps)[..n] == DestinationPorts(ps[..n]);
  }

  lemma {:induction false} TalliedAttacks(cap: Cap, ps: seq<Packet>)
    ensures Tallied(cap, ps).attackFlows == FoldSet(cap, Flows(Attacks(ps)))
  {
    if ps != [] {
      hide Increment, AddTo, Count, CountLabel;
      var p, before := ps[|ps| - 1], ps[..|ps| - 1];
      TalliedAttacks(cap, before);
      assert Tallied(cap, ps) == Tally(cap, Tallied(cap, before), p);
      if p.isAttack {
        assert Attacks(ps)[..|Attacks(ps)| - 1] == Attacks(before);
        FoldsStep(cap, Attacks(ps));
      } else {
        assert Attacks(ps) == Attacks(before);
      }
    }
  }

  /** The counters of a window, as a fold of its packets. */
  function Counted(ps: seq<Packet>): Counts {
    if ps == [] then NOTHING else Count(Counted(ps[..|ps| - 1]), ps[|ps| - 1])
  }

  function Labelled(ps: seq<Packet>): map<string, nat> {
    if ps == [] then map[] else CountLabel(Labelled(ps[..|ps| - 1]), ps[|ps| - 1])
  }

  /** The cap does not touch the counters and the attack labels. */
  lemma {:induction false} TalliedCounters(cap: Cap, ps: seq<Packet>)
    ensures Tallied(cap, ps).counts == Counted(ps)
    ensures Tallied(cap, ps).attackTypes == Labelled(ps)
    ensures Tallied(cap, ps).newSrc == 0
  {
    if ps != [] {
      hide Count, CountLabel, Increment, AddTo;
      TalliedCounters(cap, ps[..|ps| - 1]);
    }
  }

  /** Each counter counts its own kind of packet, and the protocols partition the packets. */
  lemma {:induction false} TalliedCounts(ps: seq<Packet>)
    ensures var c := Counted(ps);
      && c.packets == |ps|
      && c.bytes == LengthSum(ps)
      && c.ttlSum == TtlSum(ps)
      && c.tcp == CountIf(ps, (p: Packet) => p.proto == 6)
      && c.udp == CountIf(ps, (p: Packet) => p.proto == 17)
      && c.icmp == CountIf(ps, (p: Packet) => p.proto == 1)
      && c.tcp + c.udp + c.icmp + c.other == c.packets
  {
    if ps != [] {
      TalliedCounts(ps[..|ps| - 1]);
    }
  }

  /** The attack packets that carry one label. */
  function LabelCount(ps: seq<Packet>, name: string): nat {
    CountIf(ps, (p: Packet) => p.isAttack && p.attackLabel == name)
  }

  lemma LabelCountStep(ps: seq<Packet>, p: Packet, name: string)
    ensures LabelCount(ps + [p], name) == LabelCount(ps, name) + if p.isAttack && p.attackLabel == name then 1 else 0
  {
    assert (ps + [p])[..|ps|] == ps;
  }

  /** Every nonempty label that an attack packet carries is counted once per such packet. */
  lemma {:induction false} TalliedLabels(ps: seq<Packet>)
    ensures forall name ::
      && (name in Labelled(ps) <==> name != "" && LabelCount(ps, name) > 0)
      && CountOf(Labelled(ps), name) == if name == "" then 0 else LabelCount(ps, name)
  {
    if ps != [] {
      var n := |ps| - 1;
      assert ps == ps[..n] + [ps[n]];
      TalliedLabels(ps[..n]);
      var before, after := Labelled(ps[..n]), CountLabel(Labelled(ps[..n]), ps[n]);
      assert Labelled(ps) == after;
      hide LabelCount, Labelled;
      forall name
        ensures name in after <==> name != "" && LabelCount(ps, name) > 0
        ensures CountOf(after, name) == if name == "" then 0 else LabelCount(ps, name)
      {
        LabelCountStep(ps[..n], ps[n], name);
      }
    }
  }

  /** The flag counters, and how they nest. */
  lemma {:induction false} TalliedFlags(ps: seq<Packet>)
    ensures var c := Counted(ps);
      && c.syn == CountIf(ps, (p: Packet) => p.proto == 6 && p.syn && !p.ack)
      && c.synAck == CountIf(ps, (p: Packet) => p.proto == 6 && p.syn && p.ack)
      && c.ack == CountIf(ps, (p: Packet) => p.proto == 6 && p.ack)
      && c.syn + c.synAck <= c.tcp && c.synAck <= c.ack <= c.tcp
  {
    if ps != [] {
      TalliedFlags(ps[..|ps| - 1]);
    }
  }

  /** The remaining counters. */
  lemma {:induction false} TalliedRest(ps: seq<Packet>)
    ensures var c := Counted(ps);
      && c.small == CountIf(ps, (p: Packet) => p.length < 100)
      && c.fragments == CountIf(ps, (p: Packet) => p.fragment)
      && c.icmpEcho == CountIf(ps, (p: Packet) => p.proto == 1 && p.echo) <= c.icmp
      && c.rst == CountIf(ps, (p: Packet) => p.proto == 6 && p.rst) <= c.tcp
      && c.fin == CountIf(ps, (p: Packet) => p.proto == 6 && p.fin) <= c.tcp
  {
    if ps != [] {
      TalliedRest(ps[..|ps| - 1]);
    }
  }

  /** Sources, engine flow keys and 5-tuples of the same packets, each a projection of the next. */
  lemma ProjectionChain(ps: seq<Packet>)
    ensures |Distinct(Sources(ps))| <= |Distinct(EngineFlows(ps))|
    ensures |Distinct(EngineFlows(ps))| <= |Distinct(Flows(ps))|
    ensures |Distinct(Flows(ps))| <= |ps|
  {
    SourcesProject(ps);
    ImageSize(Distinct(EngineFlows(ps)), (e: EngineFlow) => e.src);
    EngineFlowsProject(ps);
    ImageSize(Distinct(Flows(ps)), (f: Flow) => EngineFlow(f.src, f.proto));
    DistinctAtMost(Flows(ps));
  }

  lemma SourcesProject(ps: seq<Packet>)
    ensures Distinct(Sources(ps)) == Image(Distinct(EngineFlows(ps)), (e: EngineFlow) => e.src)
  {
    forall x | x in Distinct(Sources(ps)) ensures x in Image(Distinct(EngineFlows(ps)), (e: EngineFlow) => e.src) {
      var i :| 0 <= i < |ps| && Sources(ps)[i] == x;
      assert EngineFlows(ps)[i] in Distinct(EngineFlows(ps));
    }
    forall x | x in Image(Distinct(EngineFlows(ps)), (e: EngineFlow) => e.src) ensures x in Distinct(Sources(ps)) {
      var i :| 0 <= i < |ps| && EngineFlows(ps)[i].src == x;
      assert Sources(ps)[i] == x;
    }
  }

  lemma EngineFlowsProject(ps: seq<Packet>)
    ensures Distinct(EngineFlows(ps)) == Image(Distinct(Flows(ps)), (f: Flow) => EngineFlow(f.src, f.proto))
  {
    var g := (f: Flow) => EngineFlow(f.src, f.proto);
    forall x | x in Distinct(EngineFlows(ps)) ensures x in Image(Distinct(Flows(ps)), g) {
      var i :| 0 <= i < |ps| && EngineFlows(ps)[i] == x;
      assert Flows(ps)[i] in Distinct(Flows(ps)) && g(Flows(ps)[i]) == x;
    }
    forall x | x in Image(Distinct(Flows(ps)), g) ensures x in Distinct(EngineFlows(ps)) {
      var f :| f in Distinct(Flows(ps)) && g(f) == x;
      var i :| 0 <= i < |ps| && Flows(ps)[i] == f;
      assert EngineFlows(ps)[i] == x;
    }
  }

  lemma {:induction false} DistinctAtMost<T>(xs: seq<T>)
    ensures |Distinct(xs)| <= |xs|
  {
    if xs != [] {
      var n := |xs| - 1;
      DistinctAtMost(xs[..n]);
      assert xs == xs[..n] + [xs[n]];
      DistinctAppend(xs[..n], xs[n]);
    }
  }

  /** In every window of every run, capped or not: unique sources <= engine flows <= 5-tuple flows <=
      packets, each distinct count cut at the cap, and at least one packet. */
  lemma DistinctChain(cap: Cap, t0: Option<real>, trace: seq<Timed>, k: Key)
    requires (t0.Some? || trace != []) && k in Run(cap, t0, trace).windows
    ensures var w := Run(cap, t0, trace).windows[k];
      && |w.srcIps| <= |w.flowsEng| <= |w.flows| <= w.counts.packets
      && 1 <= w.counts.packets
      && w.counts.tcp + w.counts.udp + w.counts.icmp + w.counts.other == w.counts.packets
    ensures var w, ps := Run(cap, t0, trace).windows[k], PacketsIn(Origin(t0, trace), trace, k);
      && |w.srcIps| == AtMost(cap, |Distinct(Sources(ps))|)
      && |w.flowsEng| == AtMost(cap, |Distinct(EngineFlows(ps))|)
      && |w.flows| == AtMost(cap, |Distinct(Flows(ps))|)
  {
    hide Run, Tallied, PacketsIn, Sources, Flows, EngineFlows;
    var ps := PacketsIn(Origin(t0, trace), trace, k);
    WindowsSeparate(cap, t0, trace, k);
    TalliedContainers(cap, ps);
    TalliedCounters(cap, ps);
    TalliedCounts(ps);
    hide Counted, Labelled;
    ProjectionChain(ps);
    CounterHolds(cap, Sources(ps));
    SetHolds(cap, Sources(ps));
    SetHolds(cap, EngineFlows(ps));
    SetHolds(cap, Flows(ps));
    AtMostMonotone(cap, |Distinct(Sources(ps))|, |Distinct(EngineFlows(ps))|);
    AtMostMonotone(cap, |Distinct(EngineFlows(ps))|, |Distinct(Flows(ps))|);
    AtMostMonotone(cap, |Distinct(Flows(ps))|, |ps|);
  }

  // ----- conservation across windows -----

  function PacketsAt(windows: map<Key, Window>, k: Key): real {
    WindowAt(windows, k).counts.packets as real
  }

  function NewAt(windows: map<Key, Window>, dst: string, k: Key): real {
    if k.dst == dst then WindowAt(windows, k).newSrc as real else 0.0
  }

  ghost function TotalPackets(windows: map<Key, Window>): real {
    SumOver(windows.Keys, k => PacketsAt(windows, k))
  }

  /** The new-source counts of a destination, over all its windows. */
  ghost function TotalNew(windows: map<Key, Window>, dst: string): real {
    SumOver(windows.Keys, k => NewAt(windows, dst, k))
  }

  lemma WindowPut(ws: map<Key, Window>, key: Key, w: Window)
    ensures forall k :: WindowAt(ws[key := w], k) == if k == key then w else WindowAt(ws, k)
    ensures key !in ws ==> WindowAt(ws, key) == EMPTY
  {
  }

  /** What one packet changes, window by window. */
  lemma AddPointwise(cap: Cap, a: Aggregate, t: Timed) returns (key: Key)
    ensures key.dst == t.p.dst && key == NextKey(a, t)
    ensures Add(cap, a, t).windows.Keys == a.windows.Keys + {key}
    ensures forall k :: k != key ==> WindowAt(Add(cap, a, t).windows, k) == WindowAt(a.windows, k)
    ensures WindowAt(Add(cap, a, t).windows, key).counts.packets == WindowAt(a.windows, key).counts.packets + 1
    ensures WindowAt(Add(cap, a, t).windows, key).newSrc
         == WindowAt(a.windows, key).newSrc + One(t.p.src !in SeenAt(a.seen, t.p.dst))
    ensures key !in a.windows ==> WindowAt(a.windows, key) == EMPTY
  {
    key := NextKey(a, t);
    AddParts(cap, a, t);
    NextWindowIs(cap, a, t);
    assert key.dst == t.p.dst;
    hide Add, NextWindow, NextKey, Tally, One, SeenAt;
    WindowPut(a.windows, key, NextWindow(cap, a, t));
    hide WindowAt;
  }

  lemma AddPacketTotals(cap: Cap, a: Aggregate, t: Timed, dst: string)
    ensures TotalPackets(Add(cap, a, t).windows) == TotalPackets(a.windows) + 1.0
    ensures TotalNew(Add(cap, a, t).windows, dst)
         == TotalNew(a.windows, dst) + One(t.p.dst == dst && t.p.src !in SeenAt(a.seen, dst)) as real
  {
    var key := AddPointwise(cap, a, t);
    hide Add, WindowAt, SeenAt, SumOver;
    var ws, ws' := a.windows, Add(cap, a, t).windows;
    SumGrow(ws.Keys, ws'.Keys, key, k => PacketsAt(ws, k), k => PacketsAt(ws', k), 1.0);
    SumGrow(ws.Keys, ws'.Keys, key, k => NewAt(ws, dst, k), k => NewAt(ws', dst, k),
      One(t.p.dst == dst && t.p.src !in SeenAt(a.seen, dst)) as real);
  }

  /** The distinct sources that sent to dst. */
  function SourcesTo(trace: seq<Timed>, dst: string): set<string> {
    if trace == [] then {}
    else
      var t := trace[|trace| - 1];
      SourcesTo(trace[..|trace| - 1], dst) + if t.p.dst == dst then {t.p.src} else {}
  }

  /** No packet is lost or counted twice, and the per-window new-source counts of a destination add
      up to its distinct sources, in whatever order its packets arrive. */
  lemma {:induction false} Conservation(cap: Cap, t0: Option<real>, trace: seq<Timed>, dst: string)
    ensures var a := Run(cap, t0, trace);
      && TotalPackets(a.windows) == |trace| as real
      && SeenAt(a.seen, dst) == SourcesTo(trace, dst)
      && TotalNew(a.windows, dst) == |SourcesTo(trace, dst)| as real
  {
    hide TotalPackets, TotalNew, Add;
    if trace == [] {
      EmptyTotals(dst);
    } else {
      var n := |trace| - 1;
      Conservation(cap, t0, trace[..n], dst);
      var a, t := Run(cap, t0, trace[..n]), trace[n];
      AddPacketTotals(cap, a, t, dst);
      SeenStep(cap, a, t, dst);
      var before := SourcesTo(trace[..n], dst);
      assert SourcesTo(trace, dst) == before + if t.p.dst == dst then {t.p.src} else {};
      assert Run(cap, t0, trace) == Add(cap, a, t);
      hide SeenAt, SourcesTo, Run;
      assert t.p.src in before ==> before + {t.p.src} == before;
    }
  }

  /** The packets of window k whose source had not sent to its destination before. */
  ghost function FirstContacts(origin: real, trace: seq<Timed>, k: Key): set<nat> {
    set i: nat | i < |trace| && FirstContact(origin, trace, i, k)
  }

  predicate FirstContact(origin: real, trace: seq<Timed>, i: nat, k: Key)
    requires i < |trace|
  {
    && KeyOf(origin, trace[i]) == k
    && forall j :: 0 <= j < i ==> !(trace[j].p.src == trace[i].p.src && trace[j].p.dst == k.dst)
  }

  lemma {:induction false} SourcesToMembers(trace: seq<Timed>, dst: string, src: string)
    ensures src in SourcesTo(trace, dst)
       <==> exists j :: 0 <= j < |trace| && trace[j].p.src == src && trace[j].p.dst == dst
  {
    if trace != [] {
      var n := |trace| - 1;
      SourcesToMembers(trace[..n], dst, src);
      if j :| 0 <= j < |trace| && trace[j].p.src == src && trace[j].p.dst == dst {
        if j < n {
          assert trace[..n][j] == trace[j];
        }
      }
    }
  }

  lemma ContactKept(origin: real, trace: seq<Timed>, t: Timed, i: nat, k: Key)
    requires i < |trace|
    ensures FirstContact(origin, trace + [t], i, k) <==> FirstContact(origin, trace, i, k)
  {
    hide KeyOf;
    var more := trace + [t];
    assert more[i] == trace[i];
    if FirstContact(origin, trace, i, k) {
      forall j | 0 <= j < i ensures !(more[j].p.src == more[i].p.src && more[j].p.dst == k.dst) {
        assert more[j] == trace[j];
      }
    }
    if FirstContact(origin, more, i, k) {
      forall j | 0 <= j < i ensures !(trace[j].p.src == trace[i].p.src && trace[j].p.dst == k.dst) {
        assert more[j] == trace[j];
      }
    }
  }

  lemma ContactNow(origin: real, trace: seq<Timed>, t: Timed, k: Key)
    ensures FirstContact(origin, trace + [t], |trace|, k)
       <==> KeyOf(origin, t) == k && t.p.src !in SourcesTo(trace, k.dst)
  {
    SourcesToMembers(trace, k.dst, t.p.src);
    hide KeyOf, SourcesTo;
    var more := trace + [t];
    assert more[|trace|] == t;
    if j :| 0 <= j < |trace| && trace[j].p.src == t.p.src && trace[j].p.dst == k.dst {
      assert more[j] == trace[j];
    }
    forall j | 0 <= j < |trace| ensures more[j] == trace[j] {
    }
  }

  lemma FirstContactsStep(origin: real, trace: seq<Timed>, t: Timed, k: Key)
    ensures FirstContacts(origin, trace + [t], k) == FirstContacts(origin, trace, k)
      + if KeyOf(origin, t) == k && t.p.src !in SourcesTo(trace, k.dst) then {|trace|} else {}
  {
    ContactNow(origin, trace, t, k);
    hide FirstContact, KeyOf, SourcesTo;
    forall i: nat | i < |trace| ensures FirstContact(origin, trace + [t], i, k) <==> FirstContact(origin, trace, i, k) {
      ContactKept(origin, trace, t, i, k);
    }
  }

  lemma NewSourcesStep(cap: Cap, a: Aggregate, origin: real, trace: seq<Timed>, t: Timed, k: Key)
    requires a.t0 == Some(origin) || (a.t0.None? && origin == t.ts)
    requires SeenAt(a.seen, k.dst) == SourcesTo(trace, k.dst)
    requires WindowAt(a.windows, k).newSrc == |FirstContacts(origin, trace, k)|
    ensures WindowAt(Add(cap, a, t).windows, k).newSrc == |FirstContacts(origin, trace + [t], k)|
  {
    FirstContactsStep(origin, trace, t, k);
    ContactsBelow(origin, trace, k);
    NextKeyIs(a, t, origin);
    var key := AddPointwise(cap, a, t);
    hide Add, FirstContacts, NextKey, KeyOf, SeenAt, SourcesTo, WindowAt;
  }

  /** A window's new-source count is the number of its packets that are a source's first to that
      destination, in order of arrival. */
  lemma {:induction false} NewSourcesAre(cap: Cap, t0: Option<real>, trace: seq<Timed>, k: Key)
    requires t0.Some? || trace != []
    ensures WindowAt(Run(cap, t0, trace).windows, k).newSrc == |FirstContacts(Origin(t0, trace), trace, k)|
  {
    var origin := Origin(t0, trace);
    if trace == [] {
      NoContacts(origin, trace, k);
    } else {
      var n := |trace| - 1;
      var before, t := trace[..n], trace[n];
      assert trace == before + [t];
      if t0.Some? || n > 0 {
        NewSourcesAre(cap, t0, before, k);
        OriginKept(cap, t0, before);
      } else {
        NoContacts(origin, before, k);
      }
      hide Add, FirstContacts, SeenAt, SourcesTo;
      Conservation(cap, t0, before, k.dst);
      NewSourcesStep(cap, Run(cap, t0, before), origin, before, t, k);
    }
  }

  lemma NextKeyIs(a: Aggregate, t: Timed, origin: real)
    requires a.t0 == Some(origin) || (a.t0.None? && origin == t.ts)
    ensures NextKey(a, t) == KeyOf(origin, t)
    ensures KeyOf(origin, t).dst == t.p.dst
  {
  }

  lemma NoContacts(origin: real, trace: seq<Timed>, k: Key)
    requires trace == []
    ensures FirstContacts(origin, trace, k) == {}
  {
  }

  lemma ContactsBelow(origin: real, trace: seq<Timed>, k: Key)
    ensures forall i :: i in FirstContacts(origin, trace, k) ==> i < |trace|
  {
  }

  lemma SeenStep(cap: Cap, a: Aggregate, t: Timed, dst: string)
    ensures SeenAt(Add(cap, a, t).seen, dst) == SeenAt(a.seen, dst) + if t.p.dst == dst then {t.p.src} else {}
  {
    AddParts(cap, a, t);
    hide Add;
  }

  lemma EmptyTotals(dst: string)
    ensures TotalPackets(map[]) == 0.0 && TotalNew(map[], dst) == 0.0
  {
  }

  // ----- when the cap shows -----

  lemma {:induction false} AttacksAmong(ps: seq<Packet>)
    ensures forall p :: p in Attacks(ps) ==> p in ps
  {
    if ps != [] {
      AttacksAmong(ps[..|ps| - 1]);
    }
  }

  lemma AttackFlowsAmong(ps: seq<Packet>)
    ensures Distinct(Flows(Attacks(ps))) <= Distinct(Flows(ps))
  {
    AttacksAmong(ps);
    forall x | x in Distinct(Flows(Attacks(ps))) ensures x in Distinct(Flows(ps)) {
      var i :| 0 <= i < |Attacks(ps)| && x == FlowOf(Attacks(ps)[i]);
      assert Attacks(ps)[i] in Attacks(ps);
      var j :| 0 <= j < |ps| && ps[j] == Attacks(ps)[i];
      assert Flows(ps)[j] == x;
    }
  }

  lemma PortsAmong(ps: seq<Packet>)
    ensures |Distinct(SourcePorts(ps))| <= |Distinct(Flows(ps))|
    ensures |Distinct(DestinationPorts(ps))| <= |Distinct(Flows(ps))|
  {
    PortsProject(ps, SourcePorts(ps), (f: Flow) => f.srcPort);
    PortsProject(ps, DestinationPorts(ps), (f: Flow) => f.dstPort);
  }

  lemma PortsProject(ps: seq<Packet>, ports: seq<int>, g: Flow -> int)
    requires |ports| == |ps| && forall i :: 0 <= i < |ps| ==> ports[i] == g(FlowOf(ps[i]))
    ensures |Distinct(ports)| <= |Distinct(Flows(ps))|
  {
    ImageSize(Distinct(Flows(ps)), g);
    forall x | x in Distinct(ports) ensures x in Image(Distinct(Flows(ps)), g) {
      var i :| 0 <= i < |ports| && ports[i] == x;
      assert Flows(ps)[i] in Distinct(Flows(ps));
    }
    SubsetSize(Distinct(ports), Image(Distinct(Flows(ps)), g));
  }

  lemma CapShows(cap: Cap, ps: seq<Packet>)
    ensures Tallied(cap, ps) == Tallied(None, ps) <==> cap.None? || |Distinct(Flows(ps))| <= cap.value
  {
    hide Tallied, FoldSet, FoldCounter, Distinct, Flows, EngineFlows, Sources, SourcePorts, DestinationPorts, Attacks;
    TalliedContainers(cap, ps);
    TalliedContainers(None, ps);
    ExactIffFits(cap, Flows(ps));
    ExactIffFits(None, Flows(ps));
    if cap.None? || |Distinct(Flows(ps))| <= cap.value {
      ProjectionChain(ps);
      PortsAmong(ps);
      AttackFlowsAmong(ps);
      SubsetSize(Distinct(Flows(Attacks(ps))), Distinct(Flows(ps)));
      ExactIffFits(cap, EngineFlows(ps));
      ExactIffFits(None, EngineFlows(ps));
      CounterExact(cap, Sources(ps));
      CounterExact(cap, SourcePorts(ps));
      CounterExact(cap, DestinationPorts(ps));
      TalliedAttacks(cap, ps);
      TalliedAttacks(None, ps);
      ExactIffFits(cap, Flows(Attacks(ps)));
      ExactIffFits(None, Flows(Attacks(ps)));
      TalliedCounters(cap, ps);
      TalliedCounters(None, ps);
    }
  }

  /** The new-source counts do not see the cap: sources seen by a destination are kept in full. */
  ghost predicate SameNews(a: Aggregate, b: Aggregate) {
    && a.t0 == b.t0 && a.seen == b.seen
    && forall k :: WindowAt(a.windows, k).newSrc == WindowAt(b.windows, k).newSrc
  }

  lemma SameNewsStep(cap: Cap, a: Aggregate, b: Aggregate, t: Timed)
    requires SameNews(a, b)
    ensures SameNews(Add(cap, a, t), Add(None, b, t))
  {
    assert Add(cap, a, t).t0 == Add(None, b, t).t0;
    AddParts(cap, a, t);
    AddParts(None, b, t);
    var key := AddPointwise(cap, a, t);
    var same := AddPointwise(None, b, t);
    hide Add, NextKey, NextWindow, WindowAt, One, SeenAt;
  }

  lemma {:induction false} SameNewsRun(cap: Cap, t0: Option<real>, trace: seq<Timed>)
    ensures SameNews(Run(cap, t0, trace), Run(None, t0, trace))
  {
    if trace != [] {
      hide Add, SameNews;
      var n := |trace| - 1;
      SameNewsRun(cap, t0, trace[..n]);
      SameNewsStep(cap, Run(cap, t0, trace[..n]), Run(None, t0, trace[..n]), trace[n]);
    }
  }

  lemma WindowSplit(w: Window, v: Window)
    requires w.newSrc == v.newSrc
    ensures w == v <==> w.(newSrc := 0) == v.(newSrc := 0)
  {
  }

  /** The memory-capped extractor holds the windows of the uncapped one, each identical if and only if
      the window's distinct 5-tuples fit under the cap: no other container can overflow first. */
  lemma CapInvisible(cap: Cap, t0: Option<real>, trace: seq<Timed>, k: Key)
    requires t0.Some? || trace != []
    ensures var capped, whole := Run(cap, t0, trace).windows, Run(None, t0, trace).windows;
      && (k in capped <==> k in whole)
      && (WindowAt(capped, k) == WindowAt(whole, k)
          <==> cap.None? || |Distinct(Flows(PacketsIn(Origin(t0, trace), trace, k)))| <= cap.value)
  {
    hide Run, PacketsIn, Tallied, Distinct, Flows, WindowAt;
    WindowsSeparate(cap, t0, trace, k);
    WindowsSeparate(None, t0, trace, k);
    CapShows(cap, PacketsIn(Origin(t0, trace), trace, k));
    SameNewsRun(cap, t0, trace);
    WindowSplit(WindowAt(Run(cap, t0, trace).windows, k), WindowAt(Run(None, t0, trace).windows, k));
  }

  // ----- the width of second 0 -----

  /** Truncation toward zero makes second 0 two seconds wide: the index is the floor if and only if
      the packet is not before the origin, or lies a whole number of seconds from it. */
  lemma SecondZeroIsWide(t0: real, ts: real)
    ensures SecondOf(t0, ts) == (ts - t0).Floor <==> ts >= t0 || (ts - t0).Floor as real == ts - t0
    ensures SecondOf(t0, ts) == 0 <==> -1.0 < ts - t0 < 1.0
    ensures ts < t0 ==> SecondOf(t0, ts) as real - 1.0 < ts - t0 <= SecondOf(t0, ts) as real
  {
  }
}
