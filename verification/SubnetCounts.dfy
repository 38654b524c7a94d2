// One second of one subnet, seen by the subnet builder and by the per-destination builder.
module SubnetCounts {
  import opened Options
  import opened Strings
  import opened FiniteSets
  import opened LitnetLoader

  /** A record's source, destination and protocol, in that direction. */
  datatype Directed = Directed(src: string, dst: string, proto: string)

  function Reverse(d: Directed): Directed {
    Directed(d.dst, d.src, d.proto)
  }

  function Unordered(d: Directed): FlowKey {
    if LessEq(d.src, d.dst) then FlowKey(d.src, d.dst, d.proto) else FlowKey(d.dst, d.src, d.proto)
  }

  function DirectedOf(r: Record): Directed {
    Directed(r.sa, r.da, r.pr)
  }

  ghost function DirectedSet(rs: seq<Record>): set<Directed> {
    set r | r in rs :: DirectedOf(r)
  }

  ghost function Keys(rs: seq<Record>): set<FlowKey> {
    set r | r in rs :: KeyOf(r)
  }

  ghost function SourceProtos(rs: seq<Record>): set<SourceProto> {
    set r | r in rs :: SourceProtoOf(r)
  }

  ghost function Sources(rs: seq<Record>): set<string> {
    set r | r in rs :: r.sa
  }

  ghost function Destinations(rs: seq<Record>): set<string> {
    set r | r in rs :: r.da
  }

  function Total(rs: seq<Record>, f: Record -> real): real {
    if rs == [] then 0.0 else Total(rs[..|rs| - 1], f) + f(rs[|rs| - 1])
  }

  function ForDst(rs: seq<Record>, d: string): seq<Record> {
    if rs == [] then [] else ForDst(rs[..|rs| - 1], d) + if rs[|rs| - 1].da == d then [rs[|rs| - 1]] else []
  }

  // ----- what the accumulators hold -----

  lemma {:induction false} SubnetContents(rs: seq<Record>)
    ensures var a := FoldSubnet(rs);
      && a.flowKeys == Keys(rs) && a.srcIps == Sources(rs) && a.dstIps == Destinations(rs)
      && a.nFlows == |rs| && a.nPackets == Total(rs, Packets) && a.nBytes == Total(rs, Bytes)
  {
    if rs != [] {
      hide KeyOf, Packets, Bytes;
      var n := |rs| - 1;
      assert rs == rs[..n] + [rs[n]];
      SubnetContents(rs[..n]);
    }
  }

  lemma {:induction false} IpContents(rs: seq<Record>)
    ensures var a := FoldIp(rs);
      && a.srcProto == SourceProtos(rs) && a.srcIps == Sources(rs)
      && a.nFlows == |rs| && a.nPackets == Total(rs, Packets) && a.nBytes == Total(rs, Bytes)
  {
    if rs != [] {
      hide KeyOf, Packets, Bytes;
      var n := |rs| - 1;
      assert rs == rs[..n] + [rs[n]];
      IpContents(rs[..n]);
    }
  }

  lemma ForDstStep(rs: seq<Record>, r: Record, d: string)
    ensures ForDst(rs + [r], d) == ForDst(rs, d) + if r.da == d then [r] else []
  {
    assert (rs + [r])[..|rs|] == rs;
  }

  lemma {:induction false} ForDstMembers(rs: seq<Record>, d: string)
    ensures forall r :: r in ForDst(rs, d) <==> r in rs && r.da == d
  {
    if rs != [] {
      var n := |rs| - 1;
      assert rs == rs[..n] + [rs[n]];
      ForDstMembers(rs[..n], d);
    }
  }

  // ----- sums over the destinations -----

  function SourceProtoCount(rs: seq<Record>, d: string): real {
    |FoldIp(ForDst(rs, d)).srcProto| as real
  }

  /** The sum of the per-destination (source, protocol) counts. */
  ghost function PairTotal(rs: seq<Record>): real {
    SumOver(Destinations(rs), d => SourceProtoCount(rs, d))
  }

  lemma SourceProtoCountStep(rs: seq<Record>, r: Record, d: string)
    ensures SourceProtoCount(rs + [r], d)
         == SourceProtoCount(rs, d) + if d == r.da && DirectedOf(r) !in DirectedSet(rs) then 1.0 else 0.0
    ensures d !in Destinations(rs) ==> SourceProtoCount(rs, d) == 0.0
  {
    var mine := ForDst(rs, d);
    ForDstStep(rs, r, d);
    IpContents(mine);
    IpContents(mine + [r]);
    SourceProtosStep(rs, r, d);
    hide ForDst, FoldIp, SourceProtos, DirectedSet, Destinations;
    assert mine + [] == mine;
  }

  lemma SourceProtosStep(rs: seq<Record>, r: Record, d: string)
    ensures var mine := ForDst(rs, d);
      && SourceProtos(mine + [r]) == SourceProtos(mine) + {SourceProtoOf(r)}
      && (d == r.da ==> (SourceProtoOf(r) in SourceProtos(mine) <==> DirectedOf(r) in DirectedSet(rs)))
      && (d !in Destinations(rs) ==> SourceProtos(mine) == {})
  {
    ForDstMembers(rs, d);
    hide ForDst;
    var mine := ForDst(rs, d);
    if d == r.da && DirectedOf(r) in DirectedSet(rs) {
      var q :| q in rs && DirectedOf(q) == DirectedOf(r);
      assert q in mine && SourceProtoOf(q) == SourceProtoOf(r);
    }
    if d == r.da && SourceProtoOf(r) in SourceProtos(mine) {
      var q :| q in mine && SourceProtoOf(q) == SourceProtoOf(r);
      assert DirectedOf(q) == DirectedOf(r);
    }
  }

  lemma SetsStep(rs: seq<Record>, r: Record)
    ensures Destinations(rs + [r]) == Destinations(rs) + {r.da}
    ensures DirectedSet(rs + [r]) == DirectedSet(rs) + {DirectedOf(r)}
  {
    hide DirectedOf;
  }

  /** 1 when the record is the first of its directed flow. */
  ghost function FirstOfFlow(rs: seq<Record>, r: Record): real {
    if DirectedOf(r) !in DirectedSet(rs) then 1.0 else 0.0
  }

  lemma DirectedSetStep(rs: seq<Record>, r: Record)
    ensures |DirectedSet(rs + [r])| as real == |DirectedSet(rs)| as real + FirstOfFlow(rs, r)
  {
    SetsStep(rs, r);
    hide DirectedSet, DirectedOf;
    var flows, d := DirectedSet(rs), DirectedOf(r);
    if d in flows {
      assert flows + {d} == flows;
    }
  }

  lemma PairTotalStep(rs: seq<Record>, r: Record)
    ensures PairTotal(rs + [r]) == PairTotal(rs) + FirstOfFlow(rs, r)
  {
    hide SourceProtoCount, SumOver;
    SetsStep(rs, r);
    hide Destinations, DirectedSet, DirectedOf;
    forall d
      ensures SourceProtoCount(rs + [r], d) == SourceProtoCount(rs, d) + if d == r.da then FirstOfFlow(rs, r) else 0.0
    {
      SourceProtoCountStep(rs, r, d);
    }
    SourceProtoCountStep(rs, r, r.da);
    SumGrow(Destinations(rs), Destinations(rs + [r]), r.da, d => SourceProtoCount(rs, d),
      d => SourceProtoCount(rs + [r], d), FirstOfFlow(rs, r));
  }

  /** Per destination, (source, protocol) pairs count each directed flow once. */
  lemma {:induction false} PairTotalIsDirected(rs: seq<Record>)
    ensures PairTotal(rs) == |DirectedSet(rs)| as real
  {
    if rs == [] {
      assert Destinations(rs) == {};
    } else {
      hide PairTotal, DirectedSet, FirstOfFlow;
      var n := |rs| - 1;
      assert rs == rs[..n] + [rs[n]];
      PairTotalIsDirected(rs[..n]);
      PairTotalStep(rs[..n], rs[n]);
      DirectedSetStep(rs[..n], rs[n]);
    }
  }

  function DstTotal(rs: seq<Record>, f: Record -> real, d: string): real {
    Total(ForDst(rs, d), f)
  }

  lemma DstTotalStep(rs: seq<Record>, f: Record -> real, r: Record, d: string)
    ensures DstTotal(rs + [r], f, d) == DstTotal(rs, f, d) + if d == r.da then f(r) else 0.0
    ensures d !in Destinations(rs) ==> DstTotal(rs, f, d) == 0.0
  {
    ForDstStep(rs, r, d);
    ForDstMembers(rs, d);
    hide ForDst;
    var mine := ForDst(rs, d);
    assert (mine + [r])[..|mine|] == mine && mine + [] == mine;
    if mine != [] {
      assert mine[0] in mine;
    }
  }

  /** A quantity that adds up over records adds up over the destinations. */
  lemma {:induction false} TotalsAddUp(rs: seq<Record>, f: Record -> real)
    ensures SumOver(Destinations(rs), d => DstTotal(rs, f, d)) == Total(rs, f)
  {
    if rs == [] {
      assert Destinations(rs) == {};
    } else {
      hide SumOver, DstTotal;
      var n := |rs| - 1;
      var before, r := rs[..n], rs[n];
      assert rs == before + [r];
      TotalsAddUp(before, f);
      SetsStep(before, r);
      hide Destinations;
      forall d ensures DstTotal(rs, f, d) == DstTotal(before, f, d) + if d == r.da then f(r) else 0.0 {
        DstTotalStep(before, f, r, d);
      }
      DstTotalStep(before, f, r, r.da);
      SumGrow(Destinations(before), Destinations(rs), r.da, d => DstTotal(before, f, d), d => DstTotal(rs, f, d), f(r));
    }
  }

  // ----- unordered against directed -----

  lemma SameKey(d: Directed, e: Directed)
    ensures Unordered(d) == Unordered(e) <==> d == e || d == Reverse(e)
  {
    LessTotal(d.src, d.dst);
    LessTotal(e.src, e.dst);
    if Less(d.src, d.dst) && Less(d.dst, d.src) {
      Sandwich(d.src, d.dst);
    }
    if Less(e.src, e.dst) && Less(e.dst, e.src) {
      Sandwich(e.src, e.dst);
    }
  }

  lemma KeysAreImage(rs: seq<Record>)
    ensures Keys(rs) == Image(DirectedSet(rs), Unordered)
  {
    forall k | k in Image(DirectedSet(rs), Unordered) ensures k in Keys(rs) {
      var d :| d in DirectedSet(rs) && Unordered(d) == k;
      var r :| r in rs && DirectedOf(r) == d;
      assert KeyOf(r) == k;
    }
    forall k | k in Keys(rs) ensures k in Image(DirectedSet(rs), Unordered) {
      var r :| r in rs && KeyOf(r) == k;
      assert DirectedOf(r) in DirectedSet(rs) && Unordered(DirectedOf(r)) == k;
    }
  }

  function Along(k: FlowKey): Directed {
    Directed(k.lo, k.hi, k.proto)
  }

  function Against(k: FlowKey): Directed {
    Directed(k.hi, k.lo, k.proto)
  }

  /** An unordered key stands for one or two directed flows. */
  lemma KeysAtLeastHalf(rs: seq<Record>)
    ensures |Keys(rs)| <= |DirectedSet(rs)| <= 2 * |Keys(rs)|
  {
    KeysAreImage(rs);
    ImageSize(DirectedSet(rs), Unordered);
    ImageSize(Keys(rs), Along);
    ImageSize(Keys(rs), Against);
    var both := Image(Keys(rs), Along) + Image(Keys(rs), Against);
    forall d | d in DirectedSet(rs) ensures d in both {
      assert Unordered(d) in Keys(rs);
      assert d == Along(Unordered(d)) || d == Against(Unordered(d));
    }
    SubsetSize(DirectedSet(rs), both);
    UnionSize(Image(Keys(rs), Along), Image(Keys(rs), Against));
  }

  lemma UnionSize<T>(a: set<T>, b: set<T>)
    ensures |a + b| <= |a| + |b|
  {
  }

  /** Two records of the second run between the same two different addresses in opposite directions. */
  predicate HasReversePair(rs: seq<Record>) {
    exists r, q :: r in rs && q in rs && r.sa == q.da && r.da == q.sa && r.pr == q.pr && r.sa != r.da
  }

  lemma ExactUnlessReversed(rs: seq<Record>)
    ensures |Keys(rs)| == |DirectedSet(rs)| <==> !HasReversePair(rs)
  {
    KeysAreImage(rs);
    ImageSizeExact(DirectedSet(rs), Unordered);
    if HasReversePair(rs) {
      var r, q :| r in rs && q in rs && r.sa == q.da && r.da == q.sa && r.pr == q.pr && r.sa != r.da;
      SameKey(DirectedOf(r), DirectedOf(q));
      assert DirectedOf(r) in DirectedSet(rs) && DirectedOf(q) in DirectedSet(rs);
    } else {
      forall d, e | d in DirectedSet(rs) && e in DirectedSet(rs) && Unordered(d) == Unordered(e) ensures d == e {
        SameKey(d, e);
        var r :| r in rs && DirectedOf(r) == d;
        var q :| q in rs && DirectedOf(q) == e;
      }
    }
  }

  // ----- the comparison of the two loaders -----

  /** The records of destination d are those of its subnet that name d. */
  lemma {:induction false} SelectNested(rows: seq<Record>, keep: string -> bool, subnetOf: string -> Option<string>,
      s: string, d: string, sec: int)
    requires subnetOf(d) == Some(s)
    ensures Select(rows, ByIp(keep), d, sec) == ForDst(Select(rows, BySubnet(keep, subnetOf), s, sec), d)
  {
    if rows != [] {
      var n := |rows| - 1;
      var mine := Select(rows[..n], BySubnet(keep, subnetOf), s, sec);
      SelectNested(rows[..n], keep, subnetOf, s, d, sec);
      ForDstStep(mine, rows[n], d);
      assert mine + [] == mine;
    }
  }

  lemma {:induction false} SelectOwner(rows: seq<Record>, keep: string -> bool, subnetOf: string -> Option<string>,
      s: string, sec: int)
    ensures forall r :: r in Select(rows, BySubnet(keep, subnetOf), s, sec) ==> subnetOf(r.da) == Some(s)
  {
    if rows != [] {
      SelectOwner(rows[..|rows| - 1], keep, subnetOf, s, sec);
    }
  }

  ghost function SumAt(perIp: Table, dsts: set<string>, sec: int, f: Acc -> real): real {
    SumOver(dsts, d => f(At(perIp, d, sec)))
  }

  /** In one second of one subnet, with N unordered flow keys at the subnet and T the sum of the
      per-destination (source, protocol) counts: N <= T <= 2N, and T = N if and only if no two records
      run between the same two addresses in opposite directions; in particular when no source is
      itself a destination there. Flows, packets and bytes add up exactly. */
  lemma SubnetVersusDestinations(rows: seq<Record>, keep: string -> bool, subnetOf: string -> Option<string>,
      perIp: Table, perSubnet: Table, s: string, sec: int)
    requires Collects(perIp, rows, ByIp(keep), FoldIp)
    requires Collects(perSubnet, rows, BySubnet(keep, subnetOf), FoldSubnet)
    ensures var sub, rs := At(perSubnet, s, sec), Select(rows, BySubnet(keep, subnetOf), s, sec);
      var n, t := |sub.flowKeys| as real, SumAt(perIp, sub.dstIps, sec, (a: Acc) => |a.srcProto| as real);
      && n <= t <= 2.0 * n
      && (t == n <==> !HasReversePair(rs))
      && (sub.srcIps !! sub.dstIps ==> t == n)
    ensures var sub := At(perSubnet, s, sec);
      && sub.nFlows as real == SumAt(perIp, sub.dstIps, sec, (a: Acc) => a.nFlows as real)
      && sub.nPackets == SumAt(perIp, sub.dstIps, sec, (a: Acc) => a.nPackets)
      && sub.nBytes == SumAt(perIp, sub.dstIps, sec, (a: Acc) => a.nBytes)
  {
    hide SumOver, FoldIp, FoldSubnet, KeyOf, Collects;
    var rs := Select(rows, BySubnet(keep, subnetOf), s, sec);
    SubnetIs(perSubnet, rows, keep, subnetOf, s, sec);
    DestinationsAre(perIp, rows, keep, subnetOf, s, sec);
    SubnetContents(rs);
    PairTotalIsDirected(rs);
    KeysAtLeastHalf(rs);
    ExactUnlessReversed(rs);
    CountsAddUp(rs);
    var dsts := Destinations(rs);
    SumCongruent(dsts, d => SourceProtoCount(rs, d), d => |At(perIp, d, sec).srcProto| as real);
    SameSum(perIp, dsts, sec, (a: Acc) => |a.srcProto| as real, d => |At(perIp, d, sec).srcProto| as real);
    SameSum(perIp, dsts, sec, (a: Acc) => a.nFlows as real, d => FoldIp(ForDst(rs, d)).nFlows as real);
    SameSum(perIp, dsts, sec, (a: Acc) => a.nPackets, d => FoldIp(ForDst(rs, d)).nPackets);
    SameSum(perIp, dsts, sec, (a: Acc) => a.nBytes, d => FoldIp(ForDst(rs, d)).nBytes);
    DisjointMeansNoReverse(rs);
  }

  lemma SameSum(perIp: Table, dsts: set<string>, sec: int, f: Acc -> real, g: string -> real)
    requires forall d :: d in dsts ==> f(At(perIp, d, sec)) == g(d)
    ensures SumAt(perIp, dsts, sec, f) == SumOver(dsts, g)
  {
    SumCongruent(dsts, d => f(At(perIp, d, sec)), g);
  }

  lemma DisjointMeansNoReverse(rs: seq<Record>)
    ensures Sources(rs) !! Destinations(rs) ==> !HasReversePair(rs)
  {
    if HasReversePair(rs) {
      var r, q :| r in rs && q in rs && r.sa == q.da && r.da == q.sa && r.pr == q.pr && r.sa != r.da;
      assert r.sa in Sources(rs) && r.sa in Destinations(rs);
    }
  }

  lemma SubnetIs(perSubnet: Table, rows: seq<Record>, keep: string -> bool, subnetOf: string -> Option<string>,
      s: string, sec: int)
    requires Collects(perSubnet, rows, BySubnet(keep, subnetOf), FoldSubnet)
    ensures At(perSubnet, s, sec) == FoldSubnet(Select(rows, BySubnet(keep, subnetOf), s, sec))
  {
    assert CollectsAt(perSubnet, rows, BySubnet(keep, subnetOf), FoldSubnet, s, sec);
  }

  lemma DestinationsAre(perIp: Table, rows: seq<Record>, keep: string -> bool, subnetOf: string -> Option<string>,
      s: string, sec: int)
    requires Collects(perIp, rows, ByIp(keep), FoldIp)
    ensures var rs := Select(rows, BySubnet(keep, subnetOf), s, sec);
      forall d :: d in Destinations(rs) ==> At(perIp, d, sec) == FoldIp(ForDst(rs, d))
  {
    var rs := Select(rows, BySubnet(keep, subnetOf), s, sec);
    SelectOwner(rows, keep, subnetOf, s, sec);
    forall d | d in Destinations(rs) ensures At(perIp, d, sec) == FoldIp(ForDst(rs, d)) {
      SelectNested(rows, keep, subnetOf, s, d, sec);
      assert CollectsAt(perIp, rows, ByIp(keep), FoldIp, d, sec);
    }
  }

  lemma CountsAddUp(rs: seq<Record>)
    ensures SumOver(Destinations(rs), d => FoldIp(ForDst(rs, d)).nFlows as real) == |rs| as real
    ensures SumOver(Destinations(rs), d => FoldIp(ForDst(rs, d)).nPackets) == Total(rs, Packets)
    ensures SumOver(Destinations(rs), d => FoldIp(ForDst(rs, d)).nBytes) == Total(rs, Bytes)
  {
    hide SumOver, FoldIp;
    forall d
      ensures FoldIp(ForDst(rs, d)).nFlows as real == DstTotal(rs, r => 1.0, d)
      ensures FoldIp(ForDst(rs, d)).nPackets == DstTotal(rs, Packets, d)
      ensures FoldIp(ForDst(rs, d)).nBytes == DstTotal(rs, Bytes, d)
    {
      IpContents(ForDst(rs, d));
      TotalOfOnes(ForDst(rs, d));
    }
    TotalOfOnes(rs);
    TotalsAddUp(rs, r => 1.0);
    TotalsAddUp(rs, Packets);
    TotalsAddUp(rs, Bytes);
    SumCongruent(Destinations(rs), d => FoldIp(ForDst(rs, d)).nFlows as real, d => DstTotal(rs, r => 1.0, d));
    SumCongruent(Destinations(rs), d => FoldIp(ForDst(rs, d)).nPackets, d => DstTotal(rs, Packets, d));
    SumCongruent(Destinations(rs), d => FoldIp(ForDst(rs, d)).nBytes, d => DstTotal(rs, Bytes, d));
  }

  lemma {:induction false} TotalOfOnes(rs: seq<Record>)
    ensures Total(rs, r => 1.0) == |rs| as real
  {
    if rs != [] {
      TotalOfOnes(rs[..|rs| - 1]);
    }
  }

  // ----- unique sources -----

  ghost function UnionOf(perIp: Table, dsts: set<string>, sec: int): set<string> {
    set d, x | d in dsts && x in At(perIp, d, sec).srcIps :: x
  }

  lemma EachInUnion(perIp: Table, dsts: set<string>, sec: int)
    ensures forall d :: d in dsts ==> |At(perIp, d, sec).srcIps| <= |UnionOf(perIp, dsts, sec)|
  {
    hide At;
    forall d | d in dsts ensures |At(perIp, d, sec).srcIps| <= |UnionOf(perIp, dsts, sec)| {
      SubsetSize(At(perIp, d, sec).srcIps, UnionOf(perIp, dsts, sec));
    }
  }

  lemma {:induction false} UnionBounds(perIp: Table, dsts: set<string>, sec: int)
    ensures |UnionOf(perIp, dsts, sec)| as real <= SumAt(perIp, dsts, sec, (a: Acc) => |a.srcIps| as real)
    ensures forall d :: d in dsts ==> |At(perIp, d, sec).srcIps| <= |UnionOf(perIp, dsts, sec)|
  {
    hide At;
    EachInUnion(perIp, dsts, sec);
    if dsts != {} {
      var d :| d in dsts;
      var f := (a: Acc) => |a.srcIps| as real;
      UnionBounds(perIp, dsts - {d}, sec);
      SumPick(dsts, e => f(At(perIp, e, sec)), d);
      assert UnionOf(perIp, dsts, sec) == UnionOf(perIp, dsts - {d}, sec) + At(perIp, d, sec).srcIps;
      UnionSize(UnionOf(perIp, dsts - {d}, sec), At(perIp, d, sec).srcIps);
    } else {
      assert UnionOf(perIp, dsts, sec) == {};
    }
  }

  /** The subnet's unique sources are the true union over its destinations: at least each
      destination's count and at most their sum. */
  lemma SourcesAreUnion(rows: seq<Record>, keep: string -> bool, subnetOf: string -> Option<string>,
      perIp: Table, perSubnet: Table, s: string, sec: int)
    requires Collects(perIp, rows, ByIp(keep), FoldIp)
    requires Collects(perSubnet, rows, BySubnet(keep, subnetOf), FoldSubnet)
    ensures var sub := At(perSubnet, s, sec);
      && sub.srcIps == UnionOf(perIp, sub.dstIps, sec)
      && (forall d :: d in sub.dstIps ==> |At(perIp, d, sec).srcIps| <= |sub.srcIps|)
      && |sub.srcIps| as real <= SumAt(perIp, sub.dstIps, sec, (a: Acc) => |a.srcIps| as real)
  {
    hide SumAt, FoldIp, FoldSubnet;
    var rs := Select(rows, BySubnet(keep, subnetOf), s, sec);
    var dsts := Destinations(rs);
    SubnetIs(perSubnet, rows, keep, subnetOf, s, sec);
    DestinationsAre(perIp, rows, keep, subnetOf, s, sec);
    SubnetContents(rs);
    forall x ensures x in Sources(rs) <==> x in UnionOf(perIp, dsts, sec) {
      SourceBelongs(perIp, rs, sec, x);
    }
    UnionBounds(perIp, dsts, sec);
  }

  lemma SourceBelongs(perIp: Table, rs: seq<Record>, sec: int, x: string)
    requires forall d :: d in Destinations(rs) ==> At(perIp, d, sec) == FoldIp(ForDst(rs, d))
    ensures x in Sources(rs) <==> x in UnionOf(perIp, Destinations(rs), sec)
  {
    hide FoldIp, At, ForDst;
    if x in Sources(rs) {
      var r :| r in rs && r.sa == x;
      ForDstMembers(rs, r.da);
      IpContents(ForDst(rs, r.da));
      assert r.da in Destinations(rs) && r in ForDst(rs, r.da);
      assert x in At(perIp, r.da, sec).srcIps;
    }
    if x in UnionOf(perIp, Destinations(rs), sec) {
      var d :| d in Destinations(rs) && x in At(perIp, d, sec).srcIps;
      ForDstMembers(rs, d);
      IpContents(ForDst(rs, d));
      assert x in Sources(ForDst(rs, d));
      var r :| r in ForDst(rs, d) && r.sa == x;
      assert r in rs;
    }
  }
}
