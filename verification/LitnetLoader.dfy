// litnet_loader.py: flow records accumulated per (destination, second) and per (subnet, second), and
// how the two aggregations of the same second compare.
module LitnetLoader {
  import opened Options
  import opened Strings

  /** One parsed flow record; sec is its window number. */
  datatype Record = Record(
    sec: int, sa: string, da: string, pr: string, ipkt: real, opkt: real, ibyt: real, obyt: real,
    dp: string, td: real, isAttack: bool, attackType: string)

  datatype SourceProto = SourceProto(src: string, proto: string)

  /** {lower address, higher address, protocol} */
  datatype FlowKey = FlowKey(lo: string, hi: string, proto: string)

  /** The columns of _WindowAcc that no flow key depends on. */
  datatype Columns = Columns(
    tcp: real, udp: real, icmp: real, dstPorts: set<string>, durSum: real, durN: nat,
    fwdOnly: nat, attackFlows: nat, attackTypes: map<string, nat>)

  const NO_COLUMNS := Columns(0.0, 0.0, 0.0, {}, 0.0, 0, 0, 0, map[])

  /** _WindowAcc; srcProto is filled by the per-destination builder, flowKeys by the subnet builder. */
  datatype Acc = Acc(
    nFlows: nat, nPackets: real, nBytes: real,
    srcIps: set<string>, dstIps: set<string>,
    srcProto: set<SourceProto>, flowKeys: set<FlowKey>, columns: Columns)

  const EMPTY := Acc(0, 0.0, 0.0, {}, {}, {}, {}, NO_COLUMNS)

  function Packets(r: Record): real {
    r.ipkt + r.opkt
  }

  function Bytes(r: Record): real {
    r.ibyt + r.obyt
  }

  /** The engine flow key of a record: its two addresses in either order. */
  function KeyOf(r: Record): FlowKey {
    if LessEq(r.sa, r.da) then FlowKey(r.sa, r.da, r.pr) else FlowKey(r.da, r.sa, r.pr)
  }

  function SourceProtoOf(r: Record): SourceProto {
    SourceProto(r.sa, r.pr)
  }

  /** The name a flow's attack is counted under: none for benign flows and unnamed attacks. */
  predicate Named(r: Record) {
    r.isAttack && r.attackType != "" && r.attackType != "none"
  }

  function AddColumns(c: Columns, r: Record): Columns {
    var types := c.attackTypes;
    Columns(
      if r.pr == "TCP" then c.tcp + Packets(r) else c.tcp,
      if r.pr == "UDP" then c.udp + Packets(r) else c.udp,
      if r.pr == "ICMP" || r.pr == "ICMP6" then c.icmp + Packets(r) else c.icmp,
      if r.dp != "" then c.dstPorts + {r.dp} else c.dstPorts,
      if r.td > 0.0 then c.durSum + r.td else c.durSum,
      if r.td > 0.0 then c.durN + 1 else c.durN,
      if r.opkt == 0.0 then c.fwdOnly + 1 else c.fwdOnly,
      if r.isAttack then c.attackFlows + 1 else c.attackFlows,
      if Named(r) then types[r.attackType := (if r.attackType in types then types[r.attackType] else 0) + 1] else types)
  }

  /** The accumulation both loaders share. */
  function Tally(a: Acc, r: Record): Acc {
    a.(nFlows := a.nFlows + 1,
       nPackets := a.nPackets + Packets(r),
       nBytes := a.nBytes + Bytes(r),
       srcIps := a.srcIps + {r.sa},
       dstIps := a.dstIps + {r.da},
       columns := AddColumns(a.columns, r))
  }

  function TallyIp(a: Acc, r: Record): Acc {
    Tally(a, r).(srcProto := a.srcProto + {SourceProtoOf(r)})
  }

  function TallySubnet(a: Acc, r: Record): Acc {
    Tally(a, r).(flowKeys := a.flowKeys + {KeyOf(r)})
  }

  function FoldIp(rs: seq<Record>): Acc {
    if rs == [] then EMPTY else TallyIp(FoldIp(rs[..|rs| - 1]), rs[|rs| - 1])
  }

  function FoldSubnet(rs: seq<Record>): Acc {
    if rs == [] then EMPTY else TallySubnet(FoldSubnet(rs[..|rs| - 1]), rs[|rs| - 1])
  }

  // ----- the loaders -----

  /** Nested dicts: owner (destination or subnet) to second to accumulator. */
  type Table = map<string, map<int, Acc>>

  predicate Has(t: Table, owner: string, sec: int) {
    owner in t && sec in t[owner]
  }

  function At(t: Table, owner: string, sec: int): Acc {
    if Has(t, owner, sec) then t[owner][sec] else EMPTY
  }

  function Put(t: Table, owner: string, sec: int, a: Acc): Table {
    t[owner := (if owner in t then t[owner] else map[])[sec := a]]
  }

  lemma PutAt(t: Table, owner: string, sec: int, a: Acc, o: string, s: int)
    ensures Has(Put(t, owner, sec, a), o, s) <==> Has(t, o, s) || (o == owner && s == sec)
    ensures At(Put(t, owner, sec, a), o, s) == if o == owner && s == sec then a else At(t, o, s)
  {
  }

  /** Who a record is filed under: its destination when kept, or its destination's subnet. */
  type Filing = Record -> Option<string>

  function ByIp(keep: string -> bool): Filing {
    (r: Record) => if keep(r.da) then Some(r.da) else None
  }

  function BySubnet(keep: string -> bool, subnetOf: string -> Option<string>): Filing {
    (r: Record) => if keep(r.da) then subnetOf(r.da) else None
  }

  /** The records of one owner in one second. */
  function Select(rows: seq<Record>, filing: Filing, owner: string, sec: int): seq<Record> {
    if rows == [] then []
    else
      var r := rows[|rows| - 1];
      Select(rows[..|rows| - 1], filing, owner, sec) + if filing(r) == Some(owner) && r.sec == sec then [r] else []
  }

  lemma SelectStep(rows: seq<Record>, i: nat, filing: Filing, owner: string, sec: int)
    requires i < |rows|
    ensures Select(rows[..i + 1], filing, owner, sec)
         == Select(rows[..i], filing, owner, sec)
          + if filing(rows[i]) == Some(owner) && rows[i].sec == sec then [rows[i]] else []
  {
    assert rows[..i + 1][..i] == rows[..i];
  }

  /** The table holds, for every owner and second, exactly the fold of that owner's records. */
  ghost predicate Collects(t: Table, rows: seq<Record>, filing: Filing, fold: seq<Record> -> Acc) {
    forall owner, sec :: CollectsAt(t, rows, filing, fold, owner, sec)
  }

  predicate CollectsAt(t: Table, rows: seq<Record>, filing: Filing, fold: seq<Record> -> Acc, owner: string, sec: int) {
    var mine := Select(rows, filing, owner, sec);
    (Has(t, owner, sec) <==> mine != []) && At(t, owner, sec) == fold(mine)
  }

  /** The dict surgery of one loop pass leaves a table that collects one record more. */
  lemma FileOne(t: Table, rows: seq<Record>, i: nat, filing: Filing, fold: seq<Record> -> Acc,
      tally: (Acc, Record) -> Acc, t': Table)
    requires i < |rows| && Collects(t, rows[..i], filing, fold)
    requires forall rs, r :: fold(rs + [r]) == tally(fold(rs), r)
    requires fold([]) == EMPTY
    requires var r := rows[i];
      t' == if filing(r).None? then t
            else Put(t, filing(r).value, r.sec, tally(At(t, filing(r).value, r.sec), r))
    ensures Collects(t', rows[..i + 1], filing, fold)
  {
    var r := rows[i];
    var upTo := rows[..i + 1];
    forall owner, sec ensures CollectsAt(t', upTo, filing, fold, owner, sec) {
      SelectStep(rows, i, filing, owner, sec);
      assert CollectsAt(t, rows[..i], filing, fold, owner, sec);
      var mine := Select(rows[..i], filing, owner, sec);
      assert mine + [] == mine;
      if filing(r).Some? {
        PutAt(t, filing(r).value, r.sec, tally(At(t, filing(r).value, r.sec), r), owner, sec);
      }
    }
  }

  lemma FoldsStep()
    ensures forall rs: seq<Record>, r :: FoldIp(rs + [r]) == TallyIp(FoldIp(rs), r)
    ensures forall rs: seq<Record>, r :: FoldSubnet(rs + [r]) == TallySubnet(FoldSubnet(rs), r)
  {
    forall rs: seq<Record>, r: Record
      ensures FoldIp(rs + [r]) == TallyIp(FoldIp(rs), r) && FoldSubnet(rs + [r]) == TallySubnet(FoldSubnet(rs), r)
    {
      assert (rs + [r])[..|rs|] == rs;
    }
  }

  lemma EmptyCollects(rows: seq<Record>, filing: Filing, fold: seq<Record> -> Acc)
    requires fold([]) == EMPTY
    ensures Collects(map[], rows[..0], filing, fold)
  {
    var none := rows[..0];
    forall owner, sec ensures CollectsAt(map[], none, filing, fold, owner, sec) {
      assert none == [];
    }
  }

  /** load_litnet_per_ip, up to the min_windows filter. */
  method LoadPerIp(rows: seq<Record>, keep: string -> bool) returns (perIp: Table)
    ensures Collects(perIp, rows, ByIp(keep), FoldIp)
  {
    hide TallyIp, FoldIp, Collects;
    FoldsStep();
    perIp := map[];
    EmptyFolds();
    EmptyCollects(rows, ByIp(keep), FoldIp);
    for i := 0 to |rows|
      invariant Collects(perIp, rows[..i], ByIp(keep), FoldIp)
    {
      var r := rows[i];
      ghost var before := perIp;
      if keep(r.da) {
        if r.da !in perIp {
          perIp := perIp[r.da := map[]];
        }
        var acc := if r.sec in perIp[r.da] then perIp[r.da][r.sec] else EMPTY;
        perIp := perIp[r.da := perIp[r.da][r.sec := TallyIp(acc, r)]];
      }
      FileOne(before, rows, i, ByIp(keep), FoldIp, TallyIp, perIp);
    }
    assert rows[..|rows|] == rows;
  }

  lemma EmptyFolds()
    ensures FoldIp([]) == EMPTY && FoldSubnet([]) == EMPTY
  {
  }

  /** load_litnet_per_subnet, up to the min_windows filter. */
  method LoadPerSubnet(rows: seq<Record>, keep: string -> bool, subnetOf: string -> Option<string>)
    returns (perSubnet: Table)
    ensures Collects(perSubnet, rows, BySubnet(keep, subnetOf), FoldSubnet)
  {
    hide TallySubnet, FoldSubnet, Collects;
    FoldsStep();
    perSubnet := map[];
    EmptyFolds();
    EmptyCollects(rows, BySubnet(keep, subnetOf), FoldSubnet);
    for i := 0 to |rows|
      invariant Collects(perSubnet, rows[..i], BySubnet(keep, subnetOf), FoldSubnet)
    {
      var r := rows[i];
      ghost var before := perSubnet;
      if keep(r.da) {
        var subnet := subnetOf(r.da);
        if subnet.Some? {
          var s := subnet.value;
          if s !in perSubnet {
            perSubnet := perSubnet[s := map[]];
          }
          var acc := if r.sec in perSubnet[s] then perSubnet[s][r.sec] else EMPTY;
          perSubnet := perSubnet[s := perSubnet[s][r.sec := TallySubnet(acc, r)]];
        }
      }
      FileOne(before, rows, i, BySubnet(keep, subnetOf), FoldSubnet, TallySubnet, perSubnet);
    }
    assert rows[..|rows|] == rows;
  }

  // ----- what the columns count -----

  function ColumnsOf(rs: seq<Record>): Columns {
    if rs == [] then NO_COLUMNS else AddColumns(ColumnsOf(rs[..|rs| - 1]), rs[|rs| - 1])
  }

  /** Both builders keep the same columns for the same records. */
  lemma {:induction false} ColumnsAlike(rs: seq<Record>)
    ensures FoldIp(rs).columns == ColumnsOf(rs) == FoldSubnet(rs).columns
  {
    hide AddColumns;
    if rs != [] {
      ColumnsAlike(rs[..|rs| - 1]);
    }
  }

  function SumIf(rs: seq<Record>, which: Record -> bool, f: Record -> real): real {
    if rs == [] then 0.0
    else SumIf(rs[..|rs| - 1], which, f) + if which(rs[|rs| - 1]) then f(rs[|rs| - 1]) else 0.0
  }

  function CountIf(rs: seq<Record>, which: Record -> bool): nat {
    if rs == [] then 0 else CountIf(rs[..|rs| - 1], which) + if which(rs[|rs| - 1]) then 1 else 0
  }

  /** The totals of both builders: a record's packets and bytes are those of both directions. */
  lemma {:induction false} Totals(rs: seq<Record>)
    ensures var a, b := FoldIp(rs), FoldSubnet(rs);
      && a.nFlows == b.nFlows == |rs|
      && a.nPackets == b.nPackets == SumIf(rs, (r: Record) => true, (r: Record) => r.ipkt + r.opkt)
      && a.nBytes == b.nBytes == SumIf(rs, (r: Record) => true, (r: Record) => r.ibyt + r.obyt)
  {
    if rs != [] {
      hide AddColumns;
      Totals(rs[..|rs| - 1]);
    }
  }

  /** The protocol columns sum the packets of their protocol, and the durations those that are positive. */
  lemma {:induction false} ColumnSums(rs: seq<Record>)
    ensures var c := ColumnsOf(rs);
      && c.tcp == SumIf(rs, (r: Record) => r.pr == "TCP", (r: Record) => r.ipkt + r.opkt)
      && c.udp == SumIf(rs, (r: Record) => r.pr == "UDP", (r: Record) => r.ipkt + r.opkt)
      && c.icmp == SumIf(rs, (r: Record) => r.pr == "ICMP" || r.pr == "ICMP6", (r: Record) => r.ipkt + r.opkt)
      && c.durSum == SumIf(rs, (r: Record) => r.td > 0.0, (r: Record) => r.td)
  {
    if rs != [] {
      hide Named;
      ColumnSums(rs[..|rs| - 1]);
    }
  }

  function PortsOf(rs: seq<Record>): set<string> {
    set r | r in rs && r.dp != "" :: r.dp
  }

  lemma PortsStep(rs: seq<Record>, r: Record)
    ensures PortsOf(rs + [r]) == PortsOf(rs) + if r.dp != "" then {r.dp} else {}
  {
    assert forall q :: q in rs + [r] <==> q in rs || q == r;
  }

  /** The counting columns: positive durations, records without an answer, attack records. */
  lemma {:induction false} ColumnCounts(rs: seq<Record>)
    ensures var c := ColumnsOf(rs);
      && c.durN == CountIf(rs, (r: Record) => r.td > 0.0)
      && c.fwdOnly == CountIf(rs, (r: Record) => r.opkt == 0.0)
      && c.attackFlows == CountIf(rs, (r: Record) => r.isAttack)
  {
    if rs != [] {
      hide Named, Packets;
      ColumnCounts(rs[..|rs| - 1]);
    }
  }

  /** The attack records of one name. */
  function AttacksNamed(rs: seq<Record>, name: string): nat {
    CountIf(rs, (r: Record) => r.isAttack && r.attackType == name)
  }

  lemma AttacksNamedStep(rs: seq<Record>, r: Record, name: string)
    ensures AttacksNamed(rs + [r], name) == AttacksNamed(rs, name) + if r.isAttack && r.attackType == name then 1 else 0
  {
    assert (rs + [r])[..|rs|] == rs;
  }

  /** The port column holds the distinct ports, and every attack name that is neither empty nor "none"
      and occurs is counted exactly as often as it occurs. */
  lemma {:induction false} ColumnNames(rs: seq<Record>)
    ensures ColumnsOf(rs).dstPorts == PortsOf(rs)
    ensures var types := ColumnsOf(rs).attackTypes;
      forall name ::
        && (name in types <==> name != "" && name != "none" && AttacksNamed(rs, name) > 0)
        && (name in types ==> types[name] == AttacksNamed(rs, name))
  {
    if rs == [] {
      assert PortsOf(rs) == {};
    } else {
      hide Packets, PortsOf, AttacksNamed;
      var n := |rs| - 1;
      assert rs == rs[..n] + [rs[n]];
      ColumnNames(rs[..n]);
      PortsStep(rs[..n], rs[n]);
      var c, r := ColumnsOf(rs[..n]), rs[n];
      var c' := AddColumns(c, r);
      assert ColumnsOf(rs) == c';
      hide ColumnsOf;
      forall name
        ensures name in c'.attackTypes <==> name != "" && name != "none" && AttacksNamed(rs, name) > 0
        ensures name in c'.attackTypes ==> c'.attackTypes[name] == AttacksNamed(rs, name)
      {
        AttacksNamedStep(rs[..n], r, name);
      }
    }
  }

  // ----- whose records they are -----

  predicate Wanted(filing: Filing, owner: string, sec: int, r: Record) {
    filing(r) == Some(owner) && r.sec == sec
  }

  lemma SelectMore(rows: seq<Record>, last: Record, filing: Filing, owner: string, sec: int)
    ensures var kept := Select(rows, filing, owner, sec);
      Select(rows + [last], filing, owner, sec) == if Wanted(filing, owner, sec, last) then kept + [last] else kept
  {
    assert (rows + [last])[..|rows|] == rows;
  }

  lemma {:induction false} SelectedBy(rows: seq<Record>, filing: Filing, owner: string, sec: int, r: Record)
    ensures multiset(Select(rows, filing, owner, sec))[r]
         == if Wanted(filing, owner, sec, r) then multiset(rows)[r] else 0
  {
    if rows != [] {
      hide Wanted;
      var n := |rows| - 1;
      var last, kept := rows[n], Select(rows[..n], filing, owner, sec);
      SelectedBy(rows[..n], filing, owner, sec, r);
      hide Select;
      SelectMore(rows[..n], last, filing, owner, sec);
      assert rows[..n] + [last] == rows;
      TakenOrNot(rows[..n], kept, last, Wanted(filing, owner, sec, last), r, Wanted(filing, owner, sec, r));
    }
  }

  /** An owner's records of a second, each as often as it was read: for a destination those sent to it if
      it is kept, for a subnet those sent to a kept address of it. */
  lemma Selected(rows: seq<Record>, keep: string -> bool, subnetOf: string -> Option<string>, owner: string,
      sec: int, r: Record)
    ensures multiset(Select(rows, ByIp(keep), owner, sec))[r]
         == if r.sec == sec && keep(r.da) && r.da == owner then multiset(rows)[r] else 0
    ensures multiset(Select(rows, BySubnet(keep, subnetOf), owner, sec))[r]
         == if r.sec == sec && keep(r.da) && subnetOf(r.da) == Some(owner) then multiset(rows)[r] else 0
  {
    SelectedBy(rows, ByIp(keep), owner, sec, r);
    SelectedBy(rows, BySubnet(keep, subnetOf), owner, sec, r);
  }

  lemma TakenOrNot(rs: seq<Record>, kept: seq<Record>, last: Record, takes: bool, r: Record, wanted: bool)
    requires multiset(kept)[r] == (if wanted then multiset(rs)[r] else 0) && (last == r ==> takes == wanted)
    ensures multiset(if takes then kept + [last] else kept)[r] == if wanted then multiset(rs + [last])[r] else 0
  {
  }
}
