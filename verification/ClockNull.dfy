// The clock-only null: a score that is minus the window index, under the deposited split and under
// the three-way split.
module ClockNull {
  import opened RealMath
  import opened Sequences
  import opened Ranks
  import opened RankAuc

  /** A window: its sort key and its ground-truth label. */
  datatype Row = Row(key: real, attack: bool)

  type Labels = seq<bool>

  function LabelsOf(rows: seq<Row>): (y: Labels)
    ensures |y| == |rows|
  {
    Map(rows, (r: Row) => r.attack)
  }

  function Attacks(y: Labels): (n: nat)
    ensures n <= |y|
  {
    if y == [] then 0 else Attacks(y[..|y| - 1]) + if y[|y| - 1] then 1 else 0
  }

  function Benign(y: Labels): nat {
    |y| - Attacks(y)
  }

  /** (attack, benign) pairs, in either order. */
  function ClassPairs(y: Labels): nat {
    Attacks(y) * Benign(y)
  }

  /** The clock scores, minus the index, of the windows with the given label. */
  function ClockScores(y: Labels, which: bool): seq<real> {
    if y == [] then []
    else
      var n := |y| - 1;
      ClockScores(y[..n], which) + if y[n] == which then [-(n as real)] else []
  }

  datatype Clock = EmptyStream | OneClass | Scored(auc: real, separability: real)

  /** clock(): min() of an empty stream is an error, a single class has no AUC, and otherwise the
      ROC AUC of the clock scores together with its two-sided reading. */
  function ClockOf(rows: seq<Row>): Clock {
    var y := LabelsOf(rows);
    var attack, benign := ClockScores(y, true), ClockScores(y, false);
    if y == [] then EmptyStream
    else if attack == [] || benign == [] then OneClass
    else Scored(PairAuc(attack, benign), Max(PairAuc(attack, benign), 1.0 - PairAuc(attack, benign)))
  }

  /** label_runs(): 1 plus the number of label changes, 0 for an empty vector. */
  function LabelRuns(y: Labels): nat {
    if y == [] then 0
    else if |y| == 1 then 1
    else LabelRuns(y[..|y| - 1]) + if y[|y| - 1] != y[|y| - 2] then 1 else 0
  }

  // ----- the clock AUC counts ordered pairs -----

  /** Pairs i < j with an attack at i and a benign window at j. */
  function AttackFirst(y: Labels): nat {
    if y == [] then 0
    else AttackFirst(y[..|y| - 1]) + if y[|y| - 1] then 0 else Attacks(y[..|y| - 1])
  }

  lemma {:induction false} WinsConcatLeft(a: seq<real>, b: seq<real>, c: seq<real>)
    ensures Wins(a + b, c) == Wins(a, c) + Wins(b, c)
    ensures Ties(a + b, c) == Ties(a, c) + Ties(b, c)
  {
    if a == [] {
      assert a + b == b;
    } else {
      WinsConcatLeft(a[1..], b, c);
      assert (a + b)[1..] == a[1..] + b;
    }
  }

  lemma {:induction false} ClockScoresAre(y: Labels, which: bool)
    ensures |ClockScores(y, which)| == if which then Attacks(y) else Benign(y)
    ensures Attacks(y) <= |y|
    ensures forall i :: 0 <= i < |ClockScores(y, which)| ==> -(|y| as real) < ClockScores(y, which)[i]
  {
    if y != [] {
      ClockScoresAre(y[..|y| - 1], which);
    }
  }

  lemma {:induction false} AllAboveOne(a: seq<real>, v: real)
    requires forall i :: 0 <= i < |a| ==> v < a[i]
    ensures Wins(a, [v]) == |a| && Ties(a, [v]) == 0
    ensures Wins([v], a) == 0 && Ties([v], a) == 0
  {
    PairsWithOne(a, v);
    CountsUniform(a, v);
    assert [v][1..] == [];
  }

  lemma {:induction false} ClockPairs(y: Labels)
    ensures Wins(ClockScores(y, true), ClockScores(y, false)) == AttackFirst(y)
    ensures Ties(ClockScores(y, true), ClockScores(y, false)) == 0
  {
    if y != [] {
      var n := |y| - 1;
      var v := -(n as real);
      var a, b := ClockScores(y[..n], true), ClockScores(y[..n], false);
      ClockPairs(y[..n]);
      ClockScoresAre(y[..n], true);
      ClockScoresAre(y[..n], false);
      if y[n] {
        WinsConcatLeft(a, [v], b);
        AllAboveOne(b, v);
        assert b + [] == b;
      } else {
        PairsConcat(a, b, [v]);
        AllAboveOne(a, v);
        assert a + [] == a;
      }
    }
  }

  /** The clock AUC times the number of pairs is the number of attack-first pairs. */
  lemma ClockIs(rows: seq<Row>)
    ensures var y, c := LabelsOf(rows), ClockOf(rows);
      && (c.EmptyStream? <==> rows == [])
      && (c.OneClass? <==> rows != [] && (Attacks(y) == 0 || Benign(y) == 0))
      && (c.Scored? ==>
           && 0 < ClassPairs(y)
           && c.auc * ClassPairs(y) as real == AttackFirst(y) as real
           && 0.0 <= c.auc <= 1.0
           && c.separability == Max(c.auc, 1.0 - c.auc))
  {
    hide PairAuc, Attacks, AttackFirst, Max, ClockScores, Wins, Ties;
    var y := LabelsOf(rows);
    var a, b := ClockScores(y, true), ClockScores(y, false);
    ClockScoresAre(y, true);
    ClockScoresAre(y, false);
    assert |a| * |b| == ClassPairs(y);
    hide ClassPairs;
    ClockPairs(y);
    if a != [] && b != [] {
      PairAucTimesPairs(a, b);
      PairAucSwap(a, b);
    }
  }

  // ----- separability and label runs -----

  function Flip(y: Labels): Labels {
    Map(y, (b: bool) => !b)
  }

  lemma ClassPairsStep(y: Labels)
    requires y != []
    ensures var n := |y| - 1;
      ClassPairs(y) == ClassPairs(y[..n]) + if y[n] then Benign(y[..n]) else Attacks(y[..n])
  {
  }

  lemma {:induction false} FlipFacts(y: Labels)
    ensures Attacks(Flip(y)) == Benign(y) && Attacks(y) <= |y|
    ensures LabelRuns(Flip(y)) == LabelRuns(y)
    ensures AttackFirst(y) + AttackFirst(Flip(y)) == ClassPairs(y)
  {
    if y != [] {
      var n := |y| - 1;
      FlipFacts(y[..n]);
      assert Flip(y)[..n] == Flip(y[..n]);
      assert n > 0 ==> Flip(y)[n - 1] == !y[n - 1];
      ClassPairsStep(y);
      hide ClassPairs;
    }
  }

  /** Each run flips the label once. */
  lemma {:induction false} RunsParity(y: Labels)
    requires y != []
    ensures LabelRuns(y) >= 1
    ensures (y[|y| - 1] == y[0]) <==> LabelRuns(y) % 2 == 1
  {
    if |y| > 1 {
      RunsParity(y[..|y| - 1]);
    }
  }

  lemma {:induction false} NoAttacks(y: Labels)
    ensures Attacks(y) == 0 <==> y == [] || (LabelRuns(y) == 1 && !y[0])
  {
    if y != [] {
      var n := |y| - 1;
      NoAttacks(y[..n]);
      if n > 0 {
        RunsParity(y[..n]);
      }
    }
  }

  /** No attack-first pair: one run, or benign then attack. */
  lemma {:induction false} ZeroPairs(y: Labels)
    ensures AttackFirst(y) == 0 <==> LabelRuns(y) <= 1 || (LabelRuns(y) == 2 && !y[0])
  {
    if y != [] {
      var n := |y| - 1;
      ZeroPairs(y[..n]);
      NoAttacks(y[..n]);
      if n > 0 {
        RunsParity(y[..n]);
      }
    }
  }

  /** The clock separates a stream perfectly, in one sign or the other, exactly when its labels form
      two runs. */
  lemma PerfectIffTwoRuns(rows: seq<Row>)
    requires ClockOf(rows).Scored?
    ensures ClockOf(rows).separability == 1.0 <==> LabelRuns(LabelsOf(rows)) == 2
    ensures ClockOf(rows).auc == 1.0 <==> LabelRuns(LabelsOf(rows)) == 2 && rows[0].attack
    ensures 0.5 <= ClockOf(rows).separability <= 1.0
  {
    hide ClockOf, LabelRuns, AttackFirst, Attacks;
    var y := LabelsOf(rows);
    ClockIs(rows);
    FlipFacts(y);
    ZeroPairs(y);
    ZeroPairs(Flip(y));
    BothClasses(y);
    FractionEnds(ClockOf(rows).auc, AttackFirst(y), ClassPairs(y));
  }

  lemma BothClasses(y: Labels)
    ensures 0 < ClassPairs(y) ==> LabelRuns(y) >= 2 && y != []
  {
    if y != [] && 0 < ClassPairs(y) {
      FlipFacts(y);
      RunsParity(y);
      NoAttacks(y);
      NoAttacks(Flip(y));
    }
  }

  lemma FractionEnds(a: real, k: nat, n: nat)
    requires 0 < n && a * n as real == k as real
    ensures a == 1.0 <==> k == n
    ensures a == 0.0 <==> k == 0
  {
    var m := n as real;
    assert a * m == k as real && 1.0 * m == m && 0.0 * m == 0.0;
    if k == n {
      DivideOut(a, 1.0, m);
      DivideOut(1.0, a, m);
    }
    if k == 0 {
      DivideOut(a, 0.0, m);
      DivideOut(0.0, a, m);
    }
  }

  // ----- the two splits -----

  datatype Mode = Within | Crossday | Other(name: string)

  datatype Streams = Unsupported | NoAttack | Streams(deposited: seq<Row>, threeway: seq<Row>)

  function FirstAttack(rows: seq<Row>): (i: nat)
    ensures i <= |rows|
    ensures forall j :: 0 <= j < i ==> !rows[j].attack
    ensures i < |rows| ==> rows[i].attack
  {
    if rows == [] || rows[0].attack then 0 else 1 + FirstAttack(rows[1..])
  }

  function KeyOf(r: Row): real {
    r.key
  }

  /** int(len(pre) * 0.8) */
  function Cut(n: nat): (c: nat)
    ensures c <= n
  {
    (n as real * 0.8).Floor
  }

  /** streams(): the deposited test stream and the three-way one. */
  function StreamsOf(rows: seq<Row>, mode: Mode): Streams {
    match mode
    case Crossday => Streams(rows, rows)
    case Within =>
      var i := FirstAttack(rows);
      if i == |rows| then NoAttack
      else
        var pre, post := rows[..i], rows[i..];
        Streams(post, Sort(pre[Cut(|pre|)..] + post, KeyOf))
    case Other(_) => Unsupported
  }

  lemma {:induction false} PrependBenign(k: nat, y: Labels)
    ensures var z := seq(k, _ => false) + y;
      Attacks(z) == Attacks(y) && AttackFirst(z) == AttackFirst(y) && |z| == k + |y|
  {
    if y == [] {
      assert seq(k, _ => false) + y == seq(k, _ => false);
      AllBenign(k);
    } else {
      PrependBenign(k, y[..|y| - 1]);
      var z := seq(k, _ => false) + y;
      assert z[..|z| - 1] == seq(k, _ => false) + y[..|y| - 1];
    }
  }

  lemma {:induction false} AllBenign(k: nat)
    ensures Attacks(seq(k, _ => false)) == 0 && AttackFirst(seq(k, _ => false)) == 0
  {
    if k > 0 {
      AllBenign(k - 1);
      assert seq(k, _ => false)[..k - 1] == seq(k - 1, _ => false);
    }
  }

  lemma LabelsSplit(rows: seq<Row>, c: nat, i: nat)
    requires c <= i <= |rows| && forall j :: 0 <= j < i ==> !rows[j].attack
    ensures rows[..i][c..] + rows[i..] == rows[c..]
    ensures LabelsOf(rows[c..]) == seq(i - c, _ => false) + LabelsOf(rows[i..])
  {
  }

  lemma Fifth(n: nat)
    ensures n - Cut(n) == (n + 4) / 5
    ensures (n + 4) / 5 == 0 <==> n == 0
  {
    CutIs(n);
    hide Cut;
  }

  /** The three-way stream is the deposited one behind k benign windows, with k the rounded-up fifth
      of the pre-attack windows: the final sort moves nothing in a victim's sorted stream. */
  lemma ThreewayShape(rows: seq<Row>) returns (k: nat)
    requires SortedBy(rows, KeyOf) && StreamsOf(rows, Within).Streams?
    ensures k == (FirstAttack(rows) + 4) / 5
    ensures k == 0 <==> rows[0].attack
    ensures var s := StreamsOf(rows, Within);
      && LabelsOf(s.threeway) == seq(k, _ => false) + LabelsOf(s.deposited)
      && 0 < Attacks(LabelsOf(s.deposited))
  {
    hide Sort, Attacks, LabelsOf, Cut;
    var i := FirstAttack(rows);
    k := (i + 4) / 5;
    Fifth(i);
    LabelsSplit(rows, Cut(i), i);
    SortKeepsSorted(rows[Cut(i)..], KeyOf);
    OpensOnAttack(rows, i);
  }

  lemma CutIs(n: nat)
    ensures Cut(n) == 4 * n / 5
  {
    assert n as real * 0.8 == (4 * n) as real / 5.0;
  }

  lemma SortOfSorted(rows: seq<Row>, c: nat)
    requires SortedBy(rows, KeyOf) && c <= |rows|
    ensures Sort(rows[c..], KeyOf) == rows[c..]
  {
    SortKeepsSorted(rows[c..], KeyOf);
  }

  /** The two streams of a sorted victim: across days both are the whole stream; within a day the
      deposited one starts at the first attack i, the three-way one four fifths of the way to it. */
  lemma StreamsAre(rows: seq<Row>, mode: Mode)
    requires SortedBy(rows, KeyOf)
    ensures mode.Crossday? ==> StreamsOf(rows, mode) == Streams(rows, rows)
    ensures mode.Within? ==>
      if forall j :: 0 <= j < |rows| ==> !rows[j].attack then StreamsOf(rows, mode) == NoAttack
      else exists i: nat :: FirstAt(rows, i) && StreamsOf(rows, mode) == Streams(rows[i..], rows[4 * i / 5..])
  {
    hide Sort, Cut;
    var i := FirstAttack(rows);
    if mode.Within? && i < |rows| {
      CutIs(i);
      LabelsSplit(rows, Cut(i), i);
      SortOfSorted(rows, Cut(i));
      assert FirstAt(rows, i);
    }
  }

  /** Row i is the first attack row. */
  predicate FirstAt(rows: seq<Row>, i: nat) {
    i < |rows| && rows[i].attack && forall j :: 0 <= j < i ==> !rows[j].attack
  }

  lemma OpensOnAttack(rows: seq<Row>, i: nat)
    requires i < |rows| && rows[i].attack
    ensures 0 < Attacks(LabelsOf(rows[i..]))
  {
    HeadAttacks(LabelsOf(rows[i..]));
  }

  lemma {:induction false} HeadAttacks(y: Labels)
    requires y != [] && y[0]
    ensures 0 < Attacks(y)
  {
    if |y| > 1 {
      HeadAttacks(y[..|y| - 1]);
    }
  }

  lemma CrossMultiply(a: real, b: real, na: nat, nb: nat, k: nat, pairs: real)
    requires na > 0 && a * (na * nb) as real == pairs && b * (na * (nb + k)) as real == pairs
    ensures b * (nb + k) as real == a * nb as real
  {
    var m := na as real;
    assert (na * nb) as real == m * nb as real;
    assert (na * (nb + k)) as real == m * (nb + k) as real;
    assert m * (b * (nb + k) as real - a * nb as real) == 0.0;
  }

  /** Returning k pre-attack benign windows to the stream rescales the clock AUC and nothing else:
      AUC(three-way) * (nb + k) = AUC(deposited) * nb, for nb benign windows after onset. With none
      after onset the deposited stream has one class, and the three-way AUC is 0, which the two-sided
      reading reports as perfect. */
  lemma ClockIdentity(rows: seq<Row>)
    requires SortedBy(rows, KeyOf) && StreamsOf(rows, Within).Streams?
    ensures var s := StreamsOf(rows, Within);
      var nb, k := Benign(LabelsOf(s.deposited)), (FirstAttack(rows) + 4) / 5;
      && (nb > 0 ==>
           && ClockOf(s.deposited).Scored? && ClockOf(s.threeway).Scored?
           && ClockOf(s.threeway).auc * (nb + k) as real == ClockOf(s.deposited).auc * nb as real)
      && (nb == 0 ==>
           && ClockOf(s.deposited).OneClass?
           && (k > 0 ==> ClockOf(s.threeway) == Scored(0.0, 1.0)))
  {
    hide ClockOf, StreamsOf, Attacks, AttackFirst, FirstAttack, Cut, LabelsOf;
    var s := StreamsOf(rows, Within);
    var k := ThreewayShape(rows);
    PrependBenign(k, LabelsOf(s.deposited));
    ScoredWhen(s.deposited, s.threeway, k);
  }

  lemma ClockByCounts(rows: seq<Row>, na: nat, nb: nat)
    requires na == Attacks(LabelsOf(rows)) && nb == Benign(LabelsOf(rows)) && na > 0
    ensures nb == 0 ==> ClockOf(rows).OneClass?
    ensures nb > 0 ==>
      ClockOf(rows).Scored? && ClockOf(rows).auc * (na * nb) as real == AttackFirst(LabelsOf(rows)) as real
  {
    ClockIs(rows);
    hide ClockOf, Attacks, AttackFirst, Max;
    assert ClassPairs(LabelsOf(rows)) == na * nb;
    assert rows != [] by {
      NoneInNothing(rows);
    }
  }

  lemma NoneInNothing(rows: seq<Row>)
    ensures Attacks(LabelsOf(rows)) > 0 ==> rows != []
  {
  }

  lemma ZeroClock(rows: seq<Row>)
    requires ClockOf(rows).Scored? && AttackFirst(LabelsOf(rows)) == 0
    ensures ClockOf(rows) == Scored(0.0, 1.0)
  {
    ClockIs(rows);
    hide ClockOf, Attacks, AttackFirst, ClassPairs;
    FractionEnds(ClockOf(rows).auc, 0, ClassPairs(LabelsOf(rows)));
  }

  lemma ScoredWhen(dep: seq<Row>, three: seq<Row>, k: nat)
    requires var y, z := LabelsOf(dep), LabelsOf(three);
      Attacks(z) == Attacks(y) && AttackFirst(z) == AttackFirst(y) && |z| == k + |y| && 0 < Attacks(y) <= |y|
    ensures var nb := Benign(LabelsOf(dep));
      && (nb > 0 ==>
           && ClockOf(dep).Scored? && ClockOf(three).Scored?
           && ClockOf(three).auc * (nb + k) as real == ClockOf(dep).auc * nb as real)
      && (nb == 0 ==> ClockOf(dep).OneClass? && (k > 0 ==> ClockOf(three) == Scored(0.0, 1.0)))
  {
    hide ClockOf, Attacks, AttackFirst, LabelsOf, ClassPairs;
    var y, z := LabelsOf(dep), LabelsOf(three);
    var na, nb := Attacks(y), Benign(y);
    ClockByCounts(dep, na, nb);
    ClockByCounts(three, na, nb + k);
    if nb > 0 {
      CrossMultiply(ClockOf(dep).auc, ClockOf(three).auc, na, nb, k, AttackFirst(y) as real);
    } else if k > 0 {
      NoBenignNoPairs(y);
      ZeroClock(three);
    }
  }

  lemma NoBenignNoPairs(y: Labels)
    requires Benign(y) == 0
    ensures AttackFirst(y) == 0
  {
    hide Attacks, AttackFirst;
    FlipFacts(y);
    assert ClassPairs(y) == 0;
  }

  /** So the three-way split never raises the clock AUC, and lowers it unless it was 0 already or no
      benign window precedes the attack. */
  lemma ThreewayLowers(rows: seq<Row>)
    requires SortedBy(rows, KeyOf) && StreamsOf(rows, Within).Streams?
    requires ClockOf(StreamsOf(rows, Within).deposited).Scored?
    ensures var s := StreamsOf(rows, Within);
      && ClockOf(s.threeway).Scored?
      && ClockOf(s.threeway).auc <= ClockOf(s.deposited).auc
      && (ClockOf(s.threeway).auc == ClockOf(s.deposited).auc
          <==> rows[0].attack || ClockOf(s.deposited).auc == 0.0)
  {
    hide ClockOf, StreamsOf, Attacks, AttackFirst, FirstAttack, Cut, LabelsOf, ClassPairs, Max;
    var s := StreamsOf(rows, Within);
    var k := ThreewayShape(rows);
    ClockIdentity(rows);
    ClockIs(s.deposited);
    ClockIs(s.threeway);
    FlipFacts(LabelsOf(s.deposited));
    Rescaled(ClockOf(s.deposited).auc, ClockOf(s.threeway).auc, Benign(LabelsOf(s.deposited)), k);
  }

  lemma Rescaled(a: real, b: real, nb: nat, k: nat)
    requires nb > 0 && 0.0 <= a && b * (nb + k) as real == a * nb as real
    ensures b <= a && (b == a <==> k == 0 || a == 0.0)
  {
    var n, d := nb as real, k as real;
    assert (nb + k) as real == n + d;
    MulMonotone(0.0, a, n);
    DivideOut(0.0, b, n + d);
    MulMonotone(0.0, b, d);
    assert b * (n + d) == b * n + b * d;
    DivideOut(b, a, n);
    if k > 0 && b > 0.0 {
      ProductPositive(b, d);
    }
    if k == 0 {
      DivideOut(a, b, n);
    }
    if b == 0.0 {
      DivideOut(a, 0.0, n);
    }
  }
}
