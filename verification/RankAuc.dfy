// The Mann-Whitney AUC with averaged ties.
module RankAuc {
  import opened RealMath
  import opened Sequences
  import opened Ranks

  /** rank_auc: the rank-sum form, made two-sided. */
  function RankAuc(a: seq<real>, b: seq<real>): real {
    if a == [] || b == [] then 0.5
    else
      var n1, n0 := |a|, |b|;
      var auc := (Sum(RanksOf(a, a + b)) - (n1 * (n1 + 1)) as real / 2.0) / (n1 * n0) as real;
      Max(auc, 1.0 - auc)
  }

  /** The share of pairs in which a's element wins, ties counting half. */
  function PairAuc(a: seq<real>, b: seq<real>): real
    requires a != [] && b != []
  {
    (Wins(a, b) as real + Ties(a, b) as real / 2.0) / (|a| * |b|) as real
  }

  lemma PairCountPositive(a: seq<real>, b: seq<real>)
    requires a != [] && b != []
    ensures |a| * |b| > 0
  {
  }

  lemma PairAucTimesPairs(a: seq<real>, b: seq<real>)
    requires a != [] && b != []
    ensures 0 < |a| * |b|
    ensures PairAuc(a, b) * (|a| * |b|) as real == Wins(a, b) as real + Ties(a, b) as real / 2.0
  {
    hide Wins, Ties;
    PairCountPositive(a, b);
    var n, x := |a| * |b|, Wins(a, b) as real + Ties(a, b) as real / 2.0;
    assert PairAuc(a, b) == x / n as real;
    hide PairAuc;
    QuotientTimes(x, n as real);
  }

  lemma Shares(w: real, l: real, n: real)
    requires 0.0 < n && w + l == n && 0.0 <= w && 0.0 <= l
    ensures w / n + l / n == 1.0
    ensures 0.0 <= w / n <= 1.0
    ensures w / n == 1.0 <==> l == 0.0
    ensures w / n == 0.0 <==> w == 0.0
  {
    assert w / n * n == w;
    assert l / n * n == l;
  }

  /** Swapping the samples complements the AUC. */
  lemma PairAucSwap(a: seq<real>, b: seq<real>)
    requires a != [] && b != []
    ensures PairAuc(a, b) + PairAuc(b, a) == 1.0
    ensures 0.0 <= PairAuc(a, b) <= 1.0
    ensures PairAuc(a, b) == 1.0 <==> Wins(a, b) == |a| * |b|
    ensures PairAuc(a, b) == 0.0 <==> Wins(b, a) == |a| * |b|
  {
    PairCountPositive(a, b);
    PairsPartition(a, b);
    assert |a| * |b| == |b| * |a|;
    Shares(Wins(a, b) as real + Ties(a, b) as real / 2.0, Wins(b, a) as real + Ties(b, a) as real / 2.0,
      (|a| * |b|) as real);
  }

  /** The rank-sum form counts pairs. */
  lemma RankAucIsPairs(a: seq<real>, b: seq<real>)
    requires a != [] && b != []
    ensures RankAuc(a, b) == Max(PairAuc(a, b), 1.0 - PairAuc(a, b))
  {
    RankSumSplit(a, b);
  }

  /** The two-sided AUC is at least one half, at most one, and blind to which sample comes first. */
  lemma RankAucRange(a: seq<real>, b: seq<real>)
    ensures 0.5 <= RankAuc(a, b) <= 1.0
    ensures RankAuc(a, b) == RankAuc(b, a)
    ensures a == [] || b == [] ==> RankAuc(a, b) == 0.5
  {
    if a != [] && b != [] {
      RankAucIsPairs(a, b);
      RankAucIsPairs(b, a);
      PairAucSwap(a, b);
    }
  }

  /** Every element of a is above every element of b. */
  predicate Above(a: seq<real>, b: seq<real>) {
    forall i, j :: 0 <= i < |a| && 0 <= j < |b| ==> b[j] < a[i]
  }

  lemma {:induction false} AllBelowCount(xs: seq<real>, v: real)
    ensures CountBelow(xs, v) <= |xs|
    ensures CountBelow(xs, v) == |xs| <==> forall j :: 0 <= j < |xs| ==> xs[j] < v
  {
    if xs != [] {
      AllBelowCount(xs[1..], v);
      assert xs == [xs[0]] + xs[1..];
    }
  }

  lemma {:induction false} AllWins(a: seq<real>, b: seq<real>)
    ensures Wins(a, b) <= |a| * |b|
    ensures Wins(a, b) == |a| * |b| <==> Above(a, b)
  {
    if a != [] {
      AllWins(a[1..], b);
      AllBelowCount(b, a[0]);
      OneRowMore(|a[1..]|, |b|);
      assert a == [a[0]] + a[1..];
      assert Above(a, b) <==> Above(a[1..], b) && forall j :: 0 <= j < |b| ==> b[j] < a[0];
    }
  }

  /** A perfect score means the two samples do not overlap and share no value: ties cannot fake it. */
  lemma PerfectIffSeparated(a: seq<real>, b: seq<real>)
    requires a != [] && b != []
    ensures RankAuc(a, b) == 1.0 <==> Above(a, b) || Above(b, a)
  {
    RankAucIsPairs(a, b);
    PairAucSwap(a, b);
    AllWins(a, b);
    AllWins(b, a);
    assert |a| * |b| == |b| * |a|;
  }

  /** f keeps the order and the ties of the pooled values. */
  ghost predicate OrderKeeping(f: real -> real, xs: seq<real>, ys: seq<real>) {
    forall i, j :: 0 <= i < |xs| && 0 <= j < |ys| ==>
      (xs[i] < ys[j] <==> f(xs[i]) < f(ys[j])) && (xs[i] == ys[j] <==> f(xs[i]) == f(ys[j]))
  }

  lemma {:induction false} CountsTransformed(xs: seq<real>, v: real, f: real -> real)
    requires OrderKeeping(f, xs, [v])
    ensures CountBelow(Map(xs, f), f(v)) == CountBelow(xs, v)
    ensures CountEqual(Map(xs, f), f(v)) == CountEqual(xs, v)
  {
    if xs != [] {
      assert xs[0] < [v][0] <==> f(xs[0]) < f([v][0]);
      CountsTransformed(xs[1..], v, f);
      assert Map(xs, f)[1..] == Map(xs[1..], f);
    }
  }

  lemma {:induction false} PairsTransformed(a: seq<real>, b: seq<real>, f: real -> real)
    requires OrderKeeping(f, b, a)
    ensures Wins(Map(a, f), Map(b, f)) == Wins(a, b)
    ensures Ties(Map(a, f), Map(b, f)) == Ties(a, b)
  {
    if a != [] {
      CountsTransformed(b, a[0], f);
      PairsTransformed(a[1..], b, f);
      assert Map(a, f)[1..] == Map(a[1..], f);
    }
  }

  lemma PairAucTransformed(a: seq<real>, b: seq<real>, f: real -> real)
    requires a != [] && b != [] && OrderKeeping(f, b, a)
    ensures PairAuc(Map(a, f), Map(b, f)) == PairAuc(a, b)
  {
    hide Wins, Ties;
    PairsTransformed(a, b, f);
  }

  /** Only the order of the scores matters. */
  lemma RankAucTransformed(a: seq<real>, b: seq<real>, f: real -> real)
    requires forall x, y :: x in a + b && y in a + b && x < y ==> f(x) < f(y)
    ensures RankAuc(Map(a, f), Map(b, f)) == RankAuc(a, b)
  {
    if a != [] && b != [] {
      hide RankAuc, PairAuc;
      KeepsOrder(a, b, f);
      PairAucTransformed(a, b, f);
      RankAucIsPairs(a, b);
      RankAucIsPairs(Map(a, f), Map(b, f));
    }
  }

  lemma KeepsOrder(a: seq<real>, b: seq<real>, f: real -> real)
    requires forall x, y :: x in a + b && y in a + b && x < y ==> f(x) < f(y)
    ensures OrderKeeping(f, b, a)
  {
    forall i, j | 0 <= i < |b| && 0 <= j < |a|
      ensures (b[i] < a[j] <==> f(b[i]) < f(a[j])) && (b[i] == a[j] <==> f(b[i]) == f(a[j]))
    {
      assert b[i] in a + b && a[j] in a + b;
    }
  }
}
