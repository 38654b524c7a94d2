// Average ranks: the tie loop of the signed-rank test, and the pair counts behind the rank AUC.
module Ranks {
  import opened RealMath
  import opened Sequences

  function CountBelow(xs: seq<real>, v: real): nat {
    if xs == [] then 0 else (if xs[0] < v then 1 else 0) + CountBelow(xs[1..], v)
  }

  function CountEqual(xs: seq<real>, v: real): nat {
    if xs == [] then 0 else (if xs[0] == v then 1 else 0) + CountEqual(xs[1..], v)
  }

  function CountAbove(xs: seq<real>, v: real): nat {
    if xs == [] then 0 else (if xs[0] > v then 1 else 0) + CountAbove(xs[1..], v)
  }

  /** The average rank of value v in the sample xs: #smaller + (#equal + 1) / 2. */
  function MidRank(xs: seq<real>, v: real): real {
    CountBelow(xs, v) as real + (CountEqual(xs, v) + 1) as real / 2.0
  }

  // ----- counting -----

  lemma {:induction false} CountsConcat(a: seq<real>, b: seq<real>, v: real)
    ensures CountBelow(a + b, v) == CountBelow(a, v) + CountBelow(b, v)
    ensures CountEqual(a + b, v) == CountEqual(a, v) + CountEqual(b, v)
  {
    if a == [] {
      assert a + b == b;
    } else {
      CountsConcat(a[1..], b, v);
      assert (a + b)[1..] == a[1..] + b;
    }
  }

  lemma {:induction false} CountsOfMultiset(a: seq<real>, b: seq<real>, v: real)
    requires multiset(a) == multiset(b)
    ensures CountBelow(a, v) == CountBelow(b, v) && CountEqual(a, v) == CountEqual(b, v)
  {
    if a == [] {
      assert |multiset(b)| == |b| == 0;
    } else {
      var k := RemoveFirst(a, b);
      CountsOfMultiset(a[1..], b[..k] + b[k + 1..], v);
      CountsConcat(b[..k], b[k + 1..], v);
      CountsConcat(b[..k], b[k..], v);
      assert b == b[..k] + b[k..];
      assert b[k..][1..] == b[k + 1..];
    }
  }

  lemma {:induction false} CountsPartition(xs: seq<real>, v: real)
    ensures CountBelow(xs, v) + CountEqual(xs, v) + CountAbove(xs, v) == |xs|
  {
    if xs != [] {
      CountsPartition(xs[1..], v);
    }
  }

  lemma {:induction false} CountsUniform(xs: seq<real>, v: real)
    ensures (forall t :: 0 <= t < |xs| ==> xs[t] < v) ==> CountBelow(xs, v) == |xs| && CountEqual(xs, v) == 0
    ensures (forall t :: 0 <= t < |xs| ==> xs[t] == v) ==> CountBelow(xs, v) == 0 && CountEqual(xs, v) == |xs|
    ensures (forall t :: 0 <= t < |xs| ==> v < xs[t]) ==> CountBelow(xs, v) == 0 && CountEqual(xs, v) == 0
  {
    if xs != [] {
      CountsUniform(xs[1..], v);
    }
  }

  lemma {:induction false} CountEqualPositive(xs: seq<real>, i: nat)
    requires i < |xs|
    ensures CountEqual(xs, xs[i]) >= 1
  {
    if i > 0 {
      CountEqualPositive(xs[1..], i - 1);
    }
  }

  // ----- the tie loop -----

  function InOrder(keys: seq<real>, order: seq<nat>): seq<real> {
    Map(order, i => KeyAt(keys, i))
  }

  lemma InOrderCounts(keys: seq<real>, order: seq<nat>, v: real)
    requires IsPermutation(order, |keys|)
    ensures CountBelow(keys, v) == CountBelow(InOrder(keys, order), v)
    ensures CountEqual(keys, v) == CountEqual(InOrder(keys, order), v)
  {
    MapKeepsMultiset(order, Iota(|keys|), i => KeyAt(keys, i));
    assert Map(Iota(|keys|), i => KeyAt(keys, i)) == keys;
    CountsOfMultiset(keys, InOrder(keys, order), v);
  }

  lemma BlockCounts(a: seq<real>, b: seq<real>, c: seq<real>, v: real)
    requires forall t :: 0 <= t < |a| ==> a[t] < v
    requires forall t :: 0 <= t < |b| ==> b[t] == v
    requires forall t :: 0 <= t < |c| ==> v < c[t]
    ensures CountBelow(a + b + c, v) == |a| && CountEqual(a + b + c, v) == |b|
  {
    CountsConcat(a + b, c, v);
    CountsConcat(a, b, v);
    CountsUniform(a, v);
    CountsUniform(b, v);
    CountsUniform(c, v);
  }

  /** A maximal run of equal values in positions i..j of a sorted list has average rank (i + j)/2 + 1. */
  lemma BlockRank(s: seq<real>, i: nat, j: nat)
    requires i <= j < |s| && forall p, q :: 0 <= p < q < |s| ==> s[p] <= s[q]
    requires forall t :: i <= t <= j ==> s[t] == s[i]
    requires i > 0 ==> s[i - 1] < s[i]
    requires j + 1 < |s| ==> s[i] < s[j + 1]
    ensures MidRank(s, s[i]) == (i + j) as real / 2.0 + 1.0
  {
    hide CountBelow, CountEqual;
    var a, b, c := s[..i], s[i..j + 1], s[j + 1..];
    assert s == a + b + c;
    BlockCounts(a, b, c, s[i]);
  }

  lemma BlockRankInOrder(keys: seq<real>, order: seq<nat>, i: nat, j: nat)
    requires SortsIndices(order, keys) && i <= j < |order|
    requires forall t :: i <= t <= j ==> KeyAt(keys, order[t]) == KeyAt(keys, order[i])
    requires i > 0 ==> KeyAt(keys, order[i - 1]) < KeyAt(keys, order[i])
    requires j + 1 < |order| ==> KeyAt(keys, order[j + 1]) != KeyAt(keys, order[i])
    ensures MidRank(keys, KeyAt(keys, order[i])) == (i + j) as real / 2.0 + 1.0
  {
    InOrderCounts(keys, order, KeyAt(keys, order[i]));
    BlockRank(InOrder(keys, order), i, j);
  }

  /** The while loop of exact_signed_rank_p: every element gets its average rank, whichever of the
      possible orders the sort returned. */
  method AverageRanks(keys: seq<real>, order: seq<nat>) returns (rk: seq<real>)
    requires SortsIndices(order, keys)
    ensures |rk| == |keys|
    ensures forall i :: 0 <= i < |keys| ==> rk[i] == MidRank(keys, keys[i])
  {
    hide MidRank;
    PermutationFacts(order, |keys|);
    var n := |keys|;
    var buffer := new real[n](_ => 0.0);
    var i := 0;
    while i < n
      invariant 0 <= i <= n
      invariant 0 < i < n ==> KeyAt(keys, order[i - 1]) < KeyAt(keys, order[i])
      invariant forall t :: 0 <= t < i ==> buffer[order[t]] == MidRank(keys, KeyAt(keys, order[t]))
    {
      var j := i;
      while j + 1 < n && keys[order[j + 1]] == keys[order[i]]
        invariant i <= j < n
        invariant forall t :: i <= t <= j ==> KeyAt(keys, order[t]) == KeyAt(keys, order[i])
      {
        j := j + 1;
      }
      BlockRankInOrder(keys, order, i, j);
      for k := i to j + 1
        invariant forall t :: 0 <= t < k ==> buffer[order[t]] == MidRank(keys, KeyAt(keys, order[t]))
      {
        buffer[order[k]] := (i + j) as real / 2.0 + 1.0;
      }
      i := j + 1;
    }
    rk := buffer[..];
    forall k | 0 <= k < n ensures rk[k] == MidRank(keys, keys[k]) {
      assert k in order;
      var t :| 0 <= t < n && order[t] == k;
    }
  }

  // ----- pairs between two samples -----

  /** Pairs (x in a, y in b) with x > y. */
  function Wins(a: seq<real>, b: seq<real>): nat {
    if a == [] then 0 else CountBelow(b, a[0]) + Wins(a[1..], b)
  }

  /** Pairs (x in a, y in b) with x == y. */
  function Ties(a: seq<real>, b: seq<real>): nat {
    if a == [] then 0 else CountEqual(b, a[0]) + Ties(a[1..], b)
  }

  lemma {:induction false} PairsConcat(a: seq<real>, b: seq<real>, c: seq<real>)
    ensures Wins(a, b + c) == Wins(a, b) + Wins(a, c)
    ensures Ties(a, b + c) == Ties(a, b) + Ties(a, c)
  {
    if a != [] {
      CountsConcat(b, c, a[0]);
      PairsConcat(a[1..], b, c);
    }
  }

  lemma {:induction false} PairsWithOne(a: seq<real>, v: real)
    ensures Wins(a, [v]) + CountBelow(a, v) + CountEqual(a, v) == |a|
    ensures Ties(a, [v]) == CountEqual(a, v)
  {
    if a != [] {
      PairsWithOne(a[1..], v);
      CountsUniform([v], a[0]);
    }
  }

  /** Every pair is won, lost or tied. */
  lemma {:induction false} PairsPartition(a: seq<real>, b: seq<real>)
    ensures Wins(a, b) + Wins(b, a) + Ties(a, b) == |a| * |b|
    ensures Ties(a, b) == Ties(b, a)
  {
    if a == [] {
      PairsWithNone(b);
    } else {
      PairsPartition(a[1..], b);
      PairsWithOne(b, a[0]);
      assert a == [a[0]] + a[1..];
      PairsConcat(b, [a[0]], a[1..]);
      assert Wins(a, b) == CountBelow(b, a[0]) + Wins(a[1..], b);
      assert Ties(a, b) == CountEqual(b, a[0]) + Ties(a[1..], b);
      OneRowMore(|a[1..]|, |b|);
      hide Wins, Ties, CountBelow, CountEqual;
    }
  }

  lemma OneRowMore(m: nat, n: nat)
    ensures (m + 1) * n == m * n + n
  {
  }

  lemma {:induction false} PairsWithNone(b: seq<real>)
    ensures Wins(b, []) == 0 && Ties(b, []) == 0
  {
    if b != [] {
      PairsWithNone(b[1..]);
    }
  }

  /** The ranks, in the pooled sample xs, of the elements of a. */
  function RanksOf(a: seq<real>, xs: seq<real>): seq<real> {
    Map(a, v => MidRank(xs, v))
  }

  lemma {:induction false} SumConcat(a: seq<real>, b: seq<real>)
    ensures Sum(a + b) == Sum(a) + Sum(b)
  {
    if b == [] {
      assert a + b == a;
    } else {
      var n := |b| - 1;
      assert (a + b)[..|a| + n] == a + b[..n];
      SumConcat(a, b[..n]);
    }
  }

  lemma {:induction false} RankSumIsPairs(a: seq<real>, xs: seq<real>)
    ensures Sum(RanksOf(a, xs)) == Wins(a, xs) as real + (Ties(a, xs) + |a|) as real / 2.0
  {
    if a != [] {
      RankSumIsPairs(a[1..], xs);
      assert RanksOf(a, xs) == [MidRank(xs, a[0])] + RanksOf(a[1..], xs);
      SumConcat([MidRank(xs, a[0])], RanksOf(a[1..], xs));
      assert [MidRank(xs, a[0])][..0] == [];
    }
  }

  /** The rank sum of one sample: its own n(n+1)/2 plus its wins and half its ties. */
  lemma RankSumSplit(a: seq<real>, b: seq<real>)
    ensures Sum(RanksOf(a, a + b))
         == (|a| * (|a| + 1)) as real / 2.0 + Wins(a, b) as real + Ties(a, b) as real / 2.0
  {
    RankSumIsPairs(a, a + b);
    PairsConcat(a, a, b);
    PairsPartition(a, a);
  }

  /** Whatever the tie pattern, the ranks sum to n(n+1)/2, and each is at least 1. */
  lemma RankTotal(xs: seq<real>)
    ensures Sum(RanksOf(xs, xs)) == (|xs| * (|xs| + 1)) as real / 2.0
    ensures forall i :: 0 <= i < |xs| ==> 1.0 <= RanksOf(xs, xs)[i]
  {
    RankSumIsPairs(xs, xs);
    PairsPartition(xs, xs);
    forall i | 0 <= i < |xs| ensures 1.0 <= RanksOf(xs, xs)[i] {
      CountEqualPositive(xs, i);
    }
  }
}
