// Holm's step-down adjustment. The repository writes it by hand in three shapes, with the cap at 1 and
// the running maximum in different places; each shape is proved equal to the closure of Bonferroni tests.
module Holm {
  import opened RealMath
  import opened Sequences
  import opened FiniteSets

  // ----- the combinatorial definition -----

  ghost function MinOver(ps: seq<real>, S: set<nat>): (r: real)
    requires S != {} && forall j :: j in S ==> j < |ps|
    ensures forall j :: j in S ==> r <= ps[j]
    ensures exists j :: j in S && r == ps[j]
  {
    var j :| j in S;
    if S == {j} then ps[j]
    else
      assert S == {j} + (S - {j});
      Min(ps[j], MinOver(ps, S - {j}))
  }

  /** A subfamily of hypotheses that contains i. */
  ghost predicate Family(ps: seq<real>, i: nat, S: set<nat>) {
    i in S && forall j :: j in S ==> j < |ps|
  }

  lemma MinOverIs(ps: seq<real>, S: set<nat>, i: nat)
    requires forall j :: j in S ==> j < |ps|
    requires i in S && forall j :: j in S ==> ps[i] <= ps[j]
    ensures MinOver(ps, S) == ps[i]
  {
  }

  function Times(n: int, p: real): real {
    n as real * p
  }

  lemma TimesMonotone(m: nat, n: nat, p: real, q: real)
    requires m <= n && p <= q
    ensures 0.0 <= q ==> Times(m, p) <= Times(n, q)
    ensures p < 0.0 ==> Times(m, p) <= 0.0
    ensures Times(1, p) == p
  {
    var a, b := m as real, n as real;
    MulMonotone(p, q, a);
    if 0.0 <= q {
      MulMonotone(a, b, q);
    }
    if p < 0.0 {
      MulMonotone(p, 0.0, a);
    }
  }

  /** The Bonferroni p-value of the intersection hypothesis over S. */
  ghost function Bonferroni(ps: seq<real>, S: set<nat>): real
    requires S != {} && forall j :: j in S ==> j < |ps|
  {
    Min(1.0, Times(|S|, MinOver(ps, S)))
  }

  /** It is the number of hypotheses times the smallest of their p-values, at most 1. */
  lemma BonferroniIs(ps: seq<real>, S: set<nat>) returns (size: real, least: real)
    requires S != {} && forall j :: j in S ==> j < |ps|
    ensures size == |S| as real
    ensures (forall j :: j in S ==> least <= ps[j]) && exists j :: j in S && ps[j] == least
    ensures Bonferroni(ps, S) == Min(1.0, size * least)
  {
    hide Times, MinOver;
    size, least := |S| as real, MinOver(ps, S);
    TimesIs(|S|, least);
  }

  lemma TimesIs(n: int, p: real)
    ensures Times(n, p) == n as real * p
  {
  }

  /** v is the closed-testing adjustment of hypothesis i: the largest Bonferroni p-value of a
      subfamily that contains i, and 0 when every one of them is negative. */
  ghost predicate ClosureAdjusted(ps: seq<real>, i: nat, v: real) {
    && 0.0 <= v
    && (forall S :: Family(ps, i, S) ==> Bonferroni(ps, S) <= v)
    && (v == 0.0 || exists S :: Family(ps, i, S) && Bonferroni(ps, S) == v)
  }

  // ----- the step-down form -----

  function Term(ps: seq<real>, order: seq<nat>, r: nat): real
    requires r < |order|
  {
    Times(|order| - r, KeyAt(ps, order[r]))
  }

  /** The running maximum after the first r positions of the order. */
  function RunMax(ps: seq<real>, order: seq<nat>, r: nat): real
    requires r <= |order|
  {
    if r == 0 then 0.0
    else Max(RunMax(ps, order, r - 1), Min(1.0, Term(ps, order, r - 1)))
  }

  lemma {:induction false} RunMaxBounds(ps: seq<real>, order: seq<nat>, q: nat, r: nat)
    requires q <= r <= |order|
    ensures RunMax(ps, order, q) <= RunMax(ps, order, r)
    ensures 0.0 <= RunMax(ps, order, r) <= 1.0
  {
    if r > 0 {
      RunMaxBounds(ps, order, if q < r then q else 0, r - 1);
    }
  }

  lemma {:induction false} RunMaxAttained(ps: seq<real>, order: seq<nat>, r: nat) returns (q: nat)
    requires r <= |order|
    ensures q <= r
    ensures q < r ==> RunMax(ps, order, r) == Min(1.0, Term(ps, order, q))
    ensures q == r ==> RunMax(ps, order, r) == 0.0
  {
    if r == 0 {
      q := 0;
    } else if RunMax(ps, order, r - 1) < Min(1.0, Term(ps, order, r - 1)) {
      q := r - 1;
    } else {
      q := RunMaxAttained(ps, order, r - 1);
      if q == r - 1 {
        q := r;
      }
    }
  }

  // ----- the two meet -----

  ghost function Tail(order: seq<nat>, q: nat): set<nat>
    requires q <= |order|
  {
    set t | q <= t < |order| :: order[t]
  }

  lemma {:induction false} TailSize(order: seq<nat>, n: nat, q: nat)
    requires IsPermutation(order, n) && q <= |order|
    ensures |Tail(order, q)| == n - q
    decreases |order| - q
  {
    PermutationFacts(order, n);
    if q < n {
      TailSize(order, n, q + 1);
      assert Tail(order, q) == {order[q]} + Tail(order, q + 1);
    }
  }

  /** The first position of the order whose index lies in S. */
  lemma FirstIn(order: seq<nat>, S: set<nat>, r: nat) returns (q: nat)
    requires r < |order| && order[r] in S
    ensures q <= r && order[q] in S
    ensures forall t :: 0 <= t < q ==> order[t] !in S
  {
    q := 0;
    while order[q] !in S
      invariant q <= r
      invariant forall t :: 0 <= t < q ==> order[t] !in S
      decreases r - q
    {
      q := q + 1;
    }
  }

  lemma FamilyInTail(ps: seq<real>, order: seq<nat>, q: nat, S: set<nat>)
    requires SortsIndices(order, ps) && q < |order| && order[q] in S
    requires forall j :: j in S ==> j < |ps|
    requires forall t :: 0 <= t < q ==> order[t] !in S
    ensures S <= Tail(order, q) && |order| == |ps| && order[q] < |ps|
    ensures MinOver(ps, S) == KeyAt(ps, order[q])
  {
    PermutationFacts(order, |ps|);
    forall j | j in S ensures j in Tail(order, q) && ps[order[q]] <= ps[j] {
      assert j in order;
      var t :| 0 <= t < |order| && order[t] == j;
      assert KeyAt(ps, order[q]) <= KeyAt(ps, order[t]);
    }
    MinOverIs(ps, S, order[q]);
  }

  /** Every subfamily that contains the hypothesis at position r is bounded. */
  lemma FamilyBounded(ps: seq<real>, order: seq<nat>, r: nat, S: set<nat>)
    requires SortsIndices(order, ps) && r < |order| && Family(ps, order[r], S)
    ensures Bonferroni(ps, S) <= RunMax(ps, order, r + 1)
  {
    hide Times, IsPermutation, Tail, MinOver;
    var q := FirstIn(order, S, r);
    FamilyInTail(ps, order, q, S);
    SubsetSize(S, Tail(order, q));
    TailSize(order, |ps|, q);
    RunMaxBounds(ps, order, q + 1, r + 1);
    TimesMonotone(|S|, |order| - q, MinOver(ps, S), MinOver(ps, S));
  }

  /** Position q's own tail attains its term. */
  lemma TailAttains(ps: seq<real>, order: seq<nat>, q: nat, r: nat)
    requires SortsIndices(order, ps) && q <= r < |order|
    ensures Family(ps, order[r], Tail(order, q))
    ensures Bonferroni(ps, Tail(order, q)) == Min(1.0, Term(ps, order, q))
  {
    hide Times;
    TailFamily(ps, order, q, r);
    TailSize(order, |ps|, q);
    FamilyInTail(ps, order, q, Tail(order, q));
  }

  lemma TailFamily(ps: seq<real>, order: seq<nat>, q: nat, r: nat)
    requires SortsIndices(order, ps) && q <= r < |order|
    ensures Family(ps, order[r], Tail(order, q)) && order[q] in Tail(order, q)
    ensures forall t :: 0 <= t < q ==> order[t] !in Tail(order, q)
  {
    PermutationFacts(order, |ps|);
  }

  /** Step-down equals closure, at every position of every order that sorts the p-values. */
  lemma StepDownIsClosure(ps: seq<real>, order: seq<nat>, r: nat)
    requires SortsIndices(order, ps) && r < |order|
    ensures ClosureAdjusted(ps, order[r], RunMax(ps, order, r + 1))
  {
    hide Bonferroni, Term, RunMax;
    forall S | Family(ps, order[r], S) ensures Bonferroni(ps, S) <= RunMax(ps, order, r + 1) {
      FamilyBounded(ps, order, r, S);
    }
    RunMaxBounds(ps, order, 0, r + 1);
    var q := RunMaxAttained(ps, order, r + 1);
    if q <= r {
      TailAttains(ps, order, q, r);
    }
  }

  // ----- the three shapes -----

  /** Every index below n once, at its own position. */
  predicate Indexes(order: seq<nat>, n: nat) {
    && |order| == n
    && (forall r :: 0 <= r < |order| ==> order[r] < n)
    && forall q, r :: 0 <= q < r < |order| ==> order[q] != order[r]
  }

  lemma OrderIndexes(ps: seq<real>, order: seq<nat>)
    requires SortsIndices(order, ps)
    ensures Indexes(order, |ps|)
  {
    PermutationFacts(order, |ps|);
  }

  lemma RunMaxStep(ps: seq<real>, order: seq<nat>, r: nat)
    requires Indexes(order, |ps|) && r < |order|
    ensures RunMax(ps, order, r + 1) == Max(RunMax(ps, order, r), Min(1.0, Times(|ps| - r, ps[order[r]])))
  {
    hide Times;
  }

  /** The first r positions of the order have their adjusted value in place. */
  ghost predicate PlacedTo(ps: seq<real>, order: seq<nat>, adj: seq<real>, r: nat)
    requires r <= |order| && Indexes(order, |ps|)
  {
    && |adj| == |ps|
    && forall t :: 0 <= t < r ==> adj[order[t]] == RunMax(ps, order, t + 1)
  }

  lemma PlaceOne(ps: seq<real>, order: seq<nat>, adj: seq<real>, r: nat)
    requires r < |order| && Indexes(order, |ps|) && PlacedTo(ps, order, adj, r)
    ensures PlacedTo(ps, order, adj[order[r] := RunMax(ps, order, r + 1)], r + 1)
  {
    hide RunMax;
  }

  lemma PlacedAdjusts(ps: seq<real>, order: seq<nat>, adj: seq<real>)
    requires SortsIndices(order, ps) && Indexes(order, |ps|) && PlacedTo(ps, order, adj, |order|)
    ensures |adj| == |ps|
    ensures forall i :: 0 <= i < |ps| ==> ClosureAdjusted(ps, i, adj[i])
  {
    hide RunMax, ClosureAdjusted;
    PermutationFacts(order, |ps|);
    forall i | 0 <= i < |ps| ensures ClosureAdjusted(ps, i, adj[i]) {
      assert i in order;
      var t :| 0 <= t < |order| && order[t] == i;
      StepDownIsClosure(ps, order, t);
    }
  }

  /** compare_feature_sets.py: cap each term, then take the running maximum. order is whatever
      sorted() returned; the result does not depend on how it broke ties. */
  method HolmInOrder(ps: seq<real>, order: seq<nat>) returns (adj: seq<real>)
    requires SortsIndices(order, ps)
    ensures |adj| == |ps|
    ensures forall i :: 0 <= i < |ps| ==> ClosureAdjusted(ps, i, adj[i])
  {
    OrderIndexes(ps, order);
    hide Times, ClosureAdjusted, SortsIndices, PlacedTo, Max, Min;
    var m := |ps|;
    adj := seq(m, _ => 0.0);
    var run := 0.0;
    NonePlaced(ps, order, adj);
    for r := 0 to m
      invariant |adj| == m
      invariant run == RunMax(ps, order, r)
      invariant PlacedTo(ps, order, adj, r)
    {
      RunMaxStep(ps, order, r);
      PlaceOne(ps, order, adj, r);
      var i := order[r];
      run := Max(run, Min(1.0, Times(m - r, ps[i])));
      adj := adj[i := run];
    }
    PlacedAdjusts(ps, order, adj);
  }

  lemma NonePlaced(ps: seq<real>, order: seq<nat>, adj: seq<real>)
    requires Indexes(order, |ps|) && |adj| == |ps|
    ensures PlacedTo(ps, order, adj, 0)
  {
  }

  method Holm(ps: seq<real>) returns (adj: seq<real>)
    ensures |adj| == |ps|
    ensures forall i :: 0 <= i < |ps| ==> ClosureAdjusted(ps, i, adj[i])
  {
    hide ClosureAdjusted;
    ArgSortSorts(ps);
    adj := HolmInOrder(ps, ArgSort(ps));
  }

  /** A dict from arm name to raw p, in insertion order. */
  predicate IsDict(items: seq<(string, real)>) {
    forall i, j :: 0 <= i < j < |items| ==> items[i].0 != items[j].0
  }

  function Values(items: seq<(string, real)>): seq<real> {
    Map(items, (kv: (string, real)) => kv.1)
  }

  /** Every arm of the dict gets its closure adjustment, and nothing else is reported. */
  ghost predicate AdjustsDict(items: seq<(string, real)>, out: map<string, real>) {
    && out.Keys == (set i | 0 <= i < |items| :: items[i].0)
    && forall i :: 0 <= i < |items| ==> items[i].0 in out && ClosureAdjusted(Values(items), i, out[items[i].0])
  }

  function Named(items: seq<(string, real)>, order: seq<nat>, r: nat): set<string>
    requires r <= |order| && Indexes(order, |items|)
  {
    set t | 0 <= t < r :: items[order[t]].0
  }

  ghost predicate FilledTo(items: seq<(string, real)>, order: seq<nat>, out: map<string, real>, r: nat)
    requires r <= |order| && Indexes(order, |items|)
  {
    && out.Keys == Named(items, order, r)
    && forall t :: 0 <= t < r ==>
      items[order[t]].0 in out && out[items[order[t]].0] == RunMax(Values(items), order, t + 1)
  }

  lemma NoneFilled(items: seq<(string, real)>, order: seq<nat>)
    requires Indexes(order, |items|)
    ensures FilledTo(items, order, map[], 0)
  {
  }

  lemma FillOne(items: seq<(string, real)>, order: seq<nat>, out: map<string, real>, r: nat)
    requires IsDict(items) && r < |order| && Indexes(order, |items|) && FilledTo(items, order, out, r)
    ensures FilledTo(items, order, out[items[order[r]].0 := RunMax(Values(items), order, r + 1)], r + 1)
  {
    hide RunMax, Values;
    NamedStep(items, order, r);
    var v := RunMax(Values(items), order, r + 1);
    var out' := out[items[order[r]].0 := v];
    forall t | 0 <= t < r + 1
      ensures items[order[t]].0 in out' && out'[items[order[t]].0] == RunMax(Values(items), order, t + 1)
    {
      OtherEntries(items, order, out, v, t, r);
    }
  }

  lemma OtherEntries(items: seq<(string, real)>, order: seq<nat>, out: map<string, real>, v: real, t: nat, r: nat)
    requires IsDict(items) && t <= r < |order| && Indexes(order, |items|)
    requires t < r ==> items[order[t]].0 in out
    ensures var out' := out[items[order[r]].0 := v];
      && items[order[t]].0 in out'
      && out'[items[order[t]].0] == if t < r then out[items[order[t]].0] else v
  {
    if t < r {
      DistinctNames(items, order[t], order[r]);
    }
    hide IsDict;
  }

  lemma NamedStep(items: seq<(string, real)>, order: seq<nat>, r: nat)
    requires r < |order| && Indexes(order, |items|)
    ensures Named(items, order, r + 1) == Named(items, order, r) + {items[order[r]].0}
  {
  }

  lemma DistinctNames(items: seq<(string, real)>, i: nat, j: nat)
    requires IsDict(items) && i < |items| && j < |items| && i != j
    ensures items[i].0 != items[j].0
  {
  }

  lemma FilledAdjusts(items: seq<(string, real)>, order: seq<nat>, out: map<string, real>)
    requires IsDict(items) && SortsIndices(order, Values(items))
    requires Indexes(order, |items|) && FilledTo(items, order, out, |order|)
    ensures AdjustsDict(items, out)
  {
    hide RunMax, ClosureAdjusted;
    PermutationFacts(order, |items|);
    forall i | 0 <= i < |items|
      ensures items[i].0 in out && ClosureAdjusted(Values(items), i, out[items[i].0])
    {
      assert i in order;
      var t :| 0 <= t < |order| && order[t] == i;
      StepDownIsClosure(Values(items), order, t);
    }
  }

  lemma CapLast(run: real, t: real)
    ensures Min(1.0, Max(run, t)) == Max(Min(1.0, run), Min(1.0, t))
  {
  }

  lemma CapCarried(run: real, t: real)
    requires run <= 1.0
    ensures Min(Max(t, run), 1.0) == Max(run, Min(1.0, t))
  {
  }

  /** four_corpus_tables.py: the running maximum is uncapped and each output is capped. */
  method HolmCapLate(items: seq<(string, real)>, order: seq<nat>) returns (out: map<string, real>)
    requires IsDict(items) && SortsIndices(order, Values(items))
    ensures AdjustsDict(items, out)
  {
    OrderIndexes(Values(items), order);
    NoneFilled(items, order);
    assert Min(1.0, 0.0) == RunMax(Values(items), order, 0);
    hide Times, SortsIndices, AdjustsDict, FilledTo, Max, Min, RunMax;
    var m := |items|;
    var run := 0.0;
    out := map[];
    for i := 0 to m
      invariant Min(1.0, run) == RunMax(Values(items), order, i)
      invariant FilledTo(items, order, out, i)
    {
      RunMaxStep(Values(items), order, i);
      FillOne(items, order, out, i);
      var (k, p) := items[order[i]];
      CapLast(run, Times(m - i, p));
      run := Max(run, Times(m - i, p));
      out := out[k := Min(1.0, run)];
    }
    FilledAdjusts(items, order, out);
  }

  /** run_corrected_benchmark_full.py: cap after the maximum and carry the capped value. */
  method HolmCapCarried(items: seq<(string, real)>, order: seq<nat>) returns (out: map<string, real>)
    requires IsDict(items) && SortsIndices(order, Values(items))
    ensures AdjustsDict(items, out)
  {
    OrderIndexes(Values(items), order);
    NoneFilled(items, order);
    assert RunMax(Values(items), order, 0) == 0.0;
    hide Times, SortsIndices, AdjustsDict, FilledTo, Max, Min, RunMax;
    var m := |items|;
    var mx := 0.0;
    out := map[];
    for i := 0 to m
      invariant mx == RunMax(Values(items), order, i)
      invariant FilledTo(items, order, out, i)
    {
      RunMaxBounds(Values(items), order, 0, i);
      RunMaxStep(Values(items), order, i);
      FillOne(items, order, out, i);
      var (n, p) := items[order[i]];
      CapCarried(mx, Times(m - i, p));
      var adj := Min(Max(Times(m - i, p), mx), 1.0);
      mx := adj;
      out := out[n := adj];
    }
    FilledAdjusts(items, order, out);
  }

  // ----- what the closure says -----

  /** One value only: no shape and no tie-breaking can disagree with another. */
  lemma ClosureUnique(ps: seq<real>, i: nat, v: real, w: real)
    requires ClosureAdjusted(ps, i, v) && ClosureAdjusted(ps, i, w)
    ensures v == w
  {
    hide Bonferroni;
  }

  /** Rejecting at level a after adjustment is rejecting every intersection that contains i. */
  lemma ClosedTesting(ps: seq<real>, i: nat, v: real, a: real)
    requires i < |ps| && 0.0 <= a < 1.0 && ClosureAdjusted(ps, i, v)
    ensures v <= a <==> forall S :: Family(ps, i, S) ==> Times(|S|, MinOver(ps, S)) <= a
  {
    hide Times;
    if v <= a {
      forall S | Family(ps, i, S) ensures Times(|S|, MinOver(ps, S)) <= a {
        assert Bonferroni(ps, S) <= v;
      }
    } else {
      var S :| Family(ps, i, S) && Bonferroni(ps, S) == v;
    }
  }

  ghost function AllIndices(n: nat): set<nat> {
    set j | j in Iota(n)
  }

  lemma {:induction false} AllIndicesSize(n: nat)
    ensures |AllIndices(n)| == n
  {
    if n > 0 {
      AllIndicesSize(n - 1);
      assert Iota(n) == Iota(n - 1) + [n - 1];
      assert AllIndices(n) == AllIndices(n - 1) + {n - 1};
    }
  }

  lemma SingletonFamily(ps: seq<real>, i: nat)
    requires i < |ps|
    ensures Family(ps, i, {i}) && Bonferroni(ps, {i}) == Min(1.0, ps[i])
  {
    hide Times;
    MinOverIs(ps, {i}, i);
    TimesMonotone(1, 1, ps[i], ps[i]);
  }

  lemma FamilyBelowBonferroni(ps: seq<real>, i: nat, S: set<nat>)
    requires i < |ps| && 0.0 <= ps[i] && Family(ps, i, S)
    ensures Bonferroni(ps, S) <= Min(Times(|ps|, ps[i]), 1.0)
  {
    hide Times;
    AllIndicesSize(|ps|);
    forall j | j in S ensures j in AllIndices(|ps|) {
      assert Iota(|ps|)[j] == j;
    }
    SubsetSize(S, AllIndices(|ps|));
    TimesMonotone(|S|, |ps|, MinOver(ps, S), ps[i]);
  }

  /** For p-values in [0, 1]: raw <= Holm <= Bonferroni, and a subfamily always attains Holm. */
  lemma RawHolmBonferroni(ps: seq<real>, i: nat, v: real)
    requires i < |ps| && 0.0 <= ps[i] <= 1.0 && ClosureAdjusted(ps, i, v)
    ensures ps[i] <= v <= Min(Times(|ps|, ps[i]), 1.0)
    ensures exists S :: Family(ps, i, S) && Bonferroni(ps, S) == v
  {
    hide Times, Bonferroni;
    SingletonFamily(ps, i);
    FamilyBelowBonferroni(ps, i, {i});
    if v != 0.0 {
      var S :| Family(ps, i, S) && Bonferroni(ps, S) == v;
      FamilyBelowBonferroni(ps, i, S);
    } else {
      assert Bonferroni(ps, {i}) == v;
    }
  }

  /** The adjustment never reorders the arms. */
  lemma ClosureMonotone(ps: seq<real>, i: nat, j: nat, v: real, w: real)
    requires i < |ps| && j < |ps| && ps[i] <= ps[j]
    requires ClosureAdjusted(ps, i, v) && ClosureAdjusted(ps, j, w)
    ensures v <= w
  {
    hide Times;
    if v != 0.0 {
      var S :| Family(ps, i, S) && Bonferroni(ps, S) == v;
      var T := S + {j};
      WiderFamily(ps, i, j, S);
      assert Bonferroni(ps, T) <= w;
      TimesMonotone(|S|, |T|, MinOver(ps, S), MinOver(ps, S));
    }
  }

  lemma WiderFamily(ps: seq<real>, i: nat, j: nat, S: set<nat>)
    requires i < |ps| && j < |ps| && ps[i] <= ps[j] && Family(ps, i, S)
    ensures Family(ps, j, S + {j}) && MinOver(ps, S + {j}) == MinOver(ps, S) && |S| <= |S + {j}|
  {
    var k :| k in S && MinOver(ps, S) == ps[k];
    assert MinOver(ps, S) <= ps[i];
    MinOverIs(ps, S + {j}, k);
    SubsetSize(S, S + {j});
  }
}
