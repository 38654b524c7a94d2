// Index lists, permutations and the stable sort behind Python's sorted(..., key=...).
module Sequences {

  function Iota(n: nat): seq<nat> {
    seq(n, i => i)
  }

  /** order lists every index below n exactly once. */
  ghost predicate IsPermutation(order: seq<nat>, n: nat) {
    multiset(order) == multiset(Iota(n))
  }

  predicate NoRepeats<T(==)>(xs: seq<T>) {
    forall i, j :: 0 <= i < j < |xs| ==> xs[i] != xs[j]
  }

  lemma NotYet<T>(xs: seq<T>, i: nat)
    requires NoRepeats(xs) && i < |xs|
    ensures xs[i] !in xs[..i] && xs[..i + 1] == xs[..i] + [xs[i]]
  {
  }

  ghost predicate SortedBy<T>(xs: seq<T>, key: T -> real) {
    forall i, j :: 0 <= i < j < |xs| ==> key(xs[i]) <= key(xs[j])
  }

  function Map<T, U>(xs: seq<T>, f: T -> U): (ys: seq<U>)
    ensures |ys| == |xs|
    ensures forall i :: 0 <= i < |xs| ==> ys[i] == f(xs[i])
  {
    seq(|xs|, i requires 0 <= i < |xs| => f(xs[i]))
  }

  lemma {:induction false} IotaMultiplicity(n: nat, v: nat)
    ensures multiset(Iota(n))[v] == if v < n then 1 else 0
  {
    if n > 0 {
      IotaMultiplicity(n - 1, v);
      assert Iota(n) == Iota(n - 1) + [n - 1];
    }
  }

  lemma TwiceInMultiset(order: seq<nat>, i: nat, j: nat)
    requires i < j < |order| && order[i] == order[j]
    ensures multiset(order)[order[i]] >= 2
  {
    var a, b := order[..j], order[j..];
    assert order == a + b;
    assert a[i] in multiset(a) && b[0] in multiset(b);
  }

  lemma PermutationFacts(order: seq<nat>, n: nat)
    requires IsPermutation(order, n)
    ensures |order| == n
    ensures forall i :: 0 <= i < n ==> order[i] < n
    ensures forall i, j :: 0 <= i < j < n ==> order[i] != order[j]
    ensures forall v :: 0 <= v < n ==> v in order
  {
    assert |multiset(order)| == |order| && |multiset(Iota(n))| == n;
    forall i | 0 <= i < n ensures order[i] < n {
      assert order[i] in multiset(order);
      IotaMultiplicity(n, order[i]);
    }
    forall i, j | 0 <= i < j < n ensures order[i] != order[j] {
      IotaMultiplicity(n, order[i]);
      if order[i] == order[j] {
        TwiceInMultiset(order, i, j);
      }
    }
    forall v | 0 <= v < n ensures v in order {
      IotaMultiplicity(n, v);
      assert v in multiset(order);
    }
  }

  /** Where b holds a's first element, and what is left of both. */
  lemma RemoveFirst<T>(a: seq<T>, b: seq<T>) returns (k: nat)
    requires multiset(a) == multiset(b) && a != []
    ensures k < |b| && b[k] == a[0]
    ensures multiset(a[1..]) == multiset(b[..k] + b[k + 1..])
  {
    TakeOut(a, 0);
    assert a[0] in multiset(b);
    k :| 0 <= k < |b| && b[k] == a[0];
    TakeOut(b, k);
    assert a[1..] == a[..0] + a[1..];
  }

  lemma TakeOut<T>(b: seq<T>, k: nat)
    requires k < |b|
    ensures multiset(b[..k] + b[k + 1..]) == multiset(b) - multiset{b[k]}
  {
    assert b == b[..k] + [b[k]] + b[k + 1..];
  }

  lemma MapAround<T, U>(b: seq<T>, k: nat, f: T -> U)
    requires k < |b|
    ensures multiset(Map(b, f)) == multiset{f(b[k])} + multiset(Map(b[..k] + b[k + 1..], f))
  {
    var c := b[..k] + b[k + 1..];
    assert Map(b, f) == Map(b, f)[..k] + [f(b[k])] + Map(b, f)[k + 1..];
    assert Map(c, f) == Map(b, f)[..k] + Map(b, f)[k + 1..];
  }

  lemma {:induction false} MapKeepsMultiset<T, U>(a: seq<T>, b: seq<T>, f: T -> U)
    requires multiset(a) == multiset(b)
    ensures multiset(Map(a, f)) == multiset(Map(b, f))
  {
    if a == [] {
      assert |multiset(b)| == |b| == 0;
      assert Map(a, f) == Map(b, f);
    } else {
      var k := RemoveFirst(a, b);
      var c := b[..k] + b[k + 1..];
      MapKeepsMultiset(a[1..], c, f);
      assert Map(a, f) == [f(a[0])] + Map(a[1..], f);
      MapAround(b, k, f);
    }
  }

  // ----- stable insertion sort -----

  function Insert<T>(xs: seq<T>, x: T, key: T -> real): seq<T> {
    if xs == [] || key(xs[|xs| - 1]) <= key(x) then xs + [x]
    else Insert(xs[..|xs| - 1], x, key) + [xs[|xs| - 1]]
  }

  function Sort<T>(xs: seq<T>, key: T -> real): seq<T> {
    if xs == [] then [] else Insert(Sort(xs[..|xs| - 1], key), xs[|xs| - 1], key)
  }

  lemma {:induction false} InsertMultiset<T>(xs: seq<T>, x: T, key: T -> real)
    ensures multiset(Insert(xs, x, key)) == multiset(xs) + multiset{x}
  {
    if xs == [] || key(xs[|xs| - 1]) <= key(x) {
    } else {
      var n := |xs| - 1;
      assert xs == xs[..n] + [xs[n]];
      InsertMultiset(xs[..n], x, key);
    }
  }

  lemma {:induction false} InsertSorted<T>(xs: seq<T>, x: T, key: T -> real)
    requires SortedBy(xs, key)
    ensures SortedBy(Insert(xs, x, key), key)
  {
    if xs == [] || key(xs[|xs| - 1]) <= key(x) {
    } else {
      var n := |xs| - 1;
      InsertSorted(xs[..n], x, key);
      InsertMultiset(xs[..n], x, key);
      AppendLargest(xs[..n], Insert(xs[..n], x, key), x, xs[n], key);
    }
  }

  lemma AppendLargest<T>(xs: seq<T>, r: seq<T>, x: T, last: T, key: T -> real)
    requires SortedBy(r, key) && multiset(r) == multiset(xs) + multiset{x}
    requires key(x) <= key(last) && forall i :: 0 <= i < |xs| ==> key(xs[i]) <= key(last)
    ensures SortedBy(r + [last], key)
  {
    forall i | 0 <= i < |r| ensures key(r[i]) <= key(last) {
      assert r[i] in multiset(r);
      assert r[i] == x || r[i] in multiset(xs);
    }
  }

  lemma {:induction false} SortFacts<T>(xs: seq<T>, key: T -> real)
    ensures SortedBy(Sort(xs, key), key)
    ensures multiset(Sort(xs, key)) == multiset(xs)
  {
    if xs != [] {
      var n := |xs| - 1;
      assert xs == xs[..n] + [xs[n]];
      SortFacts(xs[..n], key);
      InsertSorted(Sort(xs[..n], key), xs[n], key);
      InsertMultiset(Sort(xs[..n], key), xs[n], key);
    }
  }

  /** Stability in the form the runners rely on: re-sorting sorted rows moves nothing. */
  lemma {:induction false} SortKeepsSorted<T>(xs: seq<T>, key: T -> real)
    requires SortedBy(xs, key)
    ensures Sort(xs, key) == xs
  {
    if xs != [] {
      var n := |xs| - 1;
      SortKeepsSorted(xs[..n], key);
      assert xs == xs[..n] + [xs[n]];
    }
  }

  // ----- sorted(range(n), key=lambda i: keys[i]) -----

  function KeyAt(keys: seq<real>, i: nat): real {
    if i < |keys| then keys[i] else 0.0
  }

  function ArgSort(keys: seq<real>): seq<nat> {
    Sort(Iota(|keys|), i => KeyAt(keys, i))
  }

  /** order is one of the possible outcomes of sorting the indices by key. */
  ghost predicate SortsIndices(order: seq<nat>, keys: seq<real>) {
    && IsPermutation(order, |keys|)
    && forall i, j :: 0 <= i < j < |order| ==> KeyAt(keys, order[i]) <= KeyAt(keys, order[j])
  }

  lemma ArgSortSorts(keys: seq<real>)
    ensures SortsIndices(ArgSort(keys), keys)
  {
    SortFacts(Iota(|keys|), i => KeyAt(keys, i));
  }
}
