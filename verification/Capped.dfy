// The memory-capped set and counter of the CIC-IDS2018 extractor, and the unbounded ones they
// stand in for.
module Capped {
  import opened FiniteSets
  import opened Options

  /** No cap, or the largest number of items a container may hold. */
  type Cap = Option<nat>

  predicate Room(cap: Cap, size: nat) {
    cap.None? || size < cap.value
  }

  function AtMost(cap: Cap, n: nat): nat {
    if cap.Some? && cap.value < n then cap.value else n
  }

  function AddTo<T>(cap: Cap, s: set<T>, x: T): set<T> {
    if Room(cap, |s|) || x in s then s + {x} else s
  }

  function CountOf<T>(m: map<T, nat>, k: T): nat {
    if k in m then m[k] else 0
  }

  function SetItem<T>(cap: Cap, m: map<T, nat>, k: T, v: nat): map<T, nat> {
    if k in m || Room(cap, |m|) then m[k := v] else m
  }

  /** counter[k] += 1, with __missing__ giving 0. */
  function Increment<T>(cap: Cap, m: map<T, nat>, k: T): map<T, nat> {
    SetItem(cap, m, k, CountOf(m, k) + 1)
  }

  class CappedSet<T(==)> {
    const cap: Cap
    var items: set<T>

    constructor (cap: Cap)
      ensures this.cap == cap && items == {}
    {
      this.cap, items := cap, {};
    }

    /** Items stay, nothing but x enters, and x is missing afterwards only if it was new at the cap. */
    method Add(x: T)
      modifies this
      ensures items == AddTo(cap, old(items), x)
      ensures old(items) <= items <= old(items) + {x}
      ensures x !in items <==> x !in old(items) && cap.Some? && cap.value <= |old(items)|
    {
      if Room(cap, |items|) || x in items {
        items := items + {x};
      }
    }
  }

  class CappedCounter<T(==)> {
    const cap: Cap
    var counts: map<T, nat>

    constructor (cap: Cap)
      ensures this.cap == cap && counts == map[]
    {
      this.cap, counts := cap, map[];
    }

    /** Other keys keep their counts, and k gets v unless it was new at the cap. */
    method Put(k: T, v: nat)
      modifies this
      ensures counts == SetItem(cap, old(counts), k, v)
      ensures forall j :: j in old(counts) && j != k ==> j in counts && counts[j] == old(counts)[j]
      ensures counts.Keys <= old(counts).Keys + {k}
      ensures k !in counts <==> k !in old(counts) && cap.Some? && cap.value <= |old(counts)|
      ensures k in counts ==> counts[k] == v
    {
      if k in counts || Room(cap, |counts|) {
        counts := counts[k := v];
      }
    }

    method Bump(k: T)
      modifies this
      ensures counts == Increment(cap, old(counts), k)
    {
      Put(k, CountOf(counts, k) + 1);
    }
  }

  // ----- whole runs -----

  function Distinct<T>(xs: seq<T>): set<T> {
    set x | x in xs
  }

  function FoldSet<T>(cap: Cap, xs: seq<T>): set<T> {
    if xs == [] then {} else AddTo(cap, FoldSet(cap, xs[..|xs| - 1]), xs[|xs| - 1])
  }

  function FoldCounter<T>(cap: Cap, xs: seq<T>): map<T, nat> {
    if xs == [] then map[] else Increment(cap, FoldCounter(cap, xs[..|xs| - 1]), xs[|xs| - 1])
  }

  lemma DistinctAppend<T>(xs: seq<T>, x: T)
    ensures Distinct(xs + [x]) == Distinct(xs) + {x}
  {
  }

  /** A capped set holds exactly min(cap, distinct) of the distinct items added to it. */
  lemma {:induction false} SetHolds<T>(cap: Cap, xs: seq<T>)
    ensures FoldSet(cap, xs) <= Distinct(xs)
    ensures |FoldSet(cap, xs)| == AtMost(cap, |Distinct(xs)|)
  {
    if xs != [] {
      var n := |xs| - 1;
      SetHolds(cap, xs[..n]);
      assert xs == xs[..n] + [xs[n]];
      DistinctAppend(xs[..n], xs[n]);
      SetHoldsStep(cap, FoldSet(cap, xs[..n]), Distinct(xs[..n]), xs[n]);
    }
  }

  lemma SetHoldsStep<T>(cap: Cap, held: set<T>, offered: set<T>, x: T)
    requires held <= offered && |held| == AtMost(cap, |offered|)
    ensures |AddTo(cap, held, x)| == AtMost(cap, |offered + {x}|)
  {
    SubsetSize(held, offered);
    if x in offered {
      assert offered + {x} == offered;
      assert x in held ==> held + {x} == held;
    } else {
      assert |offered + {x}| == |offered| + 1;
      assert |held + {x}| == |held| + 1;
    }
  }

  /** Nothing is lost exactly when the distinct items fit. */
  lemma ExactIffFits<T>(cap: Cap, xs: seq<T>)
    ensures FoldSet(cap, xs) == Distinct(xs) <==> cap.None? || |Distinct(xs)| <= cap.value
  {
    SetHolds(cap, xs);
    SubsetSize(FoldSet(cap, xs), Distinct(xs));
  }

  /** A capped counter keeps the keys a capped set would, each with its true multiplicity. */
  lemma {:induction false} CounterHolds<T>(cap: Cap, xs: seq<T>)
    ensures FoldCounter(cap, xs).Keys == FoldSet(cap, xs)
    ensures |FoldCounter(cap, xs)| == |FoldSet(cap, xs)|
    ensures forall k :: k in FoldCounter(cap, xs) ==> FoldCounter(cap, xs)[k] == multiset(xs)[k]
  {
    if xs != [] {
      var n := |xs| - 1;
      var x, m := xs[n], FoldCounter(cap, xs[..n]);
      CounterHolds(cap, xs[..n]);
      assert xs == xs[..n] + [x];
      assert |m| == |m.Keys|;
      if x !in m && Room(cap, |m|) {
        NeverRejected(cap, xs[..n], x);
      }
    }
    assert |FoldCounter(cap, xs)| == |FoldCounter(cap, xs).Keys|;
  }

  /** While there is room, an item that is not held has never been offered. */
  lemma NeverRejected<T>(cap: Cap, xs: seq<T>, x: T)
    requires Room(cap, |FoldSet(cap, xs)|) && x !in FoldSet(cap, xs)
    ensures x !in xs && multiset(xs)[x] == 0
  {
    SetHolds(cap, xs);
    SubsetSize(FoldSet(cap, xs), Distinct(xs));
    assert x !in Distinct(xs);
  }

  /** While the distinct keys fit, a capped counter is the plain one. */
  lemma CounterExact<T>(cap: Cap, xs: seq<T>)
    requires cap.None? || |Distinct(xs)| <= cap.value
    ensures FoldCounter(cap, xs) == FoldCounter(None, xs)
  {
    hide FoldCounter, FoldSet;
    CounterHolds(cap, xs);
    CounterHolds(None, xs);
    ExactIffFits(cap, xs);
    ExactIffFits(None, xs);
  }

  lemma AtMostMonotone(cap: Cap, m: nat, n: nat)
    requires m <= n
    ensures AtMost(cap, m) <= AtMost(cap, n) <= n
  {
  }
}
