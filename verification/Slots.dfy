// SlotBaseline: one EWMA slot, and the exponentially weighted statistics it computes.
module Slots {
  import opened RealMath
  import opened Sequences

  /** The mutable fields of a slot. */
  datatype Slot = Slot(mean: real, variance: real, count: nat)

  const FRESH := Slot(0.0, 0.0, 0)

  function Moved(alpha: real, mean: real, delta: real): real {
    mean + alpha * delta
  }

  function Spread(alpha: real, variance: real, delta: real): real {
    (1.0 - alpha) * (variance + alpha * delta * delta)
  }

  function Step(alpha: real, s: Slot, x: real): Slot {
    if s.count == 0 then Slot(x, 0.0, 1)
    else Slot(Moved(alpha, s.mean, x - s.mean), Spread(alpha, s.variance, x - s.mean), s.count + 1)
  }

  /** A fresh slot after a whole history. */
  function Fold(alpha: real, xs: seq<real>): Slot {
    if xs == [] then FRESH else Step(alpha, Fold(alpha, xs[..|xs| - 1]), xs[|xs| - 1])
  }

  /** Where a slot sits in its tier. Two slots with different places are different objects. */
  datatype Place = Place(slot: nat, feature: string)

  class SlotBaseline {
    var mean: real
    var variance: real
    var count: nat
    const alpha: real
    const minSamples: nat
    ghost const place: Place

    constructor (alpha: real, minSamples: nat, ghost place: Place)
      ensures State() == FRESH && this.alpha == alpha && this.minSamples == minSamples && this.place == place
    {
      this.place := place;
      mean, variance, count := 0.0, 0.0, 0;
      this.alpha, this.minSamples := alpha, minSamples;
    }

    function State(): Slot
      reads this
    {
      Slot(mean, variance, count)
    }

    predicate Ready()
      reads this
    {
      count >= minSamples
    }

    method Update(x: real)
      modifies this
      ensures State() == Step(alpha, old(State()), x)
    {
      if count == 0 {
        mean := x;
        variance := 0.0;
        count := 1;
        return;
      }
      count := count + 1;
      var delta := x - mean;
      mean := mean + alpha * delta;
      variance := (1.0 - alpha) * (variance + alpha * delta * delta);
    }
  }

  // ----- the weighted definition -----

  /** The weight of sample i among n: the first sample keeps what the later ones have not taken. */
  function Weight(alpha: real, n: nat, i: nat): real
    requires i < n
  {
    if i == 0 then Pow(1.0 - alpha, n - 1) else alpha * Pow(1.0 - alpha, n - 1 - i)
  }

  function PartialSum(alpha: real, n: nat, ys: seq<real>, k: nat): real
    requires k <= n && k <= |ys|
  {
    if k == 0 then 0.0 else PartialSum(alpha, n, ys, k - 1) + Weight(alpha, n, k - 1) * ys[k - 1]
  }

  function WeightedSum(alpha: real, ys: seq<real>): real {
    PartialSum(alpha, |ys|, ys, |ys|)
  }

  function Square(x: real): real {
    x * x
  }

  function Ones(xs: seq<real>): seq<real> {
    Map(xs, (x: real) => 1.0)
  }

  function Squares(xs: seq<real>): seq<real> {
    Map(xs, (x: real) => Square(x))
  }

  function SquaredDeviations(xs: seq<real>, m: real): seq<real> {
    Map(xs, (x: real) => Square(x - m))
  }

  // ----- the recurrence of every weighted sum -----

  /** The blend of an old value and a new one. */
  function Mix(alpha: real, u: real, v: real): real {
    (1.0 - alpha) * u + alpha * v
  }

  lemma WeightStep(alpha: real, n: nat, i: nat)
    requires i < n
    ensures Weight(alpha, n + 1, i) == (1.0 - alpha) * Weight(alpha, n, i)
    ensures Weight(alpha, n + 1, n) == alpha
    ensures Weight(alpha, 1, 0) == 1.0
  {
    var b, p := 1.0 - alpha, Pow(1.0 - alpha, n - 1 - i);
    assert n + 1 - 1 - i == (n - 1 - i) + 1;
    assert Pow(b, n - i) == b * p;
    assert alpha * (b * p) == b * (alpha * p);
    assert Pow(b, 0) == 1.0;
  }

  lemma Distribute(b: real, p: real, w: real, y: real)
    ensures b * p + (b * w) * y == b * (p + w * y)
  {
  }

  lemma {:induction false} PartialSumStep(alpha: real, n: nat, ys: seq<real>, y: real, k: nat)
    requires k <= n == |ys|
    ensures PartialSum(alpha, n + 1, ys + [y], k) == (1.0 - alpha) * PartialSum(alpha, n, ys, k)
  {
    hide Weight;
    if k > 0 {
      PartialSumStep(alpha, n, ys, y, k - 1);
      WeightStep(alpha, n, k - 1);
      Distribute(1.0 - alpha, PartialSum(alpha, n, ys, k - 1), Weight(alpha, n, k - 1), ys[k - 1]);
    }
  }

  /** One more sample: the old weights shrink by 1 - alpha and the new sample gets alpha. */
  lemma WeightedSumStep(alpha: real, ys: seq<real>, y: real)
    ensures ys != [] ==> WeightedSum(alpha, ys + [y]) == Mix(alpha, WeightedSum(alpha, ys), y)
    ensures WeightedSum(alpha, [y]) == y
  {
    hide Weight;
    PartialSumStep(alpha, |ys|, ys, y, |ys|);
    WeightStep(alpha, 1, 0);
    assert PartialSum(alpha, 1, [y], 0) == 0.0;
    if ys != [] {
      WeightStep(alpha, |ys|, 0);
    }
  }

  /** The same step for the values f of the samples. */
  lemma MappedStep(alpha: real, xs: seq<real>, f: real -> real)
    requires xs != []
    ensures |xs| > 1 ==>
      WeightedSum(alpha, Map(xs, f)) == Mix(alpha, WeightedSum(alpha, Map(xs[..|xs| - 1], f)), f(xs[|xs| - 1]))
    ensures |xs| == 1 ==> WeightedSum(alpha, Map(xs, f)) == f(xs[0])
  {
    hide WeightedSum, Mix;
    var n := |xs| - 1;
    assert Map(xs, f) == Map(xs[..n], f) + [f(xs[n])];
    WeightedSumStep(alpha, Map(xs[..n], f), f(xs[n]));
    if n == 0 {
      assert Map(xs, f) == [f(xs[n])];
    }
  }

  lemma SamplesStep(alpha: real, xs: seq<real>)
    requires xs != []
    ensures |xs| > 1 ==>
      WeightedSum(alpha, xs) == Mix(alpha, WeightedSum(alpha, xs[..|xs| - 1]), xs[|xs| - 1])
    ensures |xs| == 1 ==> WeightedSum(alpha, xs) == xs[0]
  {
    hide WeightedSum, Mix;
    var n := |xs| - 1;
    assert xs == xs[..n] + [xs[n]];
    WeightedSumStep(alpha, xs[..n], xs[n]);
    if n == 0 {
      assert xs == [xs[0]];
    }
  }

  lemma {:induction false} OnesWeigh1(alpha: real, xs: seq<real>)
    requires xs != []
    ensures WeightedSum(alpha, Ones(xs)) == 1.0
  {
    hide WeightedSum, Mix;
    MappedStep(alpha, xs, (x: real) => 1.0);
    if |xs| > 1 {
      OnesWeigh1(alpha, xs[..|xs| - 1]);
      MixSame(alpha, 1.0);
    }
  }

  lemma MixSame(alpha: real, u: real)
    ensures Mix(alpha, u, u) == u
  {
    assert (1.0 - alpha) * u + alpha * u == u;
  }

  // ----- moments -----

  function Shifted(a: real, b: real, t: real, s: real): real {
    a - t * b + s
  }

  /** The mean of (x - m)^2 by the second moment a and the first moment b. */
  function Central(a: real, b: real, m: real): real {
    Shifted(a, b, 2.0 * m, Square(m))
  }

  lemma ShiftedMix(alpha: real, a: real, b: real, y: real, x: real, t: real, s: real)
    ensures Mix(alpha, Shifted(a, b, t, s), Shifted(y, x, t, s)) == Shifted(Mix(alpha, a, y), Mix(alpha, b, x), t, s)
  {
  }

  lemma SquareExpanded(x: real, m: real)
    ensures Square(x - m) == Shifted(Square(x), x, 2.0 * m, Square(m))
  {
  }

  lemma CentralMix(alpha: real, a: real, b: real, x: real, m: real)
    ensures Mix(alpha, Central(a, b, m), Square(x - m))
         == Central(Mix(alpha, a, Square(x)), Mix(alpha, b, x), m)
    ensures Square(x - m) == Central(Square(x), x, m)
  {
    hide Mix, Shifted, Square;
    SquareExpanded(x, m);
    ShiftedMix(alpha, a, b, Square(x), x, 2.0 * m, Square(m));
  }

  /** The weighted sum of squared deviations from any centre m, by its first two moments. */
  lemma {:induction false} DeviationsByMoments(alpha: real, xs: seq<real>, m: real)
    requires xs != []
    ensures WeightedSum(alpha, SquaredDeviations(xs, m))
         == Central(WeightedSum(alpha, Squares(xs)), WeightedSum(alpha, xs), m)
  {
    hide WeightedSum, Mix, Central, Square;
    var n := |xs| - 1;
    MappedStep(alpha, xs, (x: real) => Square(x - m));
    MappedStep(alpha, xs, (x: real) => Square(x));
    SamplesStep(alpha, xs);
    if n > 0 {
      DeviationsByMoments(alpha, xs[..n], m);
      CentralMix(alpha, WeightedSum(alpha, Squares(xs[..n])), WeightedSum(alpha, xs[..n]), xs[n], m);
    } else {
      CentralMix(alpha, 0.0, 0.0, xs[0], m);
    }
  }

  /** The slot whose first two moments are a and b. */
  function FromMoments(a: real, b: real, n: nat): Slot {
    Slot(b, a - b * b, n)
  }

  lemma StepMoments(alpha: real, a: real, b: real, n: nat, x: real)
    requires n > 0
    ensures Step(alpha, FromMoments(a, b, n), x)
         == FromMoments(Mix(alpha, a, Square(x)), Mix(alpha, b, x), n + 1)
    ensures Step(alpha, FRESH, x) == FromMoments(Square(x), x, 1)
  {
    FreshMoments(x);
    MeanAlgebra(alpha, b, x);
    VarianceAlgebra(alpha, a, b, x);
    hide Moved, Spread, Mix, Square;
  }

  lemma MeanAlgebra(alpha: real, b: real, x: real)
    ensures Moved(alpha, b, x - b) == Mix(alpha, b, x)
  {
  }

  lemma FreshMoments(x: real)
    ensures FromMoments(Square(x), x, 1) == Slot(x, 0.0, 1)
  {
  }

  lemma VarianceAlgebra(alpha: real, a: real, b: real, x: real)
    ensures Spread(alpha, a - b * b, x - b)
         == Mix(alpha, a, Square(x)) - Mix(alpha, b, x) * Mix(alpha, b, x)
  {
  }

  lemma {:induction false} FoldMoments(alpha: real, xs: seq<real>)
    requires xs != []
    ensures Fold(alpha, xs) == FromMoments(WeightedSum(alpha, Squares(xs)), WeightedSum(alpha, xs), |xs|)
  {
    hide WeightedSum, Mix, Square, Step, FromMoments;
    var n := |xs| - 1;
    MappedStep(alpha, xs, (x: real) => Square(x));
    SamplesStep(alpha, xs);
    if n > 0 {
      FoldMoments(alpha, xs[..n]);
      StepMoments(alpha, WeightedSum(alpha, Squares(xs[..n])), WeightedSum(alpha, xs[..n]), n, xs[n]);
    } else {
      assert Fold(alpha, xs[..n]) == FRESH;
      StepMoments(alpha, 0.0, 0.0, 1, xs[0]);
    }
  }

  lemma CentralAtMean(a: real, b: real)
    ensures Central(a, b, b) == a - b * b
  {
  }

  /** A slot holds exactly the exponentially weighted mean and variance of its history, under
      weights that sum to 1. */
  lemma FoldIsWeighted(alpha: real, xs: seq<real>)
    requires xs != []
    ensures WeightedSum(alpha, Ones(xs)) == 1.0
    ensures Fold(alpha, xs).count == |xs|
    ensures Fold(alpha, xs).mean == WeightedSum(alpha, xs)
    ensures Fold(alpha, xs).variance == WeightedSum(alpha, SquaredDeviations(xs, Fold(alpha, xs).mean))
  {
    hide WeightedSum, Fold, Central;
    var a, b := WeightedSum(alpha, Squares(xs)), WeightedSum(alpha, xs);
    OnesWeigh1(alpha, xs);
    FoldMoments(alpha, xs);
    DeviationsByMoments(alpha, xs, b);
    CentralAtMean(a, b);
  }

  // ----- bounds -----

  lemma Between(alpha: real, lo: real, u: real, v: real, hi: real)
    requires 0.0 <= alpha <= 1.0 && lo <= u <= hi && lo <= v <= hi
    ensures lo <= Mix(alpha, u, v) <= hi
  {
    MixMonotone(alpha, lo, lo, u, v);
    MixMonotone(alpha, u, v, hi, hi);
    MixSame(alpha, lo);
    MixSame(alpha, hi);
  }

  lemma MixMonotone(alpha: real, u: real, v: real, u': real, v': real)
    requires 0.0 <= alpha <= 1.0 && u <= u' && v <= v'
    ensures Mix(alpha, u, v) <= Mix(alpha, u', v')
  {
    MixDifference(alpha, u, v, u', v');
    ProductSign(1.0 - alpha, u' - u);
    ProductSign(alpha, v' - v);
  }

  lemma MixDifference(alpha: real, u: real, v: real, u': real, v': real)
    ensures Mix(alpha, u', v') - Mix(alpha, u, v) == (1.0 - alpha) * (u' - u) + alpha * (v' - v)
  {
  }

  lemma ProductSign(p: real, q: real)
    requires 0.0 <= p && 0.0 <= q
    ensures 0.0 <= p * q
  {
  }

  /** The chord of the square between lo and hi. */
  function Chord(lo: real, hi: real, b: real): real {
    (lo + hi) * b - lo * hi
  }

  lemma ChordFacts(alpha: real, lo: real, hi: real, b: real, x: real)
    ensures lo <= x <= hi ==> Square(x) <= Chord(lo, hi, x)
    ensures Mix(alpha, Chord(lo, hi, b), Chord(lo, hi, x)) == Chord(lo, hi, Mix(alpha, b, x))
    ensures Chord(lo, hi, b) - b * b == (hi - b) * (b - lo)
  {
    if lo <= x <= hi {
      var p, q := hi - x, x - lo;
      MulMonotone(0.0, p, q);
      assert 0.0 <= p * q;
      assert p * q == (lo + hi) * x - lo * hi - x * x;
    }
    var s, t := lo + hi, lo * hi;
    assert (1.0 - alpha) * (s * b - t) + alpha * (s * x - t) == s * ((1.0 - alpha) * b + alpha * x) - t;
  }

  lemma {:induction false} MomentBounds(alpha: real, xs: seq<real>, lo: real, hi: real)
    requires 0.0 <= alpha <= 1.0 && xs != [] && forall i :: 0 <= i < |xs| ==> lo <= xs[i] <= hi
    ensures lo <= WeightedSum(alpha, xs) <= hi
    ensures WeightedSum(alpha, Squares(xs)) <= Chord(lo, hi, WeightedSum(alpha, xs))
  {
    hide WeightedSum, Mix, Chord, Square;
    var n := |xs| - 1;
    var x := xs[n];
    MappedStep(alpha, xs, (y: real) => Square(y));
    SamplesStep(alpha, xs);
    ChordFacts(alpha, lo, hi, x, x);
    if n > 0 {
      var a, b := WeightedSum(alpha, Squares(xs[..n])), WeightedSum(alpha, xs[..n]);
      MomentBounds(alpha, xs[..n], lo, hi);
      Between(alpha, lo, b, x, hi);
      ChordFacts(alpha, lo, hi, b, x);
      MixMonotone(alpha, a, Square(x), Chord(lo, hi, b), Chord(lo, hi, x));
    }
  }

  lemma StepVariance(alpha: real, s: Slot, x: real)
    requires 0.0 <= alpha <= 1.0 && 0.0 <= s.variance
    ensures 0.0 <= Step(alpha, s, x).variance
  {
    var delta := x - s.mean;
    MulMonotone(0.0, delta * delta, alpha);
    assert alpha * delta * delta == alpha * (delta * delta);
    MulMonotone(0.0, s.variance + alpha * delta * delta, 1.0 - alpha);
  }

  lemma {:induction false} VarianceNonNegative(alpha: real, xs: seq<real>)
    requires 0.0 <= alpha <= 1.0
    ensures 0.0 <= Fold(alpha, xs).variance
  {
    hide Step;
    if xs != [] {
      VarianceNonNegative(alpha, xs[..|xs| - 1]);
      StepVariance(alpha, Fold(alpha, xs[..|xs| - 1]), xs[|xs| - 1]);
    }
  }

  /** The mean stays among the samples, and the variance obeys the sharp bound for that range. */
  lemma FoldBounds(alpha: real, xs: seq<real>, lo: real, hi: real)
    requires 0.0 <= alpha <= 1.0 && xs != [] && forall i :: 0 <= i < |xs| ==> lo <= xs[i] <= hi
    ensures var s := Fold(alpha, xs);
      lo <= s.mean <= hi && 0.0 <= s.variance <= (hi - s.mean) * (s.mean - lo)
  {
    hide WeightedSum, Fold, Chord;
    FoldMoments(alpha, xs);
    MomentBounds(alpha, xs, lo, hi);
    VarianceNonNegative(alpha, xs);
    ChordFacts(alpha, lo, hi, WeightedSum(alpha, xs), lo);
  }
}
