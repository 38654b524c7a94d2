// The exact signed-rank p-value by enumeration of all sign vectors, and its floor of 2/2^n:
// with five victims no outcome reaches 5 percent.
module SignedRank {
  import opened RealMath
  import opened Sequences
  import opened FiniteSets
  import opened Ranks

  /** A sign vector: position i is true when rank i counts toward W+. */
  type Signs = seq<bool>

  const TOLERANCE: real := 0.000000000001

  function DropZeros(d: seq<real>): seq<real> {
    if d == [] then [] else DropZeros(d[..|d| - 1]) + if d[|d| - 1] != 0.0 then [d[|d| - 1]] else []
  }

  function Magnitudes(d: seq<real>): seq<real> {
    Map(d, Abs)
  }

  function Positive(d: seq<real>): Signs {
    Map(d, (x: real) => x > 0.0)
  }

  /** itertools.product((0, 1), repeat=n). */
  function Product(n: nat): seq<Signs> {
    if n == 0 then [[]]
    else
      Map(Product(n - 1), (v: Signs) => [false] + v) + Map(Product(n - 1), (v: Signs) => [true] + v)
  }

  /** The sum of the ranks whose sign is set. */
  function Weight(rk: seq<real>, signs: Signs): real {
    if rk == [] || signs == [] then 0.0
    else (if signs[0] then rk[0] else 0.0) + Weight(rk[1..], signs[1..])
  }

  function Total(rk: seq<real>): real {
    Weight(rk, seq(|rk|, _ => true))
  }

  predicate Extreme(rk: seq<real>, w: real, signs: Signs) {
    var mu := Total(rk) / 2.0;
    Abs(Weight(rk, signs) - mu) >= Abs(w - mu) - TOLERANCE
  }

  function CountExtreme(rk: seq<real>, w: real, vectors: seq<Signs>): nat {
    if vectors == [] then 0
    else CountExtreme(rk, w, vectors[..|vectors| - 1]) + if Extreme(rk, w, vectors[|vectors| - 1]) then 1 else 0
  }

  function Pow2(n: nat): (r: nat)
    ensures 1 <= r
  {
    if n == 0 then 1 else 2 * Pow2(n - 1)
  }

  // ----- the definition the code must meet -----

  ghost function ExtremeSet(rk: seq<real>, w: real): set<Signs> {
    ExtremeAmong(rk, w, Product(|rk|))
  }

  ghost function ExtremeAmong(rk: seq<real>, w: real, vectors: seq<Signs>): set<Signs> {
    set s | s in vectors && Extreme(rk, w, s)
  }

  /** The share of all 2^n sign vectors whose W+ is at least as far from its mean as observed, over
      the average ranks of the nonzero magnitudes; 1 when no difference is nonzero. */
  ghost function PValue(diffs: seq<real>): real {
    var d := DropZeros(diffs);
    var rk := RanksOf(Magnitudes(d), Magnitudes(d));
    if d == [] then 1.0
    else |ExtremeSet(rk, Weight(rk, Positive(d)))| as real / Pow2(|d|) as real
  }

  // ----- the enumeration -----

  lemma ProductAt(n: nat, k: nat)
    requires n > 0 && k < |Product(n - 1)|
    ensures |Product(n)| == 2 * |Product(n - 1)|
    ensures Product(n)[k] == [false] + Product(n - 1)[k]
    ensures Product(n)[|Product(n - 1)| + k] == [true] + Product(n - 1)[k]
  {
    var half := Map(Product(n - 1), (v: Signs) => [false] + v);
    assert Product(n)[k] == half[k];
    assert Product(n)[|half| + k] == Map(Product(n - 1), (v: Signs) => [true] + v)[k];
  }

  lemma {:induction false} ProductSizes(n: nat)
    ensures |Product(n)| == Pow2(n)
    ensures forall i :: 0 <= i < |Product(n)| ==> |Product(n)[i]| == n
  {
    if n > 0 {
      ProductSizes(n - 1);
      var h := |Product(n - 1)|;
      forall i | 0 <= i < |Product(n)| ensures |Product(n)[i]| == n {
        ProductAt(n, if i < h then i else i - h);
      }
    }
  }

  lemma ConsDistinct(a: bool, b: bool, s: Signs, t: Signs)
    requires a != b || s != t
    ensures [a] + s != [b] + t
  {
    assert ([a] + s)[0] == a && ([b] + t)[0] == b;
    assert ([a] + s)[1..] == s && ([b] + t)[1..] == t;
  }

  lemma DistinctAt(n: nat, i: nat, j: nat)
    requires n > 0 && NoRepeats(Product(n - 1)) && i < j < |Product(n)|
    ensures Product(n)[i] != Product(n)[j]
  {
    var h := |Product(n - 1)|;
    var u, v := if i < h then i else i - h, if j < h then j else j - h;
    ProductAt(n, u);
    ProductAt(n, v);
    hide Product;
    ConsDistinct(h <= i, h <= j, Product(n - 1)[u], Product(n - 1)[v]);
  }

  lemma {:induction false} ProductDistinct(n: nat)
    ensures NoRepeats(Product(n))
  {
    if n > 0 {
      ProductDistinct(n - 1);
      hide Product;
      var all := Product(n);
      forall i, j | 0 <= i < j < |all| ensures all[i] != all[j] {
        DistinctAt(n, i, j);
      }
    }
  }

  /** Where the enumeration visits s. */
  lemma {:induction false} Visited(s: Signs) returns (k: nat)
    ensures k < |Product(|s|)| && Product(|s|)[k] == s
  {
    if s == [] {
      k := 0;
    } else {
      var j := Visited(s[1..]);
      ProductAt(|s|, j);
      hide Product;
      k := if s[0] then |Product(|s| - 1)| + j else j;
      assert s == [s[0]] + s[1..];
    }
  }

  lemma ProductComplete(s: Signs)
    ensures s in Product(|s|)
  {
    var k := Visited(s);
  }

  lemma LastIsNew(vectors: seq<Signs>)
    requires NoRepeats(vectors) && vectors != []
    ensures var n := |vectors| - 1;
      NoRepeats(vectors[..n]) && vectors[n] !in vectors[..n] && vectors == vectors[..n] + [vectors[n]]
  {
  }

  lemma ExtremeAmongStep(rk: seq<real>, w: real, rest: seq<Signs>, last: Signs)
    requires last !in rest
    ensures var before := ExtremeAmong(rk, w, rest);
      last !in before
      && ExtremeAmong(rk, w, rest + [last]) == if Extreme(rk, w, last) then before + {last} else before
  {
    hide Extreme;
  }

  lemma {:induction false} CountIsCardinality(rk: seq<real>, w: real, vectors: seq<Signs>)
    requires NoRepeats(vectors)
    ensures CountExtreme(rk, w, vectors) == |ExtremeAmong(rk, w, vectors)|
  {
    if vectors != [] {
      hide Extreme, NoRepeats, ExtremeAmong;
      var n := |vectors| - 1;
      LastIsNew(vectors);
      CountIsCardinality(rk, w, vectors[..n]);
      ExtremeAmongStep(rk, w, vectors[..n], vectors[n]);
    } else {
      assert ExtremeAmong(rk, w, vectors) == {};
    }
  }

  /** exact_signed_rank_p. */
  method ExactSignedRankP(diffs: seq<real>) returns (p: real)
    ensures p == PValue(diffs)
  {
    hide DropZeros, Weight, Product, MidRank, Pow2;
    var d := DropZeros(diffs);
    var n := |d|;
    if n == 0 {
      return 1.0;
    }
    ArgSortSorts(Magnitudes(d));
    var rk := AverageRanks(Magnitudes(d), ArgSort(Magnitudes(d)));
    assert rk == RanksOf(Magnitudes(d), Magnitudes(d));
    var wplus := Weight(rk, Positive(d));
    var mu := Total(rk) / 2.0;
    var cnt, ext := 0, 0;
    var vectors := Product(n);
    for t := 0 to |vectors|
      invariant cnt == t && ext == CountExtreme(rk, wplus, vectors[..t])
    {
      assert vectors[..t + 1][..t] == vectors[..t];
      var w := Weight(rk, vectors[t]);
      cnt := cnt + 1;
      if Abs(w - mu) >= Abs(wplus - mu) - TOLERANCE {
        ext := ext + 1;
      }
    }
    assert vectors[..|vectors|] == vectors;
    ProductSizes(n);
    ProductDistinct(n);
    CountIsCardinality(rk, wplus, vectors);
    p := ext as real / cnt as real;
  }

  // ----- complementary sign vectors -----

  function Flip(s: Signs): Signs {
    Map(s, (b: bool) => !b)
  }

  function Constant(n: nat, b: bool): Signs {
    seq(n, _ => b)
  }

  lemma {:induction false} FlipWeight(rk: seq<real>, s: Signs)
    requires |s| == |rk|
    ensures Weight(rk, s) + Weight(rk, Flip(s)) == Total(rk)
  {
    if s != [] {
      FlipWeight(rk[1..], s[1..]);
      assert Flip(s)[1..] == Flip(s[1..]);
      assert Constant(|rk|, true)[1..] == Constant(|rk| - 1, true);
      assert seq(|rk|, _ => true)[1..] == seq(|rk| - 1, _ => true);
    }
  }

  /** Weight adds exactly the ranks whose sign is set. */
  lemma {:induction false} WeightIsSum(rk: seq<real>, s: Signs)
    requires |s| == |rk|
    ensures Weight(rk, s) == Sum(Selected(rk, s))
    ensures Total(rk) == Sum(rk)
  {
    WeightSelects(rk, s);
    var all: Signs := seq(|rk|, _ => true);
    WeightSelects(rk, all);
    assert Selected(rk, all) == rk;
  }

  /** The ranks with a set sign, and 0 for the others. */
  function Selected(rk: seq<real>, s: Signs): (xs: seq<real>)
    requires |s| == |rk|
    ensures |xs| == |rk|
  {
    seq(|rk|, i requires 0 <= i < |rk| => if s[i] then rk[i] else 0.0)
  }

  lemma {:induction false} WeightSelects(rk: seq<real>, s: Signs)
    requires |s| == |rk|
    ensures Weight(rk, s) == Sum(Selected(rk, s))
  {
    if rk != [] {
      WeightSelects(rk[1..], s[1..]);
      assert Selected(rk, s) == [Selected(rk, s)[0]] + Selected(rk[1..], s[1..]);
      SumConcat([Selected(rk, s)[0]], Selected(rk[1..], s[1..]));
      assert [Selected(rk, s)[0]][..0] == [];
    }
  }

  predicate AllAtLeastOne(rk: seq<real>) {
    forall i :: 0 <= i < |rk| ==> 1.0 <= rk[i]
  }

  /** Only the constant vectors reach the ends 0 and Total; all others stay a full rank away. */
  lemma {:induction false} WeightRange(rk: seq<real>, s: Signs)
    requires |s| == |rk| && AllAtLeastOne(rk)
    ensures s == Constant(|rk|, false) ==> Weight(rk, s) == 0.0
    ensures s != Constant(|rk|, false) ==> 1.0 <= Weight(rk, s)
  {
    if s != [] {
      WeightRange(rk[1..], s[1..]);
      ConstantHeadTail(s, false);
    }
  }

  lemma ConstantHeadTail(s: Signs, b: bool)
    requires s != []
    ensures s == Constant(|s|, b) <==> s[0] == b && s[1..] == Constant(|s| - 1, b)
  {
    assert s == [s[0]] + s[1..];
    assert Constant(|s|, b) == [b] + Constant(|s| - 1, b);
    if s[0] != b || s[1..] != Constant(|s| - 1, b) {
      ConsDistinct(s[0], b, s[1..], Constant(|s| - 1, b));
    }
  }

  lemma FlipConstant(s: Signs)
    ensures Flip(Flip(s)) == s
    ensures Flip(s) == Constant(|s|, false) <==> s == Constant(|s|, true)
    ensures s != [] ==> Flip(s) != s
  {
    if Flip(s) == Constant(|s|, false) {
      forall i | 0 <= i < |s| ensures s[i] {
        assert Flip(s)[i] == false;
      }
    }
    if s != [] {
      assert Flip(s)[0] == !s[0];
    }
  }

  /** Distance from the mean, for a vector and for its complement. */
  lemma FlipDistance(rk: seq<real>, w: real, s: Signs)
    requires |s| == |rk|
    ensures Extreme(rk, w, Flip(s)) == Extreme(rk, w, s)
    ensures Extreme(rk, Weight(rk, s), s)
  {
    FlipWeight(rk, s);
  }

  /** A constant vector is at the greatest possible distance, Total/2. */
  lemma ConstantsExtreme(rk: seq<real>, s: Signs)
    requires |s| == |rk| && AllAtLeastOne(rk)
    ensures 0.0 <= Weight(rk, s) <= Total(rk)
    ensures Extreme(rk, Weight(rk, s), Constant(|rk|, false))
    ensures Extreme(rk, Weight(rk, s), Constant(|rk|, true))
  {
    WeightRange(rk, s);
    WeightRange(rk, Flip(s));
    FlipWeight(rk, s);
    WeightRange(rk, Constant(|rk|, false));
    assert Constant(|rk|, true) == seq(|rk|, _ => true);
  }

  // ----- how many vectors are extreme -----

  /** The observed vector and its complement are always extreme. */
  lemma AtLeastTwo(rk: seq<real>, s: Signs)
    requires |s| == |rk| && s != []
    ensures |ExtremeSet(rk, Weight(rk, s))| >= 2
  {
    ProductComplete(s);
    ProductComplete(Flip(s));
    FlipDistance(rk, Weight(rk, s), s);
    FlipConstant(s);
    SubsetSize({s, Flip(s)}, ExtremeSet(rk, Weight(rk, s)));
  }

  /** With one common sign, they are the only two. */
  lemma ExactlyTwo(rk: seq<real>, s: Signs)
    requires |s| == |rk| && s != [] && AllAtLeastOne(rk)
    requires s == Constant(|s|, false) || s == Constant(|s|, true)
    ensures |ExtremeSet(rk, Weight(rk, s))| == 2
  {
    var w := Weight(rk, s);
    var no, yes := Constant(|rk|, false), Constant(|rk|, true);
    AtLeastTwo(rk, s);
    forall t | t in ExtremeSet(rk, w) ensures t in {no, yes} {
      ProductSizes(|rk|);
      OnlyConstants(rk, s, t);
    }
    SubsetSize(ExtremeSet(rk, w), {no, yes});
  }

  lemma OnlyConstants(rk: seq<real>, s: Signs, t: Signs)
    requires |s| == |rk| && |t| == |rk| && AllAtLeastOne(rk)
    requires s == Constant(|s|, false) || s == Constant(|s|, true)
    requires Extreme(rk, Weight(rk, s), t)
    ensures t == Constant(|rk|, false) || t == Constant(|rk|, true)
  {
    WeightRange(rk, s);
    WeightRange(rk, t);
    WeightRange(rk, Flip(s));
    WeightRange(rk, Flip(t));
    FlipWeight(rk, s);
    FlipWeight(rk, t);
    FlipConstant(s);
    FlipConstant(t);
  }

  /** With both signs present, the two constant vectors are extreme as well. */
  lemma AtLeastFour(rk: seq<real>, s: Signs)
    requires |s| == |rk| && AllAtLeastOne(rk)
    requires s != Constant(|s|, false) && s != Constant(|s|, true)
    ensures |ExtremeSet(rk, Weight(rk, s))| >= 4
  {
    hide Extreme, Product, Weight;
    var no, yes := Constant(|rk|, false), Constant(|rk|, true);
    ProductComplete(s);
    ProductComplete(Flip(s));
    ProductComplete(no);
    ProductComplete(yes);
    FlipDistance(rk, Weight(rk, s), s);
    FlipConstant(s);
    FlipConstant(Flip(s));
    ConstantsExtreme(rk, s);
    assert Constant(0, true) == [];
    FourDistinct(s);
    SubsetSize({s, Flip(s), no, yes}, ExtremeSet(rk, Weight(rk, s)));
  }

  lemma FourDistinct(s: Signs)
    requires s != [] && s != Constant(|s|, false) && s != Constant(|s|, true)
    ensures |{s, Flip(s), Constant(|s|, false), Constant(|s|, true)}| == 4
  {
    FlipConstant(s);
    FlipConstant(Flip(s));
    assert Constant(|s|, false)[0] != Constant(|s|, true)[0];
  }

  // ----- W+ counts pairs -----

  function Negated(d: seq<real>): seq<real> {
    Map(d, (x: real) => -x)
  }

  /** How many values of b are smaller in magnitude than x > 0, equal ones counting one half. */
  function Beaten(b: seq<real>, x: real): real {
    if x > 0.0 then CountBelow(Magnitudes(b), x) as real + CountEqual(Magnitudes(b), x) as real / 2.0 else 0.0
  }

  function AllBeaten(b: seq<real>, a: seq<real>): real {
    if a == [] then 0.0 else Beaten(b, a[0]) + AllBeaten(b, a[1..])
  }

  lemma PairOf(b: seq<real>, x: real, y: real)
    requires x != 0.0 && y != 0.0
    ensures Beaten([y] + b, x) + Beaten([x], y)
      == Beaten(b, x) + if y > -x then 1.0 else if y == -x then 0.5 else 0.0
  {
    var m := Magnitudes([y] + b);
    assert m == [Abs(y)] + Magnitudes(b);
    var one := Magnitudes([x]);
    assert one == [Abs(x)] && one[1..] == [];
    assert CountBelow([], Abs(y)) == 0 && CountEqual([], Abs(y)) == 0;
  }

  lemma {:induction false} BeatenByOne(b: seq<real>, x: real)
    requires x != 0.0 && forall i :: 0 <= i < |b| ==> b[i] != 0.0
    ensures Beaten(b, x) + AllBeaten([x], b)
         == CountBelow(Negated(b), x) as real + CountEqual(Negated(b), x) as real / 2.0
  {
    if b != [] {
      BeatenByOne(b[1..], x);
      PairOf(b[1..], x, b[0]);
      assert b == [b[0]] + b[1..];
      assert Negated(b)[1..] == Negated(b[1..]);
    }
  }

  lemma BeatenGrows(a: seq<real>, x: real, y: real)
    ensures Beaten([x] + a, y) == Beaten([x], y) + Beaten(a, y)
    ensures Beaten([], y) == 0.0
  {
    assert Magnitudes([x] + a) == [Abs(x)] + Magnitudes(a);
    assert Magnitudes([x]) == [Abs(x)];
    CountsConcat([Abs(x)], Magnitudes(a), y);
  }

  lemma {:induction false} AllBeatenGrows(a: seq<real>, x: real, b: seq<real>)
    ensures AllBeaten([x] + a, b) == AllBeaten([x], b) + AllBeaten(a, b)
  {
    if b != [] {
      AllBeatenGrows(a, x, b[1..]);
      BeatenGrows(a, x, b[0]);
    } else {
      assert AllBeaten([x], b) == 0.0;
    }
  }

  lemma {:induction false} BothWays(a: seq<real>, b: seq<real>)
    requires forall i :: 0 <= i < |a| ==> a[i] != 0.0
    requires forall i :: 0 <= i < |b| ==> b[i] != 0.0
    ensures AllBeaten(b, a) + AllBeaten(a, b)
         == Wins(a, Negated(b)) as real + Ties(a, Negated(b)) as real / 2.0
  {
    if a == [] {
      NoneBeaten(b);
    } else {
      BothWays(a[1..], b);
      BeatenByOne(b, a[0]);
      AllBeatenGrows(a[1..], a[0], b);
      assert a == [a[0]] + a[1..];
    }
  }

  lemma {:induction false} NoneBeaten(b: seq<real>)
    ensures AllBeaten([], b) == 0.0
  {
    if b != [] {
      NoneBeaten(b[1..]);
      BeatenGrows([], 0.0, b[0]);
    }
  }

  lemma {:induction false} WeightCounts(b: seq<real>, a: seq<real>)
    ensures Weight(RanksOf(Magnitudes(a), Magnitudes(b)), Positive(a))
         == AllBeaten(b, a) + CountAbove(a, 0.0) as real / 2.0
  {
    if a != [] {
      WeightCounts(b, a[1..]);
      var rk, pos := RanksOf(Magnitudes(a), Magnitudes(b)), Positive(a);
      assert rk[1..] == RanksOf(Magnitudes(a[1..]), Magnitudes(b));
      assert pos[1..] == Positive(a[1..]);
      assert rk[0] == MidRank(Magnitudes(b), Abs(a[0]));
    }
  }

  /** W+ by pairs: twice the observed statistic is the number of ordered pairs of nonzero differences
      with a positive sum, a sum of 0 counting one half, and once more the positive differences. */
  lemma ObservedByPairs(diffs: seq<real>)
    ensures var d := DropZeros(diffs);
      2.0 * Weight(RanksOf(Magnitudes(d), Magnitudes(d)), Positive(d))
      == Wins(d, Negated(d)) as real + Ties(d, Negated(d)) as real / 2.0 + CountAbove(d, 0.0) as real
  {
    var d := DropZeros(diffs);
    DropZerosFacts(diffs);
    BothWays(d, d);
    WeightCounts(d, d);
  }

  // ----- the p-value -----

  /** The positions of the nonzero differences. */
  ghost function NonzeroAt(diffs: seq<real>): set<nat> {
    set i: nat | i < |diffs| && diffs[i] != 0.0
  }

  /** kept lists the differences at exactly those positions, in their order. */
  ghost predicate Lists(d: seq<real>, kept: seq<real>, at: seq<nat>) {
    && |at| == |kept| <= |d|
    && (forall i, j :: 0 <= i < j < |at| ==> at[i] < at[j])
    && (forall i :: 0 <= i < |at| ==> at[i] < |d| && d[at[i]] == kept[i])
    && forall k: nat :: k in at <==> k < |d| && d[k] != 0.0
  }

  lemma ListsZero(d: seq<real>, kept: seq<real>, at: seq<nat>)
    requires Lists(d, kept, at)
    ensures Lists(d + [0.0], kept, at)
  {
  }

  lemma ListsNonzero(d: seq<real>, kept: seq<real>, at: seq<nat>, x: real)
    requires Lists(d, kept, at) && x != 0.0
    ensures Lists(d + [x], kept + [x], at + [|d|])
  {
  }

  lemma {:induction false} DropZerosKeeps(d: seq<real>) returns (at: seq<nat>)
    ensures Lists(d, DropZeros(d), at)
  {
    at := [];
    if d != [] {
      var n := |d| - 1;
      at := DropZerosKeeps(d[..n]);
      hide Lists;
      assert d == d[..n] + [d[n]];
      if d[n] != 0.0 {
        ListsNonzero(d[..n], DropZeros(d[..n]), at, d[n]);
        at := at + [n];
      } else {
        ListsZero(d[..n], DropZeros(d[..n]), at);
      }
    }
  }

  /** Only the zeros are lost. */
  lemma {:induction false} DropZerosExact(d: seq<real>)
    ensures multiset(DropZeros(d)) == multiset(d)[0.0 := 0]
  {
    if d != [] {
      var n := |d| - 1;
      DropZerosExact(d[..n]);
      assert d == d[..n] + [d[n]];
    }
  }

  lemma DropZerosFacts(d: seq<real>)
    ensures |DropZeros(d)| == |NonzeroAt(d)| <= |d|
    ensures forall i :: 0 <= i < |DropZeros(d)| ==> DropZeros(d)[i] != 0.0
    ensures OneSign(DropZeros(d)) <==> OneSided(d)
  {
    var at := DropZerosKeeps(d);
    hide DropZeros;
    ElementsSize(at);
    assert Elements(at) == NonzeroAt(d);
    forall i | 0 <= i < |at| ensures DropZeros(d)[i] != 0.0 {
      assert at[i] in at;
    }
    KeptSigns(d, DropZeros(d), at);
  }

  lemma KeptSigns(d: seq<real>, kept: seq<real>, at: seq<nat>)
    requires Lists(d, kept, at)
    ensures OneSign(kept) <==> OneSided(d)
  {
    forall i | 0 <= i < |kept| ensures kept[i] != 0.0 {
      assert at[i] in at;
    }
    forall k | 0 <= k < |d| && d[k] != 0.0 ensures d[k] in kept {
      assert k in at;
    }
  }

  /** No two differences have opposite signs. */
  predicate OneSided(d: seq<real>) {
    (forall i :: 0 <= i < |d| ==> d[i] >= 0.0) || (forall i :: 0 <= i < |d| ==> d[i] <= 0.0)
  }

  predicate OneSign(d: seq<real>) {
    (forall i :: 0 <= i < |d| ==> d[i] > 0.0) || (forall i :: 0 <= i < |d| ==> d[i] < 0.0)
  }

  lemma OneSignIsConstant(d: seq<real>)
    requires forall i :: 0 <= i < |d| ==> d[i] != 0.0
    ensures OneSign(d) <==> (Positive(d) == Constant(|d|, true) || Positive(d) == Constant(|d|, false))
  {
    if Positive(d) == Constant(|d|, true) {
      forall i | 0 <= i < |d| ensures d[i] > 0.0 {
        assert Positive(d)[i];
      }
    }
    if Positive(d) == Constant(|d|, false) {
      forall i | 0 <= i < |d| ensures d[i] < 0.0 {
        assert !Positive(d)[i];
      }
    }
  }

  lemma DivideByPositive(a: real, b: real, c: real)
    requires 0.0 < c
    ensures a <= b ==> a / c <= b / c
    ensures a < b ==> a / c < b / c
    ensures c / c == 1.0
  {
  }

  lemma ExtremeAtMostAll(rk: seq<real>, w: real)
    ensures |ExtremeSet(rk, w)| <= Pow2(|rk|)
  {
    ProductSizes(|rk|);
    SubsetSize(ExtremeSet(rk, w), Elements(Product(|rk|)));
    ElementsSize(Product(|rk|));
  }

  ghost function Elements<T>(xs: seq<T>): set<T> {
    set x | x in xs
  }

  lemma {:induction false} ElementsSize<T>(xs: seq<T>)
    ensures |Elements(xs)| <= |xs|
    ensures NoRepeats(xs) ==> |Elements(xs)| == |xs|
  {
    if xs != [] {
      ElementsSize(xs[1..]);
      assert Elements(xs) == {xs[0]} + Elements(xs[1..]);
    }
  }

  lemma FloorOfKept(diffs: seq<real>)
    requires DropZeros(diffs) != []
    ensures 2.0 / Pow2(|DropZeros(diffs)|) as real <= PValue(diffs) <= 1.0
    ensures PValue(diffs) == 2.0 / Pow2(|DropZeros(diffs)|) as real <==> OneSign(DropZeros(diffs))
  {
    var d := DropZeros(diffs);
    var rk := RanksOf(Magnitudes(d), Magnitudes(d));
    var s := Positive(d);
    var e := |ExtremeSet(rk, Weight(rk, s))|;
    DropZerosFacts(diffs);
    hide DropZeros;
    RankTotal(Magnitudes(d));
    OneSignIsConstant(d);
    AtLeastTwo(rk, s);
    ExtremeAtMostAll(rk, Weight(rk, s));
    DivideByPositive(2.0, e as real, Pow2(|d|) as real);
    DivideByPositive(e as real, Pow2(|d|) as real, Pow2(|d|) as real);
    if OneSign(d) {
      ExactlyTwo(rk, s);
    } else {
      AtLeastFour(rk, s);
    }
  }

  /** The floor: with n >= 1 nonzero differences the p-value lies in [2/2^n, 1], and it is exactly
      2/2^n if and only if no two differences have opposite signs; with none it is 1. */
  lemma Floor(diffs: seq<real>)
    ensures var n := |NonzeroAt(diffs)|;
      && (n == 0 ==> PValue(diffs) == 1.0)
      && (n > 0 ==>
        && 2.0 / Pow2(n) as real <= PValue(diffs) <= 1.0
        && (PValue(diffs) == 2.0 / Pow2(n) as real <==> OneSided(diffs)))
  {
    hide DropZeros, Pow2, OneSign, OneSided;
    DropZerosFacts(diffs);
    if DropZeros(diffs) != [] {
      hide PValue;
      FloorOfKept(diffs);
    }
  }

  lemma AllNonzero(diffs: seq<real>)
    requires forall i :: 0 <= i < |diffs| ==> diffs[i] != 0.0
    ensures |NonzeroAt(diffs)| == |diffs|
  {
    ElementsSize(Iota(|diffs|));
    assert NonzeroAt(diffs) == Elements(Iota(|diffs|)) by {
      forall i: nat | i < |diffs| ensures i in Iota(|diffs|) {
        assert Iota(|diffs|)[i] == i;
      }
    }
  }

  /** In particular n differences of one strict sign always give 2/2^n. */
  lemma OneSignFloor(diffs: seq<real>)
    requires diffs != [] && OneSign(diffs)
    ensures PValue(diffs) == 2.0 / Pow2(|diffs|) as real
  {
    hide PValue, Pow2;
    AllNonzero(diffs);
    Floor(diffs);
  }

  /** The direction of the comparison does not matter. */
  lemma NegationInvariant(diffs: seq<real>)
    ensures PValue(Negated(diffs)) == PValue(diffs)
  {
    var minus := Negated(diffs);
    var d, e := DropZeros(diffs), DropZeros(minus);
    DropZerosNegated(diffs);
    if d != [] {
      var rk := RanksOf(Magnitudes(d), Magnitudes(d));
      DropZerosFacts(diffs);
      assert Magnitudes(e) == Magnitudes(d);
      assert Positive(e) == Flip(Positive(d));
      FlipWeight(rk, Positive(d));
      SameDistanceSameSet(rk, Weight(rk, Positive(d)), Weight(rk, Positive(e)));
    }
  }

  lemma {:induction false} DropZerosNegated(d: seq<real>)
    ensures DropZeros(Negated(d)) == Negated(DropZeros(d))
  {
    if d != [] {
      var n := |d| - 1;
      DropZerosNegated(d[..n]);
      assert Negated(d)[..n] == Negated(d[..n]);
    }
  }

  lemma SameDistanceSameSet(rk: seq<real>, v: real, w: real)
    requires v + w == Total(rk)
    ensures ExtremeSet(rk, v) == ExtremeSet(rk, w)
  {
    forall s ensures Extreme(rk, v, s) == Extreme(rk, w, s) {
    }
  }

  // ----- the claim of the README -----

  lemma {:induction false} Pow2Monotone(m: nat, n: nat)
    requires m <= n
    ensures Pow2(m) <= Pow2(n)
  {
    if m < n {
      Pow2Monotone(m, n - 1);
    }
  }

  lemma TwoOver(n: nat)
    requires n > 0
    ensures n <= 32 ==> 2.0 / n as real >= 0.0625
    ensures n >= 64 ==> 2.0 / n as real < 0.05
  {
    var q := 2.0 / n as real;
    assert q * n as real == 2.0;
  }

  lemma FloorAt(k: nat)
    ensures k <= 5 ==> 2.0 / Pow2(k) as real >= 0.0625
    ensures k >= 6 ==> 2.0 / Pow2(k) as real < 0.05
  {
    TwoOver(Pow2(k));
    assert Pow2(3) == 8;
    assert Pow2(5) == 32;
    assert Pow2(6) == 64;
    if k <= 5 {
      Pow2Monotone(k, 5);
    } else {
      Pow2Monotone(6, k);
    }
  }

  /** With at most five victims the exact test never goes below 1/16, so 5 percent is unreachable. */
  lemma FiveVictims(diffs: seq<real>)
    requires |diffs| <= 5
    ensures PValue(diffs) >= 0.0625 > 0.05
  {
    hide PValue, OneSided;
    DropZerosFacts(diffs);
    Floor(diffs);
    FloorAt(|NonzeroAt(diffs)|);
  }

  /** Exactly when 5 percent is reachable: some outcome of n nonzero differences has p < 0.05 if and
      only if n >= 6. */
  lemma FivePercentReachable(n: nat)
    ensures (exists d :: |NonzeroAt(d)| == n && PValue(d) < 0.05) <==> n >= 6
  {
    hide PValue, OneSided;
    FloorAt(n);
    if n >= 6 {
      var d := seq(n, _ => 1.0);
      OneSignFloor(d);
      AllNonzero(d);
    } else {
      forall d | |NonzeroAt(d)| == n ensures PValue(d) >= 0.05 {
        Floor(d);
      }
    }
  }

  // ----- the float tolerance -----

  predicate Halves(x: real) {
    2.0 * x == (2.0 * x).Floor as real
  }

  lemma {:induction false} WeightHalves(rk: seq<real>, s: Signs)
    requires forall i :: 0 <= i < |rk| ==> Halves(rk[i])
    ensures Halves(Weight(rk, s))
  {
    if rk != [] && s != [] {
      WeightHalves(rk[1..], s[1..]);
      HalvesSum(rk[0], Weight(rk[1..], s[1..]));
    }
  }

  lemma HalvesSum(x: real, y: real)
    requires Halves(x) && Halves(y)
    ensures Halves(x + y)
  {
    var k := (2.0 * x).Floor + (2.0 * y).Floor;
    assert 2.0 * (x + y) == k as real;
  }

  /** Ranks are halves, so the 1e-12 in the comparison decides nothing: it admits exactly the
      vectors at least as far from the mean as observed. */
  lemma ToleranceHarmless(keys: seq<real>, s: Signs, t: Signs)
    ensures var rk := RanksOf(keys, keys); var mu := Total(rk) / 2.0;
      Extreme(rk, Weight(rk, s), t) <==> Abs(Weight(rk, t) - mu) >= Abs(Weight(rk, s) - mu)
  {
    var rk := RanksOf(keys, keys);
    forall i | 0 <= i < |rk| ensures Halves(rk[i]) {
      MidRankHalves(keys, keys[i]);
    }
    WeightHalves(rk, s);
    WeightHalves(rk, t);
    WeightHalves(rk, seq(|rk|, _ => true));
    QuarterSteps(Weight(rk, s), Weight(rk, t), Total(rk));
  }

  lemma TwiceInteger(x: real, k: int)
    requires 2.0 * x == k as real
    ensures Halves(x)
  {
  }

  lemma MidRankHalves(xs: seq<real>, v: real)
    ensures Halves(MidRank(xs, v))
  {
    hide CountBelow, CountEqual;
    var k := 2 * CountBelow(xs, v) + CountEqual(xs, v) + 1;
    TwiceInteger(MidRank(xs, v), k);
  }

  lemma QuarterGap(x: real, y: real, p: int, q: int)
    requires 4.0 * x == p as real && 4.0 * y == q as real
    ensures Abs(y) >= Abs(x) - TOLERANCE <==> Abs(y) >= Abs(x)
  {
    var m, n := if p < 0 then -p else p, if q < 0 then -q else q;
    assert 4.0 * Abs(x) == m as real && 4.0 * Abs(y) == n as real;
  }

  lemma QuarterSteps(v: real, w: real, total: real)
    requires Halves(v) && Halves(w) && Halves(total)
    ensures Abs(w - total / 2.0) >= Abs(v - total / 2.0) - TOLERANCE
       <==> Abs(w - total / 2.0) >= Abs(v - total / 2.0)
  {
    var a, b, c := (2.0 * v).Floor, (2.0 * w).Floor, (2.0 * total).Floor;
    var p, q := 2 * a - c, 2 * b - c;
    var x, y := v - total / 2.0, w - total / 2.0;
    assert 4.0 * x == p as real;
    assert 4.0 * y == q as real;
    QuarterGap(x, y, p, q);
  }
}
