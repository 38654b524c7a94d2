// Cardinalities and sums over finite sets.
module FiniteSets {

  lemma SubsetSize<T>(a: set<T>, b: set<T>)
    requires a <= b
    ensures |a| <= |b|
    ensures |a| == |b| ==> a == b
  {
    assert b == a + (b - a);
  }

  ghost function Image<T(!new), U>(s: set<T>, f: T -> U): set<U> {
    set x | x in s :: f(x)
  }

  lemma {:induction false} ImageSize<T(!new), U>(s: set<T>, f: T -> U)
    ensures |Image(s, f)| <= |s|
  {
    if s != {} {
      var x :| x in s;
      ImageSize(s - {x}, f);
      assert Image(s, f) == Image(s - {x}, f) + {f(x)};
    }
  }

  ghost predicate InjectiveOn<T(!new), U>(s: set<T>, f: T -> U) {
    forall x, y :: x in s && y in s && f(x) == f(y) ==> x == y
  }

  lemma {:induction false} ImageSizeExact<T(!new), U>(s: set<T>, f: T -> U)
    ensures |Image(s, f)| == |s| <==> InjectiveOn(s, f)
  {
    if s != {} {
      var x :| x in s;
      var rest := s - {x};
      ImageSizeExact(rest, f);
      ImageSize(rest, f);
      assert Image(s, f) == Image(rest, f) + {f(x)};
      assert s == rest + {x};
      if f(x) in Image(rest, f) {
        var y :| y in rest && f(y) == f(x);
        assert Image(s, f) == Image(rest, f);
      } else {
        assert |Image(s, f)| == |Image(rest, f)| + 1;
        assert forall y :: y in rest ==> f(y) in Image(rest, f);
      }
    }
  }

  ghost function SumOver<T(!new)>(s: set<T>, f: T -> real): real {
    if s == {} then 0.0
    else
      var x :| x in s;
      f(x) + SumOver(s - {x}, f)
  }

  /** Any element can be taken out first. */
  lemma {:induction false} SumPick<T(!new)>(s: set<T>, f: T -> real, x: T)
    requires x in s
    ensures SumOver(s, f) == f(x) + SumOver(s - {x}, f)
  {
    var y :| y in s && SumOver(s, f) == f(y) + SumOver(s - {y}, f);
    if y != x {
      SumPick(s - {y}, f, x);
      SumPick(s - {x}, f, y);
      assert s - {y} - {x} == s - {x} - {y};
    }
  }

  lemma {:induction false} SumCongruent<T(!new)>(s: set<T>, f: T -> real, g: T -> real)
    requires forall x :: x in s ==> f(x) == g(x)
    ensures SumOver(s, f) == SumOver(s, g)
  {
    if s != {} {
      var x :| x in s;
      SumPick(s, f, x);
      SumPick(s, g, x);
      SumCongruent(s - {x}, f, g);
    }
  }

  /** Changing one term changes the sum by as much. */
  lemma SumChange<T(!new)>(s: set<T>, f: T -> real, g: T -> real, x: T, delta: real)
    requires x in s && g(x) == f(x) + delta
    requires forall y :: y in s && y != x ==> f(y) == g(y)
    ensures SumOver(s, g) == SumOver(s, f) + delta
  {
    SumPick(s, f, x);
    SumPick(s, g, x);
    SumCongruent(s - {x}, f, g);
  }

  lemma {:induction false} SumBounds<T(!new)>(s: set<T>, f: T -> real)
    requires forall x :: x in s ==> 0.0 <= f(x)
    ensures 0.0 <= SumOver(s, f)
    ensures forall x :: x in s ==> f(x) <= SumOver(s, f)
  {
    if s != {} {
      var x :| x in s;
      SumPick(s, f, x);
      SumBounds(s - {x}, f);
      forall y | y in s ensures f(y) <= SumOver(s, f) {
        if y != x {
          assert y in s - {x};
        }
      }
    }
  }

  lemma {:induction false} SumZero<T(!new)>(s: set<T>, f: T -> real)
    requires forall x :: x in s ==> f(x) == 0.0
    ensures SumOver(s, f) == 0.0
  {
    if s != {} {
      var x :| x in s;
      SumPick(s, f, x);
      SumZero(s - {x}, f);
    }
  }

  /** One element joins, or only its own term changes. */
  lemma SumGrow<T(!new)>(s: set<T>, s': set<T>, x: T, f: T -> real, g: T -> real, delta: real)
    requires s' == s + {x} && g(x) == f(x) + delta
    requires x !in s ==> f(x) == 0.0
    requires forall y :: y in s && y != x ==> f(y) == g(y)
    ensures SumOver(s', g) == SumOver(s, f) + delta
  {
    if x !in s {
      SumPick(s', f, x);
      assert s' - {x} == s;
    } else {
      assert s' == s;
    }
    SumChange(s', f, g, x, delta);
  }
}
