/** The numeric summaries `sum`, `mean`, `variance`, `dot` and `chisquare`.

    Each is a left fold starting from 0, as `reduce((a, c) => ..., 0)` is.
    A result the source would leave as `NaN` (a division 0 / 0, a read past
    the end of an array) is `None`. */
module Summary {
  import opened Wrappers

  /** `sum()`: the fold `reduce((a, c) => a + c, 0)`. */
  function Sum(s: seq<real>): real
  {
    if |s| == 0 then 0.0 else Sum(s[..|s| - 1]) + s[|s| - 1]
  }

  /** Sum of squares of the elements. */
  function SumSq(s: seq<real>): real
  {
    if |s| == 0 then 0.0 else SumSq(s[..|s| - 1]) + Product(s[|s| - 1], s[|s| - 1])
  }

  /** Sum of squared deviations from `m`, the numerator of `variance`. */
  function SumSqDev(s: seq<real>, m: real): (r: real)
  {
    if |s| == 0 then 0.0
    else SumSqDev(s[..|s| - 1], m) + Product(s[|s| - 1] - m, s[|s| - 1] - m)
  }

  lemma {:induction false} SumSqDevNonNegative(s: seq<real>, m: real)
    ensures SumSqDev(s, m) >= 0.0
  {
    if |s| > 0 {
      SumSqDevNonNegative(s[..|s| - 1], m);
      ProductSelf(s[|s| - 1] - m);
    }
  }

  lemma {:induction false} SumAppend(s: seq<real>, t: seq<real>)
    ensures Sum(s + t) == Sum(s) + Sum(t)
    decreases |t|
  {
    if |t| > 0 {
      assert (s + t)[..|s + t| - 1] == s + t[..|t| - 1];
      assert (s + t)[|s + t| - 1] == t[|t| - 1];
      SumAppend(s, t[..|t| - 1]);
    } else {
      assert s + t == s;
    }
  }

  /** The sum of values confined to [lo, hi] is confined to [n*lo, n*hi]. */
  lemma {:induction false} SumBounds(s: seq<real>, lo: real, hi: real)
    requires forall i :: 0 <= i < |s| ==> lo <= s[i] <= hi
    ensures |s| as real * lo <= Sum(s) <= |s| as real * hi
  {
    if |s| > 0 {
      SumBounds(s[..|s| - 1], lo, hi);
    }
  }

  /** `sum() / length`: undefined for the empty array. */
  function Mean(s: seq<real>): (r: Option<real>)
    ensures r.Some? <==> |s| > 0
  {
    if |s| == 0 then None else Some(Sum(s) / |s| as real)
  }

  /** The mean lies between any bounds of the data. */
  lemma MeanBetween(s: seq<real>, lo: real, hi: real)
    requires |s| > 0
    requires forall i :: 0 <= i < |s| ==> lo <= s[i] <= hi
    ensures lo <= Mean(s).value <= hi
  {
    SumBounds(s, lo, hi);
    var n := |s| as real;
    assert Mean(s).value * n == Sum(s);
  }

  /** `variance(population)`: the squared deviations from the mean, divided
      by n when `population` is truthy and by n - 1 otherwise. The empty
      array never reads its (NaN) mean: the fold gives 0, and 0 / -1 is a
      number for the sample variance and 0 / 0 is NaN for the population
      one. */
  function Variance(s: seq<real>, population: bool): (r: Option<real>)
    ensures r.Some? <==> if population then |s| >= 1 else |s| != 1
    ensures r.Some? ==> r.value >= 0.0
    ensures |s| == 0 && r.Some? ==> r.value == 0.0
  {
    var d := if population then |s| else |s| - 1;
    if d == 0 then None
    else if |s| == 0 then Some(0.0)
    else
      var m := Mean(s).value;
      SumSqDevNonNegative(s, m);
      Some(SumSqDev(s, m) / d as real)
  }

  /** sq - 2m * sum + k m^2: the squared deviations of k values from m,
      in terms of their sum of squares `sq` and their sum `sum`. */
  function Expanded(sq: real, sum: real, k: real, m: real): real
  {
    sq - 2.0 * m * sum + k * m * m
  }

  /** Sum of (x - m)^2 == sum of x^2 - 2m * sum of x + n m^2. */
  lemma {:induction false} SumSqDevExpand(s: seq<real>, m: real)
    ensures SumSqDev(s, m) == Expanded(SumSq(s), Sum(s), |s| as real, m)
  {
    if |s| > 0 {
      var t, x := s[..|s| - 1], s[|s| - 1];
      SumSqDevExpand(t, m);
      SumsSnoc(s, m);
      ProductExpand(x, m);
      ExpandStep(SumSqDev(s, m), SumSq(s), Sum(s), |s| as real,
                 SumSqDev(t, m), SumSq(t), Sum(t), |t| as real,
                 m, x, Product(x, x), Product(x - m, x - m));
    }
  }

  lemma SumsSnoc(s: seq<real>, m: real)
    requires |s| > 0
    ensures var t, x := s[..|s| - 1], s[|s| - 1];
      && Sum(s) == Sum(t) + x
      && SumSq(s) == SumSq(t) + Product(x, x)
      && SumSqDev(s, m) == SumSqDev(t, m) + Product(x - m, x - m)
  {
  }

  /** One step of the expansion: adding x to the data adds (x - m)^2 on the
      left and x^2, x and 1 to the three sums on the right. */
  lemma ExpandStep(dev': real, sq': real, sum': real, k': real,
                   dev: real, sq: real, sum: real, k: real,
                   m: real, x: real, xx: real, dd: real)
    requires dev == Expanded(sq, sum, k, m)
    requires dd == xx - 2.0 * m * x + m * m
    requires dev' == dev + dd
    requires sq' == sq + xx && sum' == sum + x && k' == k + 1.0
    ensures dev' == Expanded(sq', sum', k', m)
  {
  }

  /** (x - m)^2 == x^2 - 2mx + m^2. */
  lemma ProductExpand(x: real, m: real)
    ensures Product(x - m, x - m) == Product(x, x) - 2.0 * m * x + m * m
  {
  }

  /** The mean of the squares, sq / n, less the square of the mean m. */
  function MeanSquareLessSquaredMean(sq: real, n: real, m: real): real
    requires n != 0.0
  {
    sq / n - m * m
  }

  /** The population variance is the mean of the squares minus the square
      of the mean. */
  lemma PopulationVarianceShortcut(s: seq<real>)
    requires |s| > 0
    ensures Variance(s, true).value == MeanSquareLessSquaredMean(SumSq(s), |s| as real, Mean(s).value)
  {
    var n, m, v := |s| as real, Mean(s).value, Variance(s, true).value;
    MeanAndVarianceValues(s);
    SumSqDevExpand(s, m);
    ShortcutAlgebra(v, SumSqDev(s, m), SumSq(s), Sum(s), n, m);
  }

  lemma MeanAndVarianceValues(s: seq<real>)
    requires |s| > 0
    ensures Mean(s).value == Sum(s) / |s| as real
    ensures Variance(s, true).value == SumSqDev(s, Mean(s).value) / |s| as real
  {
  }

  /** n * mean == sum, and n * population variance == squared deviations. */
  lemma MeanAndVarianceScaled(s: seq<real>)
    requires |s| > 0
    ensures Mean(s).value * |s| as real == Sum(s)
    ensures Variance(s, true).value * |s| as real == SumSqDev(s, Mean(s).value)
  {
    MeanScaled(s);
    MeanAndVarianceValues(s);
    QuotientScaled(Variance(s, true).value, SumSqDev(s, Mean(s).value), |s| as real);
  }

  lemma QuotientScaled(v: real, x: real, n: real)
    requires n != 0.0 && v == x / n
    ensures v * n == x
  {
  }

  /** n * mean == sum. */
  lemma MeanScaled(s: seq<real>)
    requires |s| > 0
    ensures Mean(s).value * |s| as real == Sum(s)
  {
    DivTimes(Sum(s), |s| as real);
  }

  lemma DivTimes(x: real, n: real)
    requires n != 0.0
    ensures x / n * n == x
  {
  }

  lemma ShortcutAlgebra(v: real, dev: real, sq: real, sum: real, n: real, m: real)
    requires n > 0.0 && m == sum / n && v == dev / n
    requires dev == Expanded(sq, sum, n, m)
    ensures v == MeanSquareLessSquaredMean(sq, n, m)
  {
    assert sum == m * n;
    assert dev == sq - n * m * m by {
      assert 2.0 * m * sum == 2.0 * n * m * m;
    }
  }

  /** Bessel's correction: for n > 1 the sample variance is n / (n - 1) times
      the population variance, so never below it. */
  lemma SampleVarianceDominates(s: seq<real>)
    requires |s| > 1
    ensures Variance(s, false).value * (|s| - 1) as real == Variance(s, true).value * |s| as real
    ensures Variance(s, false).value >= Variance(s, true).value
  {
    var n, dev := |s| as real, SumSqDev(s, Mean(s).value);
    SumSqDevNonNegative(s, Mean(s).value);
    var vs, vp := Variance(s, false).value, Variance(s, true).value;
    assert vs == dev / (n - 1.0);
    assert vp == dev / n;
    assert dev / (n - 1.0) >= dev / n by {
      assert dev / (n - 1.0) - dev / n == dev / (n * (n - 1.0));
      assert n * (n - 1.0) > 0.0;
    }
  }

  /** Sum of a[i] * b[i] over the indices of `a`. */
  function DotPrefix(a: seq<real>, b: seq<real>): real
    requires |a| <= |b|
  {
    if |a| == 0 then 0.0 else DotPrefix(a[..|a| - 1], b) + Product(a[|a| - 1], b[|a| - 1])
  }

  /** `dot(A, B)`: folds over A reading B[index]; when B is shorter the read
      past its end makes the result NaN, and extra elements of B are ignored. */
  function Dot(a: seq<real>, b: seq<real>): (r: Option<real>)
    ensures r.Some? <==> |a| <= |b|
  {
    if |b| < |a| then None else Some(DotPrefix(a, b))
  }

  lemma {:induction false} DotPrefixOnly(a: seq<real>, b: seq<real>, b': seq<real>)
    requires |a| <= |b| && |a| <= |b'| && b[..|a|] == b'[..|a|]
    ensures DotPrefix(a, b) == DotPrefix(a, b')
  {
    if |a| > 0 {
      var a' := a[..|a| - 1];
      assert b[..|a'|] == b'[..|a'|] by {
        assert b[..|a'|] == b[..|a|][..|a'|];
        assert b'[..|a'|] == b'[..|a|][..|a'|];
      }
      assert b[|a| - 1] == b[..|a|][|a| - 1];
      assert b'[|a| - 1] == b'[..|a|][|a| - 1];
      DotPrefixOnly(a', b, b');
    }
  }

  /** Elements of B beyond the length of A play no part. */
  lemma DotIgnoresExtra(a: seq<real>, b: seq<real>)
    requires |a| <= |b|
    ensures Dot(a, b) == Dot(a, b[..|a|])
  {
    DotPrefixOnly(a, b, b[..|a|]);
  }

  lemma {:induction false} DotSymmetric(a: seq<real>, b: seq<real>)
    requires |a| == |b|
    ensures Dot(a, b) == Dot(b, a)
    decreases |a|
  {
    if |a| > 0 {
      var n := |a| - 1;
      DotSymmetric(a[..n], b[..n]);
      assert b[..n][..n] == b[..n] && a[..n][..n] == a[..n];
      DotPrefixOnly(a[..n], b, b[..n]);
      DotPrefixOnly(b[..n], a, a[..n]);
      ProductCommutes(a[n], b[n]);
    }
  }

  /** Adding a non-negative term to a non-negative total. */
  lemma NonNegativeSum(total: real, prev: real, term: real, prevZero: bool, termZero: bool)
    requires total == prev + term && prev >= 0.0 && term >= 0.0
    requires prev == 0.0 <==> prevZero
    requires term == 0.0 <==> termZero
    ensures total >= 0.0
    ensures total == 0.0 <==> prevZero && termZero
  {
  }

  /** A vector dotted with itself is a sum of squares: never negative, and
      zero only for the zero vector. */
  lemma DotSelf(a: seq<real>)
    ensures Dot(a, a).value >= 0.0
    ensures Dot(a, a).value == 0.0 <==> forall i :: 0 <= i < |a| ==> a[i] == 0.0
  {
    DotSelfNonNegative(a);
    DotSelfPositive(a);
    if forall i :: 0 <= i < |a| ==> a[i] == 0.0 {
      DotSelfZero(a);
    }
  }

  lemma {:induction false} DotSelfNonNegative(a: seq<real>)
    ensures DotPrefix(a, a) >= 0.0
  {
    if |a| > 0 {
      var n := |a| - 1;
      var p := a[..n];
      DotSelfNonNegative(p);
      assert p[..n] == p;
      DotPrefixOnly(p, a, p);
      ProductSelf(a[n]);
    }
  }

  lemma {:induction false} DotSelfZero(a: seq<real>)
    requires forall i :: 0 <= i < |a| ==> a[i] == 0.0
    ensures DotPrefix(a, a) == 0.0
  {
    if |a| > 0 {
      var n := |a| - 1;
      var p := a[..n];
      DotSelfZero(p);
      assert p[..n] == p;
      DotPrefixOnly(p, a, p);
    }
  }

  lemma {:induction false} DotSelfPositive(a: seq<real>)
    ensures (exists i :: 0 <= i < |a| && a[i] != 0.0) ==> DotPrefix(a, a) > 0.0
  {
    if |a| > 0 {
      var n := |a| - 1;
      var p := a[..n];
      DotSelfPositive(p);
      DotSelfNonNegative(p);
      assert p[..n] == p;
      DotPrefixOnly(p, a, p);
      ProductSelf(a[n]);
      if a[n] == 0.0 && exists i :: 0 <= i < |a| && a[i] != 0.0 {
        var i :| 0 <= i < |a| && a[i] != 0.0;
        assert p[i] != 0.0;
      }
    }
  }

  /** One product of a dot product, x * y. */
  function Product(x: real, y: real): real
  {
    x * y
  }

  lemma ProductCommutes(x: real, y: real)
    ensures Product(x, y) == Product(y, x)
  {
  }

  lemma ProductPositive(x: real, y: real)
    requires x > 0.0 && y > 0.0
    ensures Product(x, y) > 0.0
  {
  }

  lemma ProductOfNegations(d: real)
    ensures Product(-d, -d) == Product(d, d)
  {
  }

  /** A square is never negative, and zero only for zero. */
  lemma ProductSelf(d: real)
    ensures Product(d, d) >= 0.0
    ensures d != 0.0 ==> Product(d, d) > 0.0
    ensures d == 0.0 ==> Product(d, d) == 0.0
  {
    if d > 0.0 {
      ProductPositive(d, d);
    } else if d < 0.0 {
      ProductPositive(-d, -d);
      ProductOfNegations(d);
    }
  }

  /** Sum of (o[i] - e[i])^2 / e[i] over the indices of `e`. */
  function ChiTerms(o: seq<real>, e: seq<real>): real
    requires |e| <= |o| && 0.0 !in e
  {
    if |e| == 0 then 0.0
    else
      var k := |e| - 1;
      assert e[..k] + [e[k]] == e;
      ChiTerms(o, e[..k]) + ChiTerm(o[k], e[k])
  }

  /** `chisquare(observed, expected)`: maps over `expected`; a read past the
      end of `observed`, or an expected count of 0, leaves no finite result. */
  function ChiSquare(observed: seq<real>, expected: seq<real>): (r: Option<real>)
    ensures r.Some? <==> |expected| <= |observed| && 0.0 !in expected
  {
    if |observed| < |expected| || 0.0 in expected then None
    else Some(ChiTerms(observed, expected))
  }

  /** One term (o - e)^2 / e of the statistic. */
  function ChiTerm(ok: real, ek: real): real
    requires ek != 0.0
  {
    Quotient(Product(ok - ek, ok - ek), ek)
  }

  /** For a positive expectation a term is non-negative, and zero exactly
      when the observation equals the expectation. */
  lemma ChiTermSign(ok: real, ek: real)
    requires ek > 0.0
    ensures ChiTerm(ok, ek) >= 0.0
    ensures ok != ek ==> ChiTerm(ok, ek) > 0.0
    ensures ok == ek ==> ChiTerm(ok, ek) == 0.0
  {
    SquareQuotient(ok - ek, ek);
  }

  lemma SquareQuotient(d: real, ek: real)
    requires ek > 0.0
    ensures Quotient(Product(d, d), ek) >= 0.0
    ensures d != 0.0 ==> Quotient(Product(d, d), ek) > 0.0
    ensures d == 0.0 ==> Quotient(Product(d, d), ek) == 0.0
  {
    ProductSelf(d);
  }

  lemma ChiTermsSnoc(o: seq<real>, e: seq<real>)
    requires 0 < |e| <= |o| && 0.0 !in e
    ensures var k := |e| - 1;
      ChiTerms(o, e) == ChiTerms(o, e[..k]) + ChiTerm(o[k], e[k])
  {
  }

  lemma SnocEquality(x: seq<real>, y: seq<real>)
    requires |x| == |y| > 0
    ensures x == y <==> x[..|x| - 1] == y[..|y| - 1] && x[|x| - 1] == y[|y| - 1]
  {
    if x[..|x| - 1] == y[..|y| - 1] && x[|x| - 1] == y[|y| - 1] {
      assert x == x[..|x| - 1] + [x[|x| - 1]];
      assert y == y[..|y| - 1] + [y[|y| - 1]];
    }
  }

  /** x / y, with the sign of the quotient for a positive divisor. */
  function Quotient(x: real, y: real): (r: real)
    requires y != 0.0
    ensures r * y == x
    ensures y > 0.0 && x > 0.0 ==> r > 0.0
    ensures y > 0.0 && x >= 0.0 ==> r >= 0.0
  {
    x / y
  }

  /** With positive expected counts the statistic is non-negative, and zero
      exactly when every observation matches its expectation. */
  lemma {:induction false} ChiSquareZeroIffMatch(o: seq<real>, e: seq<real>)
    requires |e| <= |o|
    requires forall i :: 0 <= i < |e| ==> e[i] > 0.0
    ensures ChiSquare(o, e).Some?
    ensures ChiSquare(o, e).value >= 0.0
    ensures ChiSquare(o, e).value == 0.0 <==> o[..|e|] == e
    decreases |e|
  {
    if |e| > 0 {
      var k := |e| - 1;
      ChiSquareZeroIffMatch(o, e[..k]);
      ChiTermsSnoc(o, e);
      ChiTermSign(o[k], e[k]);
      NonNegativeSum(ChiTerms(o, e), ChiTerms(o, e[..k]), ChiTerm(o[k], e[k]),
                     o[..k] == e[..k], o[k] == e[k]);
      SnocEquality(o[..|e|], e);
      assert o[..|e|][..k] == o[..k];
    } else {
      assert o[..0] == e;
    }
  }
}
