/** `linReg`: the least-squares slope and intercept, and `linear`, the
    fitted line as a function.

    With x̄ and ȳ the means, the slope is the sum of (x[i] - x̄)(y[i] - ȳ)
    over the sum of (x[i] - x̄)^2, and the intercept is
    (sum(y) - slope * sum(x)) / n. Arrays of different lengths throw. When
    the x values do not vary (or there are none) the slope is 0 / 0, and
    both results are `NaN`. */
module Regression {
  import opened Wrappers
  import opened Summary

  /** `linear(slope, intercept)` applied to v. */
  function Linear(slope: real, intercept: real, v: real): real {
    v * slope + intercept
  }

  datatype Fit = Fit(slope: real, intercept: real)

  datatype RegressionError =
    | LengthMismatch  // the thrown "list length mismatch"
    | NoSpread        // slope and intercept come out NaN

  /** The x values are not all the same (so there is at least one). */
  predicate Spread(s: seq<real>) {
    exists i, j :: 0 <= i < |s| && 0 <= j < |s| && s[i] != s[j]
  }

  /** Sum of (x[i] - mx)(y[i] - my), the slope's numerator. */
  function SumProdDev(x: seq<real>, y: seq<real>, mx: real, my: real): real
    requires |x| == |y|
  {
    if |x| == 0 then 0.0
    else
      var n := |x| - 1;
      SumProdDev(x[..n], y[..n], mx, my) + Product(x[n] - mx, y[n] - my)
  }

  function LinReg(x: seq<real>, y: seq<real>): (r: Result<Fit, RegressionError>)
    ensures r == Failure(LengthMismatch) <==> |x| != |y|
    ensures r.Success? <==> |x| == |y| && Spread(x)
    ensures r.Success? ==>
      var f, mx, my := r.value, Mean(x).value, Mean(y).value;
      && Product(f.slope, SumSqDev(x, mx)) == SumProdDev(x, y, mx, my)
      && Product(f.intercept, |x| as real) == Sum(y) - Product(f.slope, Sum(x))
  {
    if |x| != |y| then Failure(LengthMismatch)
    else if |x| == 0 then Failure(NoSpread)
    else
      var mx, my := Mean(x).value, Mean(y).value;
      var sxx := SumSqDev(x, mx);
      SpreadIffDeviation(x);
      if sxx == 0.0 then Failure(NoSpread)
      else Success(FitFromSums(SumProdDev(x, y, mx, my), sxx, Sum(x), Sum(y), |x| as real))
  }

  /** Slope sxy / sxx and intercept (sy - slope * sx) / n. */
  function FitFromSums(sxy: real, sxx: real, sx: real, sy: real, n: real): (f: Fit)
    requires sxx != 0.0 && n > 0.0
    ensures Product(f.slope, sxx) == sxy
    ensures Product(f.intercept, n) == sy - Product(f.slope, sx)
  {
    var slope := Quotient(sxy, sxx);
    Fit(slope, Quotient(sy - Product(slope, sx), n))
  }

  /** The fitted line passes through the point of means (x̄, ȳ). */
  lemma LinRegThroughMeans(x: seq<real>, y: seq<real>)
    requires LinReg(x, y).Success?
    ensures var f := LinReg(x, y).value;
      Linear(f.slope, f.intercept, Mean(x).value) == Mean(y).value
  {
    var f := LinReg(x, y).value;
    MeanScaled(x);
    MeanScaled(y);
    ThroughMeansAlgebra(Mean(x).value, Mean(y).value, Sum(x), Sum(y),
      |x| as real, f.slope, f.intercept);
  }

  lemma ThroughMeansAlgebra(mx: real, my: real, sx: real, sy: real, n: real,
                            slope: real, intercept: real)
    requires n > 0.0 && mx * n == sx && my * n == sy
    requires Product(intercept, n) == sy - Product(slope, sx)
    ensures Linear(slope, intercept, mx) == my
  {
    calc {
      Linear(slope, intercept, mx) * n;
      mx * slope * n + intercept * n;
      { assert mx * slope * n == slope * (mx * n); }
      slope * sx + sy - slope * sx;
      my * n;
    }
  }

  /** Data lying exactly on a line with spread x values gives back that
      line. */
  lemma LinRegRecoversLine(x: seq<real>, y: seq<real>, a: real, b: real)
    requires |x| == |y| && Spread(x)
    requires forall i :: 0 <= i < |x| ==> y[i] == Linear(a, b, x[i])
    ensures LinReg(x, y) == Success(Fit(a, b))
  {
    var n := |x| as real;
    var mx, my := Mean(x).value, Mean(y).value;
    SumOnLine(x, y, a, b);
    MeansOnLine(x, y, a, b);
    SumProdDevOnLine(x, y, a, b, mx, my);
    var f := LinReg(x, y).value;
    assert |x| > 0;
    SpreadIffDeviation(x);
    FitOnLine(f, a, b, SumSqDev(x, mx), Sum(x), Sum(y), n);
  }

  /** Normal equations whose data lie on y = a x + b have a and b as their
      only solution. */
  lemma FitOnLine(f: Fit, a: real, b: real, sxx: real, sx: real, sy: real, n: real)
    requires sxx != 0.0 && n > 0.0
    requires Product(f.slope, sxx) == Product(a, sxx)
    requires sy == Product(a, sx) + n * b
    requires Product(f.intercept, n) == sy - Product(f.slope, sx)
    ensures f == Fit(a, b)
  {
    SlopeOnLine(f.slope, a, sxx);
    InterceptOnLine(f.intercept, a, b, sx, sy, n);
  }

  /** The point of means of data on a line lies on that line. */
  lemma MeansOnLine(x: seq<real>, y: seq<real>, a: real, b: real)
    requires |x| == |y| > 0
    requires forall i :: 0 <= i < |x| ==> y[i] == Linear(a, b, x[i])
    ensures Mean(y).value == Linear(a, b, Mean(x).value)
  {
    MeanScaled(x);
    MeanScaled(y);
    SumOnLine(x, y, a, b);
    MeanOnLine(Mean(x).value, Mean(y).value, Sum(x), Sum(y), |x| as real, a, b);
  }

  lemma SlopeOnLine(slope: real, a: real, sxx: real)
    requires sxx != 0.0 && Product(slope, sxx) == Product(a, sxx)
    ensures slope == a
  {
  }

  lemma InterceptOnLine(intercept: real, a: real, b: real, sx: real, sy: real, n: real)
    requires n > 0.0 && sy == Product(a, sx) + n * b
    requires Product(intercept, n) == sy - Product(a, sx)
    ensures intercept == b
  {
  }

  lemma MeanOnLine(mx: real, my: real, sx: real, sy: real, n: real, a: real, b: real)
    requires n > 0.0 && mx * n == sx && my * n == sy
    requires sy == Product(a, sx) + n * b
    ensures my == Linear(a, b, mx)
  {
    assert Product(a, sx) == mx * a * n;
  }

  /** sum(y) == a * sum(x) + n * b for points on the line y = a x + b. */
  lemma {:induction false} SumOnLine(x: seq<real>, y: seq<real>, a: real, b: real)
    requires |x| == |y|
    requires forall i :: 0 <= i < |x| ==> y[i] == Linear(a, b, x[i])
    ensures Sum(y) == Product(a, Sum(x)) + |x| as real * b
  {
    if |x| > 0 {
      var n := |x| - 1;
      SumOnLine(x[..n], y[..n], a, b);
      assert y[n] == Linear(a, b, x[n]);
      ProductAdds(a, Sum(x[..n]), x[n]);
    }
  }

  lemma ProductAdds(a: real, u: real, v: real)
    ensures Product(a, u + v) == Product(a, u) + v * a
  {
  }

  /** On the line, every cross deviation is a times a squared deviation. */
  lemma {:induction false} SumProdDevOnLine(x: seq<real>, y: seq<real>, a: real, b: real,
                                            mx: real, my: real)
    requires |x| == |y| && my == Linear(a, b, mx)
    requires forall i :: 0 <= i < |x| ==> y[i] == Linear(a, b, x[i])
    ensures SumProdDev(x, y, mx, my) == Product(a, SumSqDev(x, mx))
  {
    if |x| > 0 {
      var n := |x| - 1;
      SumProdDevOnLine(x[..n], y[..n], a, b, mx, my);
      assert x[..n] == x[..|x| - 1];
      DeviationOnLine(x[n], mx, a, b);
      assert y[n] - my == a * (x[n] - mx);
      ProductScales(a, x[n] - mx, SumSqDev(x[..n], mx));
    }
  }

  lemma DeviationOnLine(v: real, m: real, a: real, b: real)
    ensures Linear(a, b, v) - Linear(a, b, m) == a * (v - m)
  {
  }

  lemma ProductScales(a: real, d: real, rest: real)
    ensures Product(a, rest) + Product(d, a * d) == Product(a, rest + Product(d, d))
  {
  }

  /** The squared deviations from m vanish exactly when every value is m. */
  lemma {:induction false} SumSqDevZeroIff(s: seq<real>, m: real)
    ensures SumSqDev(s, m) == 0.0 <==> forall i :: 0 <= i < |s| ==> s[i] == m
  {
    if |s| > 0 {
      var n := |s| - 1;
      var p := s[..n];
      SumSqDevZeroIff(p, m);
      SumSqDevNonNegative(p, m);
      ProductSelf(s[n] - m);
      assert forall i :: 0 <= i < n ==> p[i] == s[i];
      NonNegativeSum(SumSqDev(s, m), SumSqDev(p, m), Product(s[n] - m, s[n] - m),
        forall i :: 0 <= i < n ==> p[i] == m, s[n] == m);
    }
  }

  /** Values with a common value c have mean c. */
  lemma MeanOfConstant(s: seq<real>, c: real)
    requires |s| > 0 && forall i :: 0 <= i < |s| ==> s[i] == c
    ensures Mean(s).value == c
  {
    SumBounds(s, c, c);
    MeanScaled(s);
  }

  /** Non-empty data have spread exactly when the squared deviations from
      their mean are not all zero. */
  lemma SpreadIffDeviation(s: seq<real>)
    requires |s| > 0
    ensures Spread(s) <==> SumSqDev(s, Mean(s).value) != 0.0
  {
    var m := Mean(s).value;
    SumSqDevZeroIff(s, m);
    if !Spread(s) {
      assert forall i :: 0 <= i < |s| ==> s[i] == s[0];
      MeanOfConstant(s, s[0]);
    } else {
      var i, j :| 0 <= i < |s| && 0 <= j < |s| && s[i] != s[j];
      assert s[i] != m || s[j] != m;
    }
  }
}
