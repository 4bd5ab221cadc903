/** `discrim` and `solveQuadratic`: the real roots of a*x^2 + b*x + c,
    chosen by the sign of the discriminant.

    `Math.sqrt` is a parameter `sqrt`; the lemmas that speak about root
    values ask only that it returns the non-negative square root of the
    discriminant it is given. */
module Quadratic {

  /** `Number.EPSILON`, 2^-52. */
  const Epsilon: real := 1.0 / 4503599627370496.0

  /** `discrim`: b^2 - 4ac. It can be negative only when a and c have the
      same strict sign. */
  function Discrim(a: real, b: real, c: real): (d: real)
    ensures d < 0.0 ==> a * c > 0.0
  {
    b * b - 4.0 * a * c
  }

  function Poly(a: real, b: real, c: real, x: real): real {
    a * x * x + b * x + c
  }

  /** `solveQuadratic` with the two-root branch as the quadratic formula
      intends: (-b +- sqrt(disc)) / (2a). */
  function SolveQuadratic(a: real, b: real, c: real, sqrt: real -> real): (roots: seq<real>)
    requires a != 0.0
    ensures Discrim(a, b, c) < 0.0 <==> |roots| == 0
    ensures 0.0 <= Discrim(a, b, c) < Epsilon <==> roots == [-b / (2.0 * a)]
    ensures Epsilon <= Discrim(a, b, c) <==> |roots| == 2
  {
    var disc := Discrim(a, b, c);
    if disc < 0.0 then []
    else if disc < Epsilon then [-b / (2.0 * a)]
    else
      var s := sqrt(disc);
      [(-b + s) / (2.0 * a), (-b - s) / (2.0 * a)]
  }

  /** Line 74 as written: `[(-b+_disc)/2*a, (-b-disc)/2*a]`. The second
      root subtracts the discriminant itself rather than its square root,
      and `/2*a` divides by 2 and then multiplies by a. */
  function SolveQuadraticAsWritten(a: real, b: real, c: real, sqrt: real -> real): (roots: seq<real>)
    requires a != 0.0
    ensures |roots| == |SolveQuadratic(a, b, c, sqrt)|
    ensures |roots| < 2 ==> roots == SolveQuadratic(a, b, c, sqrt)
  {
    var disc := Discrim(a, b, c);
    if disc < 0.0 then []
    else if disc < Epsilon then [-b / (2.0 * a)]
    else
      var s := sqrt(disc);
      [(-b + s) / 2.0 * a, (-b - disc) / 2.0 * a]
  }

  /** 4a * (a x^2 + b x + c) == (2a x + b)^2 - disc, completing the square. */
  lemma CompletedSquare(a: real, b: real, c: real, x: real)
    ensures 4.0 * a * Poly(a, b, c, x) == (2.0 * a * x + b) * (2.0 * a * x + b) - Discrim(a, b, c)
  {
  }

  /** An empty answer is right: with a negative discriminant nothing is a root. */
  lemma NoRootsWhenNegative(a: real, b: real, c: real, sqrt: real -> real, x: real)
    requires a != 0.0 && |SolveQuadratic(a, b, c, sqrt)| == 0
    ensures Poly(a, b, c, x) != 0.0
  {
    CompletedSquare(a, b, c, x);
    var y := 2.0 * a * x + b;
    assert y * y >= 0.0;
  }

  /** With a zero discriminant the single answer is an exact root. */
  lemma RepeatedRootSolves(a: real, b: real, c: real, sqrt: real -> real)
    requires a != 0.0 && Discrim(a, b, c) == 0.0
    ensures SolveQuadratic(a, b, c, sqrt) == [-b / (2.0 * a)]
    ensures Poly(a, b, c, -b / (2.0 * a)) == 0.0
  {
    var x := -b / (2.0 * a);
    CompletedSquare(a, b, c, x);
    assert 2.0 * a * x + b == 0.0;
    assert 4.0 * a * Poly(a, b, c, x) == 0.0;
  }

  /** With a true square root both answers of the two-root branch are roots,
      and they differ. */
  lemma RootsSolveEquation(a: real, b: real, c: real, sqrt: real -> real)
    requires a != 0.0 && Epsilon <= Discrim(a, b, c)
    requires sqrt(Discrim(a, b, c)) >= 0.0
    requires sqrt(Discrim(a, b, c)) * sqrt(Discrim(a, b, c)) == Discrim(a, b, c)
    ensures var roots := SolveQuadratic(a, b, c, sqrt);
      |roots| == 2 && roots[0] != roots[1] &&
      Poly(a, b, c, roots[0]) == 0.0 && Poly(a, b, c, roots[1]) == 0.0
  {
    var s := sqrt(Discrim(a, b, c));
    var x1, x2 := (-b + s) / (2.0 * a), (-b - s) / (2.0 * a);
    assert 2.0 * a * x1 + b == s;
    assert 2.0 * a * x2 + b == -s;
    CompletedSquare(a, b, c, x1);
    CompletedSquare(a, b, c, x2);
    assert s > 0.0;
  }

  /** Counterexample: solveQuadratic(1, 0, -4) has roots 2 and -2, but line 74
      as written answers [2, -8]. */
  lemma AsWrittenSecondRootWrong(sqrt: real -> real)
    requires sqrt(16.0) == 4.0
    ensures SolveQuadraticAsWritten(1.0, 0.0, -4.0, sqrt) == [2.0, -8.0]
    ensures SolveQuadratic(1.0, 0.0, -4.0, sqrt) == [2.0, -2.0]
    ensures Poly(1.0, 0.0, -4.0, -8.0) != 0.0
  {
    assert Discrim(1.0, 0.0, -4.0) == 16.0;
  }

  /** Counterexample: solveQuadratic(2, 0, -8) has roots 2 and -2, but
      `/2*a` makes line 74 answer 8 for the first. */
  lemma AsWrittenPrecedenceWrong(sqrt: real -> real)
    requires sqrt(64.0) == 8.0
    ensures SolveQuadraticAsWritten(2.0, 0.0, -8.0, sqrt)[0] == 8.0
    ensures SolveQuadratic(2.0, 0.0, -8.0, sqrt) == [2.0, -2.0]
    ensures Poly(2.0, 0.0, -8.0, 8.0) != 0.0
  {
    assert Discrim(2.0, 0.0, -8.0) == 64.0;
  }
}
