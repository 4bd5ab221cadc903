/** `factorial` and `ncr`: a counting loop and a quotient of three factorials. */
module Combinatorics {

  /** The product 1 * 2 * ... * n; the empty product 1 when n <= 0. */
  function Fact(n: int): (r: nat)
    ensures r >= 1
    decreases if n <= 0 then 0 else n
  {
    if n <= 0 then 1 else n * Fact(n - 1)
  }

  /** The loop `r = 1; for (i = 1; i <= n; i++) r *= i`. */
  method Factorial(n: int) returns (r: int)
    ensures r == Fact(n)
    ensures n <= 0 ==> r == 1
    ensures n >= 1 ==> r == n * Fact(n - 1)
  {
    r := 1;
    var i := 1;
    while i <= n
      invariant 1 <= i <= if n >= 1 then n + 1 else 1
      invariant r == Fact(i - 1)
    {
      r := r * i;
      i := i + 1;
    }
  }

  /** `factorial(n) / (factorial(n - r) * factorial(r))`, a real-valued quotient. */
  function Ncr(n: int, r: int): (c: real)
    ensures c > 0.0
  {
    Fact(n) as real / (Fact(n - r) * Fact(r)) as real
  }

  /** Pascal's triangle, an independent definition of the binomial coefficient. */
  function Binomial(n: nat, k: nat): nat
  {
    if k == 0 then 1
    else if n == 0 then 0
    else Binomial(n - 1, k - 1) + Binomial(n - 1, k)
  }

  /** The integer step behind Pascal's rule, with the factorials abstracted:
      p = (n-r)!, p1 = (n-1-r)!, q = r!, q1 = (r-1)!, f = (n-1)!. */
  lemma PascalProducts(b1: int, b2: int, f: int, p: int, p1: int, q: int, q1: int, n: int, r: int)
    requires p == (n - r) * p1 && q == r * q1
    requires b1 * (p * q1) == f && b2 * (p1 * q) == f
    ensures (b1 + b2) * (p * q) == n * f
  {
    assert b1 * (p * q) == r * (b1 * (p * q1));
    assert b2 * (p * q) == (n - r) * (b2 * (p1 * q));
  }

  lemma {:induction false} BinomialBeyond(n: nat, k: nat)
    requires k > n
    ensures Binomial(n, k) == 0
  {
    if n > 0 {
      BinomialBeyond(n - 1, k - 1);
      BinomialBeyond(n - 1, k);
    }
  }

  /** n! == C(n, r) * (n-r)! * r!, the counting identity in integers. */
  lemma {:induction false} BinomialTimesFactorials(n: nat, r: nat)
    requires r <= n
    ensures Binomial(n, r) * (Fact(n - r) * Fact(r)) == Fact(n)
  {
    if r == 0 {
    } else if r == n {
      BinomialTimesFactorials(n - 1, r - 1);
      BinomialBeyond(n - 1, r);
    } else {
      BinomialTimesFactorials(n - 1, r - 1);
      BinomialTimesFactorials(n - 1, r);
      assert n - 1 - (r - 1) == n - r;
      PascalProducts(Binomial(n - 1, r - 1), Binomial(n - 1, r), Fact(n - 1),
                     Fact(n - r), Fact(n - 1 - r), Fact(r), Fact(r - 1), n, r);
    }
  }

  lemma ExactQuotient(x: int, b: int, d: int)
    requires d > 0 && x == b * d
    ensures x as real / d as real == b as real
  {
  }

  /** For 0 <= r <= n the factorial quotient is the binomial coefficient. */
  lemma NcrIsBinomial(n: nat, r: nat)
    requires r <= n
    ensures Ncr(n, r) == Binomial(n, r) as real
  {
    BinomialTimesFactorials(n, r);
    ExactQuotient(Fact(n), Binomial(n, r), Fact(n - r) * Fact(r));
  }

  /** Pascal's rule for the factorial quotient. */
  lemma NcrPascal(n: nat, r: nat)
    requires 1 <= r < n
    ensures Ncr(n, r) == Ncr(n - 1, r - 1) + Ncr(n - 1, r)
  {
    NcrIsBinomial(n, r);
    NcrIsBinomial(n - 1, r - 1);
    NcrIsBinomial(n - 1, r);
  }

  lemma NcrSymmetric(n: int, r: int)
    ensures Ncr(n, r) == Ncr(n, n - r)
  {
    assert n - (n - r) == r;
  }

  lemma NcrEdges(n: nat)
    ensures Ncr(n, 0) == 1.0 && Ncr(n, n) == 1.0
  {
    NcrIsBinomial(n, 0);
    NcrIsBinomial(n, n);
    if n > 0 {
      BinomialBeyond(n - 1, n);
    }
  }

  lemma FactorialExamples()
    ensures Fact(0) == 1 && Fact(5) == 120 && Fact(-3) == 1
    ensures Ncr(5, 2) == 10.0
  {
  }

  /** With r > n the quotient is not zero: `ncr(3, 5)` is 6 / 120. */
  lemma NcrBeyondExample()
    ensures Ncr(3, 5) == 0.05
  {
  }
}
