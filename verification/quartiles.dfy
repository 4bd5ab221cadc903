/** The quartile rule `quartile(position)` and its users `median`, `q1`,
    `q3` and `iqr`, on an array the caller has already sorted.

    With `pos = length * position`: a whole `pos` selects `arr[pos]`; any
    other `pos` is truncated to `t` and averages `arr[t - 1]` and `arr[t]`.
    A read outside the array gives `undefined`, and the average then `NaN`;
    both are `None` here. */
module Quartiles {
  import opened Wrappers
  import opened Numbers
  import opened Seqs

  /** Where `quartile(p)` looks in an array of length n. */
  function Position(n: nat, p: real): real {
    n as real * p
  }

  /** The rule reads inside the array: a whole position must be an index,
      and a fractional one must leave room for the element before it. */
  predicate Readable(n: nat, pos: real) {
    0.0 <= pos < n as real && (IsIntegral(pos) || pos >= 1.0)
  }

  function Quartile(s: seq<real>, p: real): (r: Option<real>)
    ensures r.Some? <==> Readable(|s|, Position(|s|, p))
    ensures r.Some? && IsIntegral(Position(|s|, p)) ==>
      exists k :: 0 <= k < |s| && k as real == Position(|s|, p) && r.value == s[k]
    ensures r.Some? && !IsIntegral(Position(|s|, p)) ==>
      exists k :: 1 <= k < |s| && k as real < Position(|s|, p) < k as real + 1.0
        && r.value == (s[k - 1] + s[k]) / 2.0
  {
    var pos := Position(|s|, p);
    if !IsIntegral(pos) then
      var t := Trunc(pos);
      if 1 <= t < |s| then Some((s[t - 1] + s[t]) / 2.0) else None
    else
      var k := pos.Floor;
      if 0 <= k < |s| then Some(s[k]) else None
  }

  function Median(s: seq<real>): (r: Option<real>)
    ensures r.Some? <==> |s| >= 2
  {
    Quartile(s, 0.5)
  }

  function Q1(s: seq<real>): (r: Option<real>)
    ensures r.Some? <==> |s| >= 4
  {
    Quartile(s, 0.25)
  }

  function Q3(s: seq<real>): (r: Option<real>)
    ensures r.Some? <==> |s| >= 2
  {
    Quartile(s, 0.75)
  }

  /** `q3() - q1()`, `NaN` when either is `undefined`. */
  function Iqr(s: seq<real>): (r: Option<real>)
    ensures r.Some? <==> |s| >= 4
  {
    if Q1(s).Some? && Q3(s).Some? then Some(Q3(s).value - Q1(s).value) else None
  }

  /** On sorted data every quartile lies between the extremes. */
  lemma QuartileWithin(s: seq<real>, p: real)
    requires Sorted(s) && Quartile(s, p).Some?
    ensures s[0] <= Quartile(s, p).value <= s[|s| - 1]
  {
  }

  /** A quartile read at `pos` lies between the elements at the indices
      on either side: at least `s[floor(pos) - 1]` and at most `s[floor(pos)]`. */
  lemma QuartileBracket(s: seq<real>, p: real)
    requires Sorted(s) && Quartile(s, p).Some?
    ensures var pos := Position(|s|, p);
      && 0 <= pos.Floor < |s|
      && Quartile(s, p).value <= s[pos.Floor]
      && (pos.Floor >= 1 ==> s[pos.Floor - 1] <= Quartile(s, p).value)
  {
  }

  /** The rule is monotone for positions at least one index apart. */
  lemma {:induction false} QuartileSpacedMonotone(s: seq<real>, p1: real, p2: real)
    requires Sorted(s) && Quartile(s, p1).Some? && Quartile(s, p2).Some?
    requires Position(|s|, p1) + 1.0 <= Position(|s|, p2)
    ensures Quartile(s, p1).value <= Quartile(s, p2).value
  {
    QuartileBracket(s, p1);
    QuartileBracket(s, p2);
    var f1, f2 := Position(|s|, p1).Floor, Position(|s|, p2).Floor;
    assert f1 + 1 <= f2;
    if IsIntegral(Position(|s|, p2)) {
      assert Quartile(s, p2).value == s[f2];
    }
  }

  /** Positions closer than one index can come out in the wrong order:
      on [1, 2, 3, 4] the rule gives 3 at p = 0.5 and 2.5 at p = 0.6. */
  lemma QuartileNotMonotone()
    ensures Quartile([1.0, 2.0, 3.0, 4.0], 0.5) == Some(3.0)
    ensures Quartile([1.0, 2.0, 3.0, 4.0], 0.6) == Some(2.5)
  {
    assert Trunc(2.4) == 2;
  }

  /** For sorted data of length at least 4: q1 <= median <= q3, so the
      interquartile range is never negative. */
  lemma QuartilesOrdered(s: seq<real>)
    requires Sorted(s) && |s| >= 4
    ensures Q1(s).value <= Median(s).value <= Q3(s).value
    ensures Iqr(s).value >= 0.0
  {
    assert Position(|s|, 0.25) + 1.0 <= Position(|s|, 0.5);
    assert Position(|s|, 0.5) + 1.0 <= Position(|s|, 0.75);
    QuartileSpacedMonotone(s, 0.25, 0.5);
    QuartileSpacedMonotone(s, 0.5, 0.75);
  }

  /** The median as coded is not the textbook one: an even length takes the
      upper middle element and an odd length averages two neighbours. */
  lemma MedianExamples()
    ensures Median([1.0, 2.0, 3.0, 4.0]) == Some(3.0)
    ensures Median([1.0, 2.0, 3.0, 4.0, 5.0]) == Some(2.5)
    ensures Median([7.0]) == None
  {
    assert Trunc(2.5) == 2;
    assert Trunc(0.5) == 0;
  }
}
