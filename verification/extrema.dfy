/** `min(limit)` and `max(limit)`: the least element strictly above a limit
    and the greatest element strictly below one.

    Both keep the elements beyond the limit with `filter`, turn an empty
    result into `null` with `nullIfEmpty`, and fold what is left with
    `?.reduce((a, c) => Math.min(a, c))`, a reduce without a seed that starts
    from the first element. The optional chain turns that `null` into
    `undefined`, which is what the caller sees. The limit is an `Option`: `None` stands for a
    missing or `NaN` limit, against which every comparison is false. */
module Extrema {
  import opened Wrappers
  import opened Seqs

  /** The seedless `reduce` with `Math.min`, folding from the left. */
  function ReduceMin(s: seq<real>): (r: real)
    requires |s| > 0
    ensures r in s
    ensures forall i :: 0 <= i < |s| ==> r <= s[i]
  {
    if |s| == 1 then s[0]
    else
      var acc := ReduceMin(s[..|s| - 1]);
      var c := s[|s| - 1];
      assert forall i :: 0 <= i < |s| - 1 ==> s[..|s| - 1][i] == s[i];
      if c < acc then c else acc
  }

  /** The seedless `reduce` with `Math.max`, folding from the left. */
  function ReduceMax(s: seq<real>): (r: real)
    requires |s| > 0
    ensures r in s
    ensures forall i :: 0 <= i < |s| ==> r >= s[i]
  {
    if |s| == 1 then s[0]
    else
      var acc := ReduceMax(s[..|s| - 1]);
      var c := s[|s| - 1];
      assert forall i :: 0 <= i < |s| - 1 ==> s[..|s| - 1][i] == s[i];
      if c > acc then c else acc
  }

  /** `x > limit`, which is false when the limit is missing or `NaN`. */
  predicate Above(x: real, limit: Option<real>) {
    limit.Some? && x > limit.value
  }

  /** `x < limit`, which is false when the limit is missing or `NaN`. */
  predicate Below(x: real, limit: Option<real>) {
    limit.Some? && x < limit.value
  }

  /** `arr.min(limit)`: `None` exactly when no element is above the limit;
      otherwise the least of the elements above it. */
  function MinAbove(s: seq<real>, limit: Option<real>): (r: Option<real>)
    ensures r.None? <==> forall i :: 0 <= i < |s| ==> !Above(s[i], limit)
    ensures r.Some? ==> r.value in s && Above(r.value, limit)
    ensures r.Some? ==> forall i :: 0 <= i < |s| && Above(s[i], limit) ==> r.value <= s[i]
  {
    var kept := Filter(x => Above(x, limit), s);
    if |kept| == 0 then None
    else
      var m := ReduceMin(kept);
      assert forall i :: 0 <= i < |s| && Above(s[i], limit) ==> s[i] in kept;
      Some(m)
  }

  /** `arr.max(limit)`: `None` exactly when no element is below the limit;
      otherwise the greatest of the elements below it. */
  function MaxBelow(s: seq<real>, limit: Option<real>): (r: Option<real>)
    ensures r.None? <==> forall i :: 0 <= i < |s| ==> !Below(s[i], limit)
    ensures r.Some? ==> r.value in s && Below(r.value, limit)
    ensures r.Some? ==> forall i :: 0 <= i < |s| && Below(s[i], limit) ==> r.value >= s[i]
  {
    var kept := Filter(x => Below(x, limit), s);
    if |kept| == 0 then None
    else
      var m := ReduceMax(kept);
      assert forall i :: 0 <= i < |s| && Below(s[i], limit) ==> s[i] in kept;
      Some(m)
  }

  function Negate(s: seq<real>): (r: seq<real>)
    ensures |r| == |s| && forall i :: 0 <= i < |s| ==> r[i] == -s[i]
  {
    seq(|s|, i requires 0 <= i < |s| => -s[i])
  }

  function NegateLimit(limit: Option<real>): Option<real> {
    match limit
    case None => None
    case Some(l) => Some(-l)
  }

  /** `max` below a limit is `min` above the negated limit, on the negated
      data, negated back. */
  lemma MaxIsMirroredMin(s: seq<real>, limit: Option<real>)
    ensures MaxBelow(s, limit).Some? <==> MinAbove(Negate(s), NegateLimit(limit)).Some?
    ensures MaxBelow(s, limit).Some? ==>
      MaxBelow(s, limit).value == -MinAbove(Negate(s), NegateLimit(limit)).value
  {
    var t, l := Negate(s), NegateLimit(limit);
    assert forall i :: 0 <= i < |s| ==> (Below(s[i], limit) <==> Above(t[i], l));
    if MaxBelow(s, limit).Some? {
      var hi, lo := MaxBelow(s, limit).value, MinAbove(t, l).value;
      var i :| 0 <= i < |s| && s[i] == hi;
      var k :| 0 <= k < |t| && t[k] == lo;
      assert lo <= t[i];
      assert hi >= s[k];
    }
  }

  /** With the limit missing, as in a plain `arr.min()`, there is no result. */
  lemma NoLimitNoResult(s: seq<real>)
    ensures MinAbove(s, None).None? && MaxBelow(s, None).None?
  {
  }

  /** On [3, 1, 4, 1, 5]: the least element above 1 is 3. */
  lemma MinAboveExample(s: seq<real>)
    requires s == [3.0, 1.0, 4.0, 1.0, 5.0]
    ensures MinAbove(s, Some(1.0)) == Some(3.0)
  {
    assert Above(s[0], Some(1.0));
    var a := MinAbove(s, Some(1.0)).value;
    assert a <= s[0];
  }

  /** On [3, 1, 4, 1, 5]: the greatest element below 5 is 4. */
  lemma MaxBelowExample(s: seq<real>)
    requires s == [3.0, 1.0, 4.0, 1.0, 5.0]
    ensures MaxBelow(s, Some(5.0)) == Some(4.0)
  {
    assert Below(s[2], Some(5.0));
    var b := MaxBelow(s, Some(5.0)).value;
    assert b >= s[2];
  }

  /** On [3, 1] nothing lies strictly above 3. */
  lemma MinAboveNoneExample(s: seq<real>)
    requires s == [3.0, 1.0]
    ensures MinAbove(s, Some(3.0)) == None
  {
  }
}
