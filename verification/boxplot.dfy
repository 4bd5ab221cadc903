/** `boxplot(arr)`: sort, take the quartiles, put fences 1.5 and 3
    interquartile ranges beyond them, and sort the points into mild and
    extreme outliers.

    The whiskers `min` and `max` are the extremes strictly inside the mild
    fences. With fewer than four points `q1` is `undefined`, so the range
    and every fence are `NaN`: no comparison with them holds, the whiskers
    are `undefined` and both outlier lists are empty. */
module Boxplot {
  import opened Wrappers
  import opened Numbers
  import opened Seqs
  import opened Quartiles
  import opened Extrema

  datatype BoxplotSummary = BoxplotSummary(
    q1: Option<real>, q3: Option<real>, iqr: Option<real>, median: Option<real>,
    min: Option<real>, max: Option<real>,
    mildOutliers: seq<real>, extremeOutliers: seq<real>)

  datatype Fences = Fences(
    lowerMild: Option<real>, upperMild: Option<real>,
    lowerExtreme: Option<real>, upperExtreme: Option<real>)

  /** `q - iqr * k`, `NaN` when either operand is. */
  function Lower(q: Option<real>, iqr: Option<real>, k: real): Option<real> {
    if q.Some? && iqr.Some? then Some(q.value - iqr.value * k) else None
  }

  /** `q + iqr * k`, `NaN` when either operand is. */
  function Upper(q: Option<real>, iqr: Option<real>, k: real): Option<real> {
    if q.Some? && iqr.Some? then Some(q.value + iqr.value * k) else None
  }

  function FencesOf(q1: Option<real>, q3: Option<real>, iqr: Option<real>): Fences {
    Fences(Lower(q1, iqr, 1.5), Upper(q3, iqr, 1.5), Lower(q1, iqr, 3.0), Upper(q3, iqr, 3.0))
  }

  /** Strictly between an extreme fence and a mild fence, on either side. */
  predicate IsMild(x: real, f: Fences) {
    || (Below(x, f.lowerMild) && Above(x, f.lowerExtreme))
    || (Above(x, f.upperMild) && Below(x, f.upperExtreme))
  }

  /** Strictly beyond an extreme fence. */
  predicate IsExtreme(x: real, f: Fences) {
    Below(x, f.lowerExtreme) || Above(x, f.upperExtreme)
  }

  /** The statistics of data the caller has already sorted: the range is
      there exactly from four points, the whiskers are data points and both
      groups are drawn from the data in order. */
  function BoxplotOfSorted(s: seq<real>): (b: BoxplotSummary)
    ensures b.iqr.Some? <==> |s| >= 4
    ensures b.iqr.Some? ==> b.q1.Some? && b.q3.Some? && b.iqr.value == b.q3.value - b.q1.value
    ensures b.min.Some? ==> b.min.value in s
    ensures b.max.Some? ==> b.max.value in s
    ensures IsSubsequence(b.mildOutliers, s) && IsSubsequence(b.extremeOutliers, s)
  {
    var q1, q3 := Q1(s), Q3(s);
    var iqr := if q1.Some? && q3.Some? then Some(q3.value - q1.value) else None;
    var f := FencesOf(q1, q3, iqr);
    BoxplotSummary(
      q1, q3, iqr, Median(s),
      MinAbove(s, f.lowerMild), MaxBelow(s, f.upperMild),
      Filter(x => IsMild(x, f), s), Filter(x => IsExtreme(x, f), s))
  }

  /** `boxplot(arr)`: the statistics of the sorted copy, so every whisker
      and outlier it reports is a point of the argument. */
  function Boxplot(arr: seq<real>): (b: BoxplotSummary)
    ensures b.iqr.Some? <==> |arr| >= 4
    ensures b.min.Some? ==> b.min.value in arr
    ensures b.max.Some? ==> b.max.value in arr
    ensures forall x :: x in b.mildOutliers ==> x in arr
    ensures forall x :: x in b.extremeOutliers ==> x in arr
  {
    var s := SortAscending(arr);
    SortMembers(arr);
    var b := BoxplotOfSorted(s);
    SubsequenceMembers(b.mildOutliers, s);
    SubsequenceMembers(b.extremeOutliers, s);
    b
  }

  function FencesOfSummary(b: BoxplotSummary): Fences {
    FencesOf(b.q1, b.q3, b.iqr)
  }

  /** With four or more points every statistic is defined, the quartiles
      are ordered and the interquartile range is never negative. */
  lemma BoxplotDefined(s: seq<real>)
    requires Sorted(s) && |s| >= 4
    ensures var b := BoxplotOfSorted(s);
      && b.q1.Some? && b.q3.Some? && b.iqr.Some? && b.median.Some?
      && b.q1.value <= b.median.value <= b.q3.value
      && b.iqr.value == b.q3.value - b.q1.value >= 0.0
      && OrderedFences(FencesOfSummary(b))
  {
    QuartilesOrdered(s);
  }

  /** Both fences on each side are present and ordered outwards. */
  predicate OrderedFences(f: Fences) {
    && f.lowerMild.Some? && f.upperMild.Some? && f.lowerExtreme.Some? && f.upperExtreme.Some?
    && f.lowerExtreme.value <= f.lowerMild.value <= f.upperMild.value <= f.upperExtreme.value
  }

  /** `boxplot` sorts its argument and works on the sorted copy. */
  lemma BoxplotSortsFirst(arr: seq<real>)
    ensures var s := SortAscending(arr);
      && Boxplot(arr) == BoxplotOfSorted(s)
      && Sorted(s) && |s| == |arr| && forall x :: x in s <==> x in arr
  {
    SortMembers(arr);
  }

  /** A point is a mild outlier exactly when it is in the data and lies
      strictly between the fences on one side; likewise for extreme ones. */
  lemma BoxplotMembership(arr: seq<real>, x: real)
    ensures var b, f := Boxplot(arr), FencesOfSummary(Boxplot(arr));
      && (x in b.mildOutliers <==> x in arr && IsMild(x, f))
      && (x in b.extremeOutliers <==> x in arr && IsExtreme(x, f))
  {
    BoxplotSortsFirst(arr);
  }

  /** With ordered fences no value is both mild and extreme. */
  lemma MildNotExtreme(x: real, f: Fences)
    requires OrderedFences(f)
    ensures !(IsMild(x, f) && IsExtreme(x, f))
  {
  }

  /** For four or more points no value is both a mild and an extreme
      outlier. */
  lemma BoxplotGroupsDisjoint(arr: seq<real>)
    requires |arr| >= 4
    ensures var b := Boxplot(arr);
      forall x :: x in b.mildOutliers ==> x !in b.extremeOutliers
  {
    BoxplotSortsFirst(arr);
    BoxplotDefined(SortAscending(arr));
    var b, f := Boxplot(arr), FencesOfSummary(Boxplot(arr));
    forall x | x in b.mildOutliers
      ensures x !in b.extremeOutliers
    {
      BoxplotMembership(arr, x);
      MildNotExtreme(x, f);
    }
  }

  /** A point on a fence, mild or extreme, is in neither group. */
  lemma FencePointUnclassified(x: real, f: Fences)
    requires OrderedFences(f)
    requires || x == f.lowerExtreme.value || x == f.upperExtreme.value
             || x == f.lowerMild.value || x == f.upperMild.value
    ensures !IsMild(x, f) && !IsExtreme(x, f)
  {
  }

  /** A data point equal to an extreme fence is in neither group. */
  lemma BoxplotFencePointsUnclassified(arr: seq<real>, x: real)
    requires |arr| >= 4
    requires var f := FencesOfSummary(Boxplot(arr));
      x == f.lowerExtreme.value || x == f.upperExtreme.value
    ensures x !in Boxplot(arr).mildOutliers && x !in Boxplot(arr).extremeOutliers
  {
    BoxplotSortsFirst(arr);
    BoxplotDefined(SortAscending(arr));
    BoxplotMembership(arr, x);
    FencePointUnclassified(x, FencesOfSummary(Boxplot(arr)));
  }

  /** Both groups keep the order of the sorted data, so both are sorted. */
  lemma BoxplotGroupsOrdered(arr: seq<real>)
    ensures var b, s := Boxplot(arr), SortAscending(arr);
      && IsSubsequence(b.mildOutliers, s) && Sorted(b.mildOutliers)
      && IsSubsequence(b.extremeOutliers, s) && Sorted(b.extremeOutliers)
  {
    var b, s := Boxplot(arr), SortAscending(arr);
    SubsequenceOfSorted(b.mildOutliers, s);
    SubsequenceOfSorted(b.extremeOutliers, s);
  }

  /** The whiskers are data points strictly inside the mild fences, and the
      most extreme such points. */
  lemma BoxplotWhiskers(arr: seq<real>)
    requires |arr| >= 4
    ensures var b, f := Boxplot(arr), FencesOfSummary(Boxplot(arr));
      && (b.min.Some? ==>
            && b.min.value in arr && b.min.value > f.lowerMild.value
            && forall x :: x in arr && x > f.lowerMild.value ==> b.min.value <= x)
      && (b.max.Some? ==>
            && b.max.value in arr && b.max.value < f.upperMild.value
            && forall x :: x in arr && x < f.upperMild.value ==> b.max.value >= x)
  {
    BoxplotSortsFirst(arr);
    BoxplotDefined(SortAscending(arr));
  }

  /** With fewer than four points `q1` is undefined, so every fence is
      `NaN`: no whiskers and no outliers. */
  lemma BoxplotShortInput(arr: seq<real>)
    requires |arr| < 4
    ensures var b := Boxplot(arr);
      && b.q1.None? && b.iqr.None? && b.min.None? && b.max.None?
      && b.mildOutliers == [] && b.extremeOutliers == []
      && (b.median.Some? <==> |arr| >= 2) && (b.q3.Some? <==> |arr| >= 2)
  {
    ShortSorted(SortAscending(arr));
  }

  lemma ShortSorted(s: seq<real>)
    requires |s| < 4
    ensures var b := BoxplotOfSorted(s);
      && b.q1.None? && b.iqr.None? && b.min.None? && b.max.None?
      && b.mildOutliers == [] && b.extremeOutliers == []
      && (b.median.Some? <==> |s| >= 2) && (b.q3.Some? <==> |s| >= 2)
  {
    var f := FencesOfSummary(BoxplotOfSorted(s));
    assert f == Fences(None, None, None, None);
    NoFencesNoGroups(s, f);
  }

  /** `NaN` fences admit no comparison, so nothing is classified. */
  lemma NoFencesNoGroups(s: seq<real>, f: Fences)
    requires f == Fences(None, None, None, None)
    ensures Filter(x => IsMild(x, f), s) == [] && Filter(x => IsExtreme(x, f), s) == []
  {
    FilterNone(x => IsMild(x, f), s);
    FilterNone(x => IsExtreme(x, f), s);
  }

  /** The comparisons against the mild fences are strict on both sides, so
      a point exactly on a mild fence is neither an outlier nor a whisker. */
  lemma BoxplotPointOnMildFence(arr: seq<real>, x: real)
    requires |arr| >= 4
    requires var f := FencesOfSummary(Boxplot(arr));
      x == f.lowerMild.value || x == f.upperMild.value
    ensures var b, f := Boxplot(arr), FencesOfSummary(Boxplot(arr));
      && x !in b.mildOutliers && x !in b.extremeOutliers
      && (b.min.Some? && x == f.lowerMild.value ==> b.min.value > x)
      && (b.max.Some? && x == f.upperMild.value ==> b.max.value < x)
  {
    BoxplotSortsFirst(arr);
    BoxplotDefined(SortAscending(arr));
    BoxplotMembership(arr, x);
    FencePointUnclassified(x, FencesOfSummary(Boxplot(arr)));
  }

  /** Such a point exists: in the sorted data [1, 4, 5, 6] the lower mild
      fence is 1, so the whisker starts at 4 and the point 1 is in no group. */
  lemma BoxplotPointOnMildFenceExample(s: seq<real>)
    requires s == [1.0, 4.0, 5.0, 6.0]
    ensures var b := BoxplotOfSorted(s);
      && b.q1 == Some(4.0) && b.q3 == Some(6.0)
      && FencesOfSummary(b).lowerMild == Some(1.0) && b.min == Some(4.0)
      && 1.0 !in b.mildOutliers && 1.0 !in b.extremeOutliers
  {
    FourQuartiles(s);
    var f := FencesOfSummary(BoxplotOfSorted(s));
    assert f == Fences(Some(1.0), Some(9.0), Some(-2.0), Some(12.0));
    FourLowerWhisker(s);
    FencePointUnclassified(1.0, f);
    Unkept(1.0, x => IsMild(x, f), s);
    Unkept(1.0, x => IsExtreme(x, f), s);
  }

  /** A value the predicate rejects is not among the kept elements. */
  lemma Unkept(v: real, keep: real -> bool, s: seq<real>)
    requires !keep(v)
    ensures v !in Filter(keep, s)
  {
  }

  lemma FourQuartiles(s: seq<real>)
    requires s == [1.0, 4.0, 5.0, 6.0]
    ensures Q1(s) == Some(4.0) && Q3(s) == Some(6.0)
  {
    assert Position(4, 0.25) == 1.0 && Position(4, 0.75) == 3.0;
  }

  lemma FourLowerWhisker(s: seq<real>)
    requires s == [1.0, 4.0, 5.0, 6.0]
    ensures MinAbove(s, Some(1.0)) == Some(4.0)
  {
    assert Above(s[1], Some(1.0));
    var m := MinAbove(s, Some(1.0)).value;
    assert m <= s[1];
  }

  /** A far point: in [1, 2, 2, 3, 3, 4, 4, 5, 100] the quartiles are 2
      and 4, the upper extreme fence is 10, so 100 is an extreme outlier and
      the upper whisker ends at 5. */
  lemma BoxplotExtremeOutlierExample(s: seq<real>)
    requires s == [1.0, 2.0, 2.0, 3.0, 3.0, 4.0, 4.0, 5.0, 100.0]
    ensures var b := BoxplotOfSorted(s);
      && b.q1 == Some(2.0) && b.q3 == Some(4.0) && b.iqr == Some(2.0)
      && 100.0 in b.extremeOutliers && 100.0 !in b.mildOutliers
      && b.max == Some(5.0)
  {
    NineQuartiles(s);
    var f := FencesOfSummary(BoxplotOfSorted(s));
    assert f.lowerMild == Some(-1.0) && f.upperMild == Some(7.0) && f.upperExtreme == Some(10.0);
    NineFarPoint(s, f);
    NineUpperWhisker(s);
  }

  lemma NineFarPoint(s: seq<real>, f: Fences)
    requires s == [1.0, 2.0, 2.0, 3.0, 3.0, 4.0, 4.0, 5.0, 100.0]
    requires f.lowerMild == Some(-1.0) && f.upperMild == Some(7.0) && f.upperExtreme == Some(10.0)
    ensures 100.0 in Filter(x => IsExtreme(x, f), s)
    ensures 100.0 !in Filter(x => IsMild(x, f), s)
  {
    assert s[8] == 100.0 && IsExtreme(s[8], f);
    Unkept(100.0, x => IsMild(x, f), s);
  }

  lemma NineUpperWhisker(s: seq<real>)
    requires s == [1.0, 2.0, 2.0, 3.0, 3.0, 4.0, 4.0, 5.0, 100.0]
    ensures MaxBelow(s, Some(7.0)) == Some(5.0)
  {
    assert Below(s[7], Some(7.0));
    var m := MaxBelow(s, Some(7.0)).value;
    assert m >= s[7];
  }

  lemma NineQuartiles(s: seq<real>)
    requires s == [1.0, 2.0, 2.0, 3.0, 3.0, 4.0, 4.0, 5.0, 100.0]
    ensures Q1(s) == Some(2.0) && Q3(s) == Some(4.0)
  {
    assert Position(9, 0.25) == 2.25 && !IsIntegral(2.25) && Trunc(2.25) == 2;
    assert Position(9, 0.75) == 6.75 && !IsIntegral(6.75) && Trunc(6.75) == 6;
  }

  /** Identical points have a zero range, so no point lies strictly inside
      the mild fences and both whiskers are missing. */
  lemma BoxplotConstantData(arr: seq<real>, c: real)
    requires |arr| >= 4 && forall i :: 0 <= i < |arr| ==> arr[i] == c
    ensures var b := Boxplot(arr);
      && b.iqr == Some(0.0) && b.min.None? && b.max.None?
      && b.mildOutliers == [] && b.extremeOutliers == []
  {
    BoxplotSortsFirst(arr);
    var s := SortAscending(arr);
    assert forall i :: 0 <= i < |s| ==> s[i] == c by {
      forall i | 0 <= i < |s|
        ensures s[i] == c
      {
        assert s[i] in arr;
      }
    }
    ConstantBoxplot(s, c);
  }

  lemma ConstantBoxplot(s: seq<real>, c: real)
    requires Sorted(s) && |s| >= 4 && forall i :: 0 <= i < |s| ==> s[i] == c
    ensures var b := BoxplotOfSorted(s);
      && b.iqr == Some(0.0) && b.min.None? && b.max.None?
      && b.mildOutliers == [] && b.extremeOutliers == []
  {
    ConstantQuartiles(s, c);
    var f := FencesOfSummary(BoxplotOfSorted(s));
    assert f == Fences(Some(c), Some(c), Some(c), Some(c));
    ConstantGroups(s, c, f);
  }

  /** Both quartiles of identical points are that point. */
  lemma ConstantQuartiles(s: seq<real>, c: real)
    requires Sorted(s) && |s| >= 4 && forall i :: 0 <= i < |s| ==> s[i] == c
    ensures Q1(s) == Some(c) && Q3(s) == Some(c)
  {
    QuartileWithin(s, 0.25);
    QuartileWithin(s, 0.75);
  }

  /** Fences that all sit on the common value leave every point
      unclassified and no whisker. */
  lemma ConstantGroups(s: seq<real>, c: real, f: Fences)
    requires forall i :: 0 <= i < |s| ==> s[i] == c
    requires f == Fences(Some(c), Some(c), Some(c), Some(c))
    ensures MinAbove(s, f.lowerMild).None? && MaxBelow(s, f.upperMild).None?
    ensures Filter(x => IsMild(x, f), s) == [] && Filter(x => IsExtreme(x, f), s) == []
  {
    FilterNone(x => IsMild(x, f), s);
    FilterNone(x => IsExtreme(x, f), s);
  }
}
