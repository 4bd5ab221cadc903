# drain.js, exact core

A Dafny model of the exact, index- and order-based part of `drain.js`, a flat
JavaScript math and statistics toolkit that attaches its statistics to
`Array.prototype`. The model covers:

- the integer helpers `range`, `factorial` and `ncr`;
- `discrim` and `solveQuadratic`;
- the array summaries `sum`, `mean`, `variance`, `dot` and `chisquare`;
- `linear` and the slope and intercept of `linReg`;
- the limit-filtered extrema `min(limit)` and `max(limit)`, with `nullIfEmpty`;
- the quartile rule and its users `median`, `q1`, `q3` and `iqr`;
- `boxplot`;
- `randomInt` and the Fisher–Yates `shuffle`.

Numbers are exact: `int` for the integer helpers and `real` (exact
rationals) for everything else. JavaScript's absent and undefined answers
are all written `None` in an `Option`: `undefined` from an optional chain
on `nullIfEmpty`'s `null` or from a read past the end of an array, and the
`NaN` that follows from either, or from `0 / 0`. The `Infinity` (or `NaN`)
that `chisquare` gets from a zero expected count is `None` as well. The
error that `linReg` throws for arrays of different lengths is a `Failure`
in a `Result`. When the x values do not vary, `linReg` does not throw but
returns a record whose slope and intercept are `NaN` (0 / 0 at
drain.js:85); the model answers `Failure(NoSpread)` for that record. The
`Array.prototype` methods are free functions over `seq<real>`.

`Math.random()` is not modelled as a source of randomness. Each value it
would return is passed in as a real `u` in [0, 1), and `shuffle` takes the
sequence of those draws, one per pass of its loop. `Math.sqrt` is likewise
a function parameter of `solveQuadratic`. The root lemmas ask only that it
returns the non-negative square root.

Modules, one per file:

- `Wrappers`: `Option`, `Result`.
- `Numbers`: `Math.abs`, `Math.sign`, `Math.trunc`, and `x % 1 == 0`.
- `Seqs`: `filter`, the ascending sort and element swaps.
- `Ranges`: `range`.
- `Combinatorics`: `factorial`, `ncr`.
- `Quadratic`: `discrim`, `solveQuadratic`.
- `Summary`: `sum`, `mean`, `variance`, `dot`, `chisquare`.
- `Regression`: `linear`, `linReg`.
- `Extrema`: `min(limit)`, `max(limit)`.
- `Quartiles`: the quartile rule and its users.
- `Boxplot`: `boxplot`.
- `Shuffle`: `randomInt`, `shuffle`.

Four behaviours of the code are easy to misread. The model follows the
code as written:

- **The median is not the textbook median.** The quartile rule at p = 0.5
  reads index n / 2 for even n. For odd n it averages the entries at
  (n - 1) / 2 - 1 and (n - 1) / 2, the middle one and the one before it.
  So `[1,2,3,4].median()` is 3 and `[1,2,3,4,5].median()` is 2.5
  (`Quartiles.MedianExamples`).
- **Truncation in the quartile rule.** The fractional branch uses
  `Math.trunc`, not `Math.floor`. The two differ only for negative
  positions.
- **No length checks in `dot` and `chisquare`.** Neither compares the
  lengths of its two arrays:
  - a shorter second (resp. first) array is read past its end, giving
    `NaN`;
  - extra elements are ignored.
- **Whiskers in `boxplot`.** `min` and `max` are compared strictly against
  the mild fences. So a point exactly on a mild fence is neither a whisker
  nor an outlier.

## Model

| member | source | states |
|---|---|---|
| Ranges.Range | drain.js:64 | length \|end - start\| + 1, first element start, last element end, consecutive elements differ by sign(end - start) |
| Ranges.RangeMembers | drain.js:64 | x is in range(start, end) exactly when x lies between the two ends, in either order |
| Ranges.RangeReversed | drain.js:64 | range(end, start) is range(start, end) reversed |
| Ranges.RangeSingleton | drain.js:64 | range(s, s) == [s] |
| Combinatorics.Factorial | drain.js:60 | the counting loop returns the product 1 * ... * n; 1 for every n <= 0 (the body never runs); n * factorial(n - 1) for n >= 1 |
| Combinatorics.Ncr | drain.js:61 | the factorial quotient is always positive, also for r > n or r < 0 |
| Combinatorics.BinomialTimesFactorials | drain.js:60-61 | n! == C(n, r) * (n - r)! * r! for 0 <= r <= n, with C from Pascal's triangle |
| Combinatorics.NcrIsBinomial | drain.js:61 | for 0 <= r <= n, ncr(n, r) equals the Pascal's-triangle binomial coefficient |
| Combinatorics.NcrPascal | drain.js:61 | Pascal's rule ncr(n, r) == ncr(n-1, r-1) + ncr(n-1, r) for 1 <= r < n |
| Combinatorics.NcrSymmetric | drain.js:61 | ncr(n, r) == ncr(n, n - r) |
| Combinatorics.NcrEdges | drain.js:61 | ncr(n, 0) == ncr(n, n) == 1 |
| Combinatorics.FactorialExamples | drain.js:60-61 | factorial(0) == 1, factorial(5) == 120, factorial(-3) == 1, ncr(5, 2) == 10 |
| Combinatorics.NcrBeyondExample | drain.js:61 | with r > n the quotient is not 0: ncr(3, 5) == 0.05 |
| Quadratic.Discrim | drain.js:68 | the discriminant is negative only when a and c have the same strict sign; `Quadratic.CompletedSquare` ties it to the polynomial |
| Quadratic.SolveQuadratic | drain.js:68-75 | no roots exactly when the discriminant is negative; exactly [-b/(2a)] when it lies in [0, EPSILON); exactly two entries when it is at least EPSILON |
| Quadratic.SolveQuadraticAsWritten | drain.js:69-75 | line 74 as written returns as many entries as the corrected branch, and agrees with it outside the two-root branch |
| Quadratic.CompletedSquare | drain.js:68 | 4a(ax^2 + bx + c) == (2ax + b)^2 - discrim(a, b, c) |
| Quadratic.NoRootsWhenNegative | drain.js:71 | when the empty answer is returned, no real x solves the equation |
| Quadratic.RepeatedRootSolves | drain.js:72 | with a zero discriminant the single answer -b/(2a) solves the equation |
| Quadratic.RootsSolveEquation | drain.js:73-74 | with a true square root, both corrected two-root answers solve the equation and differ |
| Quadratic.AsWrittenSecondRootWrong | drain.js:74 | on 1x^2 + 0x - 4, line 74 answers [2, -8], -8 is not a root, and the corrected branch answers [2, -2] |
| Quadratic.AsWrittenPrecedenceWrong | drain.js:74 | on 2x^2 + 0x - 8, `/2*a` makes the first answer 8, not a root; the corrected branch answers [2, -2] |
| Summary.SumSqDevNonNegative | drain.js:124 | the sum of squared deviations is never negative |
| Summary.Sum | drain.js:119 | the seeded fold from 0; characterised by `Summary.SumAppend`, `Summary.SumBounds` and `Summary.MeanScaled` |
| Summary.SumAppend | drain.js:119 | sum(s + t) == sum(s) + sum(t) |
| Summary.SumBounds | drain.js:119 | values within [lo, hi] sum to within [n lo, n hi] |
| Summary.Mean | drain.js:120 | defined exactly for non-empty arrays (0 / 0 is NaN) |
| Summary.MeanBetween | drain.js:119-120 | the mean lies within any bounds of the data |
| Summary.MeanScaled | drain.js:119-120 | mean * n == sum |
| Summary.Variance | drain.js:124 | defined exactly when n >= 1 (population) or n != 1 (sample: the empty array gives 0 / -1, a number, and one point gives 0 / 0, NaN); never negative; 0 on the empty array |
| Summary.MeanAndVarianceScaled | drain.js:124 | n * population variance == the sum of squared deviations from the mean |
| Summary.SumSqDevExpand | drain.js:124 | sum of (x - m)^2 == sum of x^2 - 2m sum of x + n m^2 |
| Summary.PopulationVarianceShortcut | drain.js:124 | the population variance is the mean of the squares less the square of the mean |
| Summary.SampleVarianceDominates | drain.js:124 | for n > 1: sample variance * (n - 1) == population variance * n, so the sample value is at least the population value |
| Summary.Dot | drain.js:57 | defined exactly when B is at least as long as A (a read past B's end gives NaN) |
| Summary.DotIgnoresExtra | drain.js:57 | elements of B beyond A's length do not change the result |
| Summary.DotSymmetric | drain.js:57 | for equal lengths dot(A, B) == dot(B, A) |
| Summary.DotSelf | drain.js:57 | dot(A, A) is never negative, and zero exactly for the zero vector |
| Summary.ChiSquare | drain.js:78 | defined exactly when observed is at least as long as expected and no expected count is 0 |
| Summary.ChiTermSign | drain.js:78 | with a positive expectation a term is non-negative, zero exactly when observation equals expectation |
| Summary.ChiSquareZeroIffMatch | drain.js:78 | with positive expectations the statistic is non-negative, and zero exactly when the observations match the expectations index by index |
| Regression.Linear | drain.js:80 | the line v * slope + intercept; characterised by `Regression.DeviationOnLine`, `Regression.LinRegThroughMeans` and `Regression.LinRegRecoversLine` |
| Regression.DeviationOnLine | drain.js:80 | the line's rise between two points is slope times their distance |
| Regression.LinReg | drain.js:82-86 | throws exactly on a length mismatch; gives a fit exactly when the lengths match and the x values vary; the fit solves the normal equations slope * Sxx == Sxy and intercept * n == sum(y) - slope * sum(x) |
| Regression.FitFromSums | drain.js:85-86 | the slope and intercept quotients satisfy their defining equations |
| Regression.LinRegThroughMeans | drain.js:80-86 | the fitted line passes through the point of means (x̄, ȳ) |
| Regression.LinRegRecoversLine | drain.js:80-86 | data lying exactly on y = a x + b with varying x give back slope a and intercept b |
| Regression.SumSqDevZeroIff | drain.js:85 | the squared deviations from m vanish exactly when every value is m |
| Regression.SpreadIffDeviation | drain.js:85 | the slope's denominator is non-zero exactly when the x values are not all equal |
| Regression.MeanOfConstant | drain.js:120 | identical values have that value as their mean |
| Extrema.ReduceMin | drain.js:122 | the seedless `reduce` with `Math.min` returns an element that is at most every element |
| Extrema.ReduceMax | drain.js:123 | the seedless `reduce` with `Math.max` returns an element that is at least every element |
| Extrema.MinAbove | drain.js:122 | undefined (the optional chain on `nullIfEmpty`'s null, line 115) exactly when no element is strictly above the limit; otherwise an element strictly above it and at most every such element |
| Extrema.MaxBelow | drain.js:123 | undefined exactly when no element is strictly below the limit; otherwise an element strictly below it and at least every such element |
| Extrema.MaxIsMirroredMin | drain.js:122-123 | max below a limit is minus the min above the negated limit on the negated data |
| Extrema.NoLimitNoResult | drain.js:122-123 | with no limit (a comparison with undefined) both are undefined |
| Extrema.MinAboveExample | drain.js:122 | [3, 1, 4, 1, 5].min(1) == 3 |
| Extrema.MaxBelowExample | drain.js:123 | [3, 1, 4, 1, 5].max(5) == 4 |
| Extrema.MinAboveNoneExample | drain.js:122 | [3, 1].min(3) is undefined |
| Quartiles.Quartile | drain.js:127-134 | defined exactly when the reads stay inside the array; an integral position k gives arr[k]; any other gives the average of the two neighbours around it |
| Quartiles.Median | drain.js:135 | defined exactly for length >= 2 |
| Quartiles.Q1 | drain.js:136 | defined exactly for length >= 4 |
| Quartiles.Q3 | drain.js:137 | defined exactly for length >= 2 |
| Quartiles.Iqr | drain.js:138 | defined exactly for length >= 4 |
| Quartiles.QuartileWithin | drain.js:127-134 | on sorted data a quartile lies between the first and last element |
| Quartiles.QuartileBracket | drain.js:127-134 | on sorted data a quartile lies between the elements just below and at the truncated position |
| Quartiles.QuartileSpacedMonotone | drain.js:127-134 | on sorted data, positions at least one index apart give ordered quartiles |
| Quartiles.QuartileNotMonotone | drain.js:127-134 | closer positions may not: on [1, 2, 3, 4] p = 0.5 gives 3 and p = 0.6 gives 2.5 |
| Quartiles.QuartilesOrdered | drain.js:135-138 | on sorted data of length >= 4, q1 <= median <= q3 and iqr >= 0 |
| Quartiles.MedianExamples | drain.js:135 | [1,2,3,4].median() == 3, [1,2,3,4,5].median() == 2.5, [7].median() is undefined |
| Seqs.Filter | drain.js:106-107 | the result is an order-preserving subsequence of the input, every element of it passes, and every passing input element appears in it |
| Seqs.FilterCounts | drain.js:106-107 | each passing value occurs in the result exactly as often as in the input, and no other value occurs |
| Seqs.Insert | drain.js:98 | inserting into sorted data keeps it sorted and adds exactly the new element |
| Seqs.SortAscending | drain.js:98 | the ascending sort is sorted and a permutation of its input |
| Seqs.SortMembers | drain.js:98 | the sorted copy holds exactly the values of its input |
| Seqs.SortSorted | drain.js:98 | sorting already sorted data changes nothing |
| Seqs.SubsequenceOfSorted | drain.js:106-107 | an order-preserving subsequence of sorted data is sorted |
| Seqs.Swap | drain.js:142-144 | the exchange swaps the two positions, leaves every other one alone and keeps the multiset |
| Boxplot.Boxplot | drain.js:97-109 | the range is defined exactly from four points; both whiskers and every reported outlier are points of the argument |
| Boxplot.BoxplotOfSorted | drain.js:99-108 | on data already sorted: the range is defined exactly from four points and is q3 - q1; the whiskers are data points; both groups are order-preserving subsequences of the data |
| Boxplot.BoxplotDefined | drain.js:99-105 | for sorted data of length >= 4, the quartiles, range and median are defined, q1 <= median <= q3, iqr >= 0, and the fences are ordered outwards |
| Boxplot.BoxplotSortsFirst | drain.js:98 | boxplot works on a sorted permutation of its argument |
| Boxplot.BoxplotMembership | drain.js:106-107 | x is a mild (extreme) outlier exactly when it is in the data and strictly between the fences (strictly beyond an extreme fence) |
| Boxplot.MildNotExtreme | drain.js:106-107 | with ordered fences no value is both mild and extreme |
| Boxplot.BoxplotGroupsDisjoint | drain.js:106-107 | for length >= 4 the two outlier groups share no value |
| Boxplot.FencePointUnclassified | drain.js:106-107 | a value on any fence is in neither class |
| Boxplot.BoxplotFencePointsUnclassified | drain.js:105-107 | a point equal to an extreme fence is in neither group |
| Boxplot.BoxplotGroupsOrdered | drain.js:98-107 | both groups are order-preserving subsequences of the sorted data, hence sorted |
| Boxplot.BoxplotWhiskers | drain.js:103-104 | min is a data point strictly above the lower mild fence and the least such; max is strictly below the upper mild fence and the greatest such |
| Boxplot.BoxplotShortInput | drain.js:99-108 | with fewer than four points q1, iqr and both whiskers are missing and both groups are empty; median and q3 exist from two points |
| Boxplot.BoxplotPointOnMildFence | drain.js:103-107 | a point on a mild fence is in neither group, and the whisker on that side lies strictly inside it |
| Boxplot.BoxplotPointOnMildFenceExample | drain.js:97-108 | on [1, 4, 5, 6] the lower mild fence is 1, the whisker starts at 4 and 1 is in no group |
| Boxplot.BoxplotExtremeOutlierExample | drain.js:97-108 | on [1, 2, 2, 3, 3, 4, 4, 5, 100] q1 == 2, q3 == 4, 100 is an extreme outlier and the upper whisker is 5 |
| Boxplot.BoxplotConstantData | drain.js:97-108 | identical points give iqr 0, no whiskers and no outliers |
| Boxplot.ConstantQuartiles | drain.js:99-100 | both quartiles of identical sorted points are that point |
| Shuffle.RandomInt | drain.js:43-44 | for min <= max and a draw in [0, 1) the result lies in [min, max] |
| Shuffle.RandomIntSlices | drain.js:43-44 | the result is k exactly when the draw lies in the k-th of max - min + 1 equal slices of [0, 1) |
| Shuffle.DrawFor | drain.js:44 | every j in [0, i] is the result of randomInt(0, i) for some draw |
| Shuffle.Shuffle | drain.js:139-147 | the shuffled array has the same length and the same multiset of elements |
| Shuffle.ShuffleLoop | drain.js:139-147 | the loop from the last index down to 1 computes the recursive definition and keeps the multiset |
| Shuffle.LoopStep | drain.js:140-145 | one pass exchanges i with its partner and leaves the positions after i as they were |
| Shuffle.ShuffleFirstPass | drain.js:140-145 | the first pass settles the last index, and the rest is the shuffle of the prefix with the remaining draws |
| Shuffle.ShuffleSettlesLast | drain.js:140-145 | the partner lies in [0, i], the last element of the result is the element the first draw picked, and the positions before it are the shuffle of the rest |
| Shuffle.ArrangingDraws | drain.js:139-147 | for any permutation t of s there is a sequence of draws, each in [0, 1) |
| Shuffle.EveryArrangementReachable | drain.js:139-147 | with those draws the shuffle produces exactly t: every permutation is a possible outcome |

## Left out

- Trigonometry and the global `deg` flag (drain.js:4, 17-29): thin calls to `Math.sin` and friends with no exact meaning.
- `log`, `ln`, `root`, `sqrt`, `cbrt`, the vector `length`, `stddev` and `zscore` (drain.js:47-53, 56, 125, 148-150): transcendental or square-root based.
- `random`, `randomReal` and `pick` (drain.js:42-43, 121): the random source. Only the draw that `randomInt` turns into an index is modelled, as a parameter.
- Shuffle.Shuffle: the probability distribution of the outcome is not stated. `Shuffle.RandomIntSlices` gives the per-pass slice widths and `Shuffle.EveryArrangementReachable` shows every permutation occurs, but the model has no measure.
- Shuffle.ShuffleLoop: works on a sequence value and returns the result. It does not model the in-place mutation of the caller's array or that the same array object is returned.
- `linReg`'s correlation `r` and its `population` flag (drain.js:87-88): they need `stddev`, and the population branch divides by the array `x` itself.
- `linReg`'s `regEq` closure (drain.js:89): the fitted line is the separate function `Regression.Linear`.
- `residuals`, `rss`, `tss` and `r2` (drain.js:92-95): they sit outside the regression core.
- `createArr`, `col`, `objMap` and `pluck` (drain.js:65, 112, 118, 126): these depend on console output, callbacks and object keys.
- The `Array.prototype` injection (drain.js:118-150): the methods are free functions over sequences.
- IEEE-754 rounding, overflow, `Infinity` and `NaN` as numbers: all arithmetic is exact, so `factorial` never overflows and `ncr` is an exact quotient.
- Non-integer arguments to `range`, `factorial` and `ncr`: they take integers here.
- Quadratic.SolveQuadratic: requires a != 0. For a == 0 the discriminant is b^2. If that is below EPSILON, line 72 divides by 2*a = 0 and answers `Infinity`, `-Infinity` or `NaN`, which exact reals cannot hold. The two-root branch with a == 0 is not modelled either.
- Quadratic.SolveQuadraticAsWritten: requires a != 0 for the same reason: line 72 is shared. With a == 0 and b^2 >= EPSILON, line 74 as written multiplies by a rather than dividing by it. So `solveQuadratic(0, 1, 0)` returns the finite [0, -0], and the model does not state that.
- Quadratic.SolveQuadratic: `Math.sqrt` is a parameter. The root lemmas assume it returns the exact non-negative square root, which floating point does not guarantee.
- Boxplot.BoxplotSortsFirst: states that boxplot works on the sorted copy. The side effect of `arr.sort` reordering the caller's array is not modelled.
- `boxplot`'s `median` field is `Quartiles.Median` of the sorted data. Nothing beyond q1 <= median <= q3 is stated about it.
- Quartiles.Quartile: the position `length * p` is an exact real. A `NaN` or infinite `p` is not modelled.

## Findings

| source | as written | input that shows it | evidently intended | confidence | as-written member | corrected member |
|---|---|---|---|---|---|---|
| drain.js:74 | the second root is `(-b-disc)/2*a`, subtracting the discriminant rather than its square root `_disc` | solveQuadratic(1, 0, -4) answers [2, -8]; -8 is not a root | (-b - sqrt(disc)) / (2a), giving [2, -2] | not executed | Quadratic.AsWrittenSecondRootWrong | Quadratic.RootsSolveEquation |
| drain.js:74 | both roots end in `/2*a`, which divides by 2 and then multiplies by a | solveQuadratic(2, 0, -8) answers 8 first; 8 is not a root | division by (2a), giving [2, -2] | not executed | Quadratic.AsWrittenPrecedenceWrong | Quadratic.RootsSolveEquation |
