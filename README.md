# Error probabilities from two crossing density curves

A Dafny model of the computational core of the ProbabilisticDistribution web
application (`src/app/app.component.ts`). The component samples two normal
distributions, bins the samples into two piecewise-linear density curves, finds
the point where the curves cross, integrates each curve with the trapezoid rule on
either side of the crossing, and turns those areas into a false-alarm and a
detection-skip probability for each distribution.

The model is organised after the source's functions:

| file | module | models |
|---|---|---|
| `wrappers.dfy` | `Wrappers` | `Option` for the source's `null`; `Result` for the TypeError of reading a point at an index that does not exist |
| `points.dfy` | `Points` | the `Coordinates` record, `findIndex`, ascending-`x` predicates |
| `segments.dfy` | `Segments` | `intersect`, the parametric segment intersection |
| `crossing.dfy` | `CrossSearch` | `crossCoordinates`, the scan for the first sign flip |
| `areas.dfy` | `Areas` | `trapezoidArea`, `areaUnder`, `truncatedAreaUnder` |
| `approximation.dfy` | `Approximation` | `getApproximatedByX`, clamped linear interpolation |
| `binning.dfy` | `Binning` | the sort-and-count part of `calculateDistribution` |
| `probabilities.dfy` | `Probabilities` | the four ratios `recalculate` computes, as a pure function |
| `app.dfy` | `App` | the component state and `recalculate` writing the two `Probability` records |

Numbers are `real`. The loops of the source (`areaUnder`, both branches of
`truncatedAreaUnder`, the scans of `crossCoordinates` and `getApproximatedByX`, the
counting `forEach`) are methods with loops, each proved equal to a specification
function or to a complete description of its result; the properties are lemmas
about those functions. `recalculate` is a method of a class whose two `Probability`
records are objects with mutable fields.

The model keeps the code's conventions, which have these consequences:

- The loop widths are `x_i - x_{i+1}`, so `areaUnder` of an ascending curve with
  non-negative `y` is not positive: `areaUnder([(0,0),(2,4)])` is `-4`
  (`Areas.WholeAreaExample`, `Areas.WholeAreaNonPositive`).
- The boundary trapezoids of `truncatedAreaUnder` use positive widths, so the two
  truncations do not add up to the whole area (`Areas.TruncationsNotAdditive`);
  what does hold is the decomposition into loop sums and the straddling segment
  (`Areas.TruncationDecomposition`).
- The orientation test at line 105 compares two objects, which JavaScript turns
  into the same string `"[object Object]"`; it is always false, so `recalculate`
  always takes the `else` branch: the false-alarm zone is the first curve right
  of the crossing and the detection-skip zone the second curve left of it.
- A crossing with no point strictly to its right (or, for the left truncation, a
  first point strictly to its right) makes the source read `points[-1]` or `points[-2]` and
  throw. The model returns `UndefinedIndex` with that index rather than a separate
  error kind.

## Model

| member | source | states |
|---|---|---|
| `Points.FindIndex` | src/app/app.component.ts:159 | the result is -1 exactly when no point satisfies the predicate, and otherwise the first position that does |
| `Segments.Intersect` | src/app/app.component.ts:174-195 | `None` for a degenerate segment or a zero denominator; a result has both parameters in [0, 1] and lies on both segments at those parameters; `Some` whenever both parameters are in [0, 1] for non-degenerate, non-parallel segments |
| `Segments.SameCrossing` | src/app/app.component.ts:184-192 | for a non-zero denominator the point at `ua` on the first segment equals the point at `ub` on the second |
| `Segments.IntersectionInBoxes` | src/app/app.component.ts:187-194 | a reported crossing lies in the bounding boxes of both segments |
| `Segments.IntersectFindsEveryCrossing` | src/app/app.component.ts:179-194 | any common point of two non-degenerate, non-parallel segments at parameters in [0, 1] is the point `intersect` returns |
| `CrossSearch.CrossCoordinates` | src/app/app.component.ts:154-172 | the loop with `findIndex`, `continue` and early return computes exactly `Crossing`, the scan from index 1 that stops at the first candidate |
| `CrossSearch.CrossingAtFirstCandidate` | src/app/app.component.ts:158-169 | at the first index `i >= 1` whose first `x`-match `j` in `second` has `j >= 1` and where the flip test fires (`firstBigger != (first[i].y > second[j].y)`), the result is `intersect` of `first[i-1..i]` and `second[j-1..j]`, even when that is `None` |
| `CrossSearch.CrossingWithoutCandidate` | src/app/app.component.ts:158-171 | without any such index the result is `None` |
| `CrossSearch.CrossingOnBothCurves` | src/app/app.component.ts:159-168 | a reported crossing is the intersection of two segments ending at the same `x` and lies in both their boxes |
| `CrossSearch.CrossingInCommonRange` | src/app/app.component.ts:154-172 | for ascending curves the crossing's `x` lies within the `x`-range of both curves |
| `CrossSearch.NoSharedXNoCrossing` | src/app/app.component.ts:159-160 | when no point of `first` after the first shares an `x` with `second`, there is no crossing |
| `CrossSearch.CrossingExample` | src/app/app.component.ts:157-168 | the curves (0,1),(1,3),(2,1) and (0,3),(1,1),(2,3) cross first at (0.5, 2) |
| `CrossSearch.DisjointExample` | src/app/app.component.ts:155-171 | curves over [0,1] and [5,6] have no crossing |
| `Areas.TrapezoidArea` | src/app/app.component.ts:223-225 | a zero width gives area 0; for non-negative sides the area has the sign of the width |
| `Areas.AreaUnder` | src/app/app.component.ts:215-221 | the accumulator loop returns the sum of `trapezoidArea(y_i, y_{i+1}, x_i - x_{i+1})` over every segment |
| `Areas.TruncatedAreaUnder` | src/app/app.component.ts:197-213 | returns `TruncatedArea`: the boundary trapezoid plus the loop's segment sum, or the undefined index the source would dereference |
| `Areas.SegmentsSumSplit` | src/app/app.component.ts:202-209 | sums over consecutive segment ranges add up |
| `Areas.WholeAreaOfShortCurve` | src/app/app.component.ts:215-220 | fewer than two points give area 0 |
| `Areas.WholeAreaNonPositive` | src/app/app.component.ts:217-225 | for ascending `x` and non-negative `y` the whole area is at most 0 |
| `Areas.WholeAreaExample` | src/app/app.component.ts:215-225 | the area of (0,0),(2,4) is -4 |
| `Areas.TruncationDefinedness` | src/app/app.component.ts:199-207 | the right truncation is defined exactly when some point lies right of the crossing, the left one when in addition the first point does not; otherwise index -1 or -2 is read |
| `Areas.BoundaryWidths` | src/app/app.component.ts:200-207 | where defined, the left boundary width `cross.x - x_{k-1}` is at least 0 and the right one `x_k - cross.x` is positive, for any point order |
| `Areas.TruncationDecomposition` | src/app/app.component.ts:197-221 | the left loop (segments `0..k-2`), the straddling segment `k-1..k` and the right loop (segments `k..n-2`) add up to the whole area |
| `Areas.TruncationsNotAdditive` | src/app/app.component.ts:197-221 | for (0,1),(2,1) cut at (1,1) both truncations are 1 and the whole area is -2 |
| `Approximation.GetApproximatedByX` | src/app/app.component.ts:139-152 | `(0,0)` for no data, the first point left of the range, the last point when nothing lies right of `x`, and otherwise the query `x` with the interpolation on the segment ending at the first point right of `x`, whose start is at or left of `x` |
| `Approximation.InterpolationBounds` | src/app/app.component.ts:143-148 | on that segment the ratio lies in [0, 1) and the interpolated `y` between the endpoints' `y` |
| `Binning.SortSamples` | src/app/app.component.ts:124 | the result is sorted ascending and a permutation of the samples |
| `Binning.CountSamples` | src/app/app.component.ts:126-135 | the counting loop over a `Map` yields each distinct value in first-insertion order with its number of occurrences |
| `Binning.CalculateDistribution` | src/app/app.component.ts:124-135 | the points have strictly ascending `x`, every `y` is at least 1 and equals the number of occurrences of its `x`, every sample has a point, and the `y` add up to the number of samples |
| `Binning.DistinctKeys` | src/app/app.component.ts:127-134 | the map's keys are distinct and are exactly the sample values |
| `Binning.DistinctOfSorted` | src/app/app.component.ts:124-134 | for sorted samples the keys ascend strictly and end with the last sample |
| `Binning.HistogramOfSorted` | src/app/app.component.ts:124-135 | the points of sorted samples have strictly ascending `x` |
| `Binning.HistogramCounts` | src/app/app.component.ts:128-135 | each count is the value's number of occurrences and at least 1; every value has a point |
| `Binning.HistogramTotal` | src/app/app.component.ts:126-135 | the counts add up to the number of samples |
| `Probabilities.Divide` | src/app/app.component.ts:112-115 | the quotient is finite exactly for a non-zero divisor and then times the divisor gives the dividend; NaN exactly for 0/0, and otherwise an infinity of the dividend's sign |
| `Probabilities.Derive` | src/app/app.component.ts:93-115 | without a crossing all four probabilities are 0 |
| `Probabilities.SharedZones` | src/app/app.component.ts:112-115 | with non-zero whole areas, `first.detectionSkip * firstWhole == second.falseAlarm * secondWhole` and `first.falseAlarm * firstWhole == second.detectionSkip * secondWhole` |
| `Probabilities.Orientation` | src/app/app.component.ts:105-115 | with the line-105 test false, the false-alarm zone is the first curve truncated right of the crossing and the detection-skip zone the second curve truncated left of it |
| `Probabilities.DeriveDefinedForCrossing` | src/app/app.component.ts:92-111 | for ascending curves the derivation from the reported crossing reads no undefined point exactly when the crossing lies strictly left of both curves' last points |
| `Probabilities.DisjointCurvesNoErrors` | src/app/app.component.ts:92-98 | curves over disjoint domains give all four probabilities 0 |
| `App.AppComponent.Recalculate` | src/app/app.component.ts:86-116 | the curves become the binned samples, the outcome is `Derive` at the reported crossing with the line-105 test false, the records receive its four values, and on a thrown read the records keep their old values |

## Left out

- Sampling (`randomNormal`, line 120) and the rounding `parseFloat(toFixed(2))` (line 122) are foreign or float-formatting calls: `Recalculate` takes the rounded samples as parameters.
- Floating point: all numbers are reals, so rounding, exact float equality at line 159 and signed zero are not modelled; the division of line 112-115 is modelled with a finite, infinite or NaN result but without the sign of zero.
- `Binning.SortSamples`: the in-place `Array.prototype.sort` of line 124 is modelled on values, as an insertion sort over a sequence.
- The `Map` of line 126 is modelled as a sequence of keys in insertion order plus a key-to-count map.
- The records' initial contents come from `blankObject`; `src/app/chart/util.ts` is not part of this model, and the constructors start the fields at 0.
- `App.AppComponent.Recalculate` implements only the `else` branch of line 105, since the comparison there is always false; the `then` branch is modelled in `Probabilities.Derive` through its `firstPointGreater` parameter.
- The thrown TypeError ends `Recalculate` with an `UndefinedIndex` outcome; what the surrounding Angular code does with the exception is not modelled.
- The mouse-over handler (lines 57-66) that calls `getApproximatedByX`, the resize polling of `ngOnInit` (69-80), `changeY` (82-84) and `equals` (10-13) are UI glue.
- The chart files (`control.ts`, `chart-options.ts`, `chart.ts`, `point.ts`, `scales.ts`, `axes.ts`) are rendering and observable wiring; the two charts are modelled only as the two point sequences they hold.
