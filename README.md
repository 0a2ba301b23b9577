# Growth-chart scoring engine

A Dafny model of the scoring core of a paediatric growth-chart application
(`src/App.jsx`). The application keeps Japanese LMS growth standards for boys
and girls, height and weight. It scores each measurement of a child as a
standard-deviation (SD) score and keeps the scored measurements in a list.

The model has four modules:

- `Transcendental`: `Math.exp`, `Math.pow` and `Math.log`, passed in as a
  record of function values (`MathFunctions`). The predicate `Lawful` states
  the laws the proofs use: `exp 0 = 1`, `ln 1 = 0`, `1^e = 1`,
  `ln (exp x) = x`, `(b^d)^e = b` when `d * e = 1` and `b > 0`, and the
  monotonicity of `exp` and of `x^e` for positive and for negative `e`.
- `GrowthStandards`: the four LMS tables, copied row by row from the source.
  Each has 40 rows with ages from 0 to 17.5 years. Each table is proved to
  have strictly increasing ages and positive M and S in every row.
- `Scoring`: `calculateSDScore` and `calculateSDValue`.
  - The nearest-row scan is a loop (`NearestRow`).
  - The choice between the nearest row and a blend of the bracketing pair is
    `LookupLms`.
  - Both are proved against the specification functions `NearestIndex` and
    `InterpolateAt`.
  - `ZScore` is the LMS transform, `SDValue` its inverse, and `RoundTenth`
    is `Math.round(z * 10) / 10`.
- `Measurements`:
  - `calculateAge` (`AgeInYears`);
  - `addMeasurement` (`AddMeasurement`), with its validation and its append;
  - `deleteMeasurement` (`DeleteMeasurement`), a splice on a copy of the
    list, written as an array shift;
  - `updateMeasurementsWithSD` (`Rescored`) and the effect that runs it
    when the child's sex changes (`OnGenderChange`).

Numbers are Dafny `real`s. Dates are whole day numbers.

The system's design description and the code differ in a few places. The
model follows the code in each:

- Each table has 40 rows, not 38.
- `Math.round` rounds halves towards +infinity, not away from zero.
  `Scoring.RoundTenthHalvesGoUp` shows this: -0.25 rounds to -0.2.
- The code does not always blend the bracketing pair. When the nearest row
  is the first row, the last row, or has exactly the query age, it uses that
  row unblended.
  - Every age nearer 17.5 than 17 therefore scores against the 17.5 row.
  - `Scoring.AgeSeventeenPointThreeUsesLastRow` and `Scoring.NearLastRow`
    state this.
- There are no errors for non-positive values or for deleting a missing
  record. A value of 0 reaches `Math.log` or `Math.pow` as it is, and a
  delete at a missing index is a no-op of `splice`.
- 2020-01-01 to 2022-01-01 is 731 days. That gives an age just above 2,
  not 1.998 (`Measurements.TwoCalendarYearsAge`).

## Model

| member | source | states |
|---|---|---|
| GrowthStandards.MaleHeightWellFormed | src/App.jsx:8-10 | the boys' height table has 40 rows from age 0 to 17.5, strictly increasing ages, M > 0 and S > 0 in every row |
| GrowthStandards.FemaleHeightWellFormed | src/App.jsx:11-13 | the same for the girls' height table |
| GrowthStandards.MaleWeightWellFormed | src/App.jsx:14-16 | the same for the boys' weight table |
| GrowthStandards.FemaleWeightWellFormed | src/App.jsx:17-19 | the same for the girls' weight table |
| GrowthStandards.StandardsValid | src/App.jsx:5-29 | every table that the (sex, metric) lookup can return is valid: at least two rows, ages strictly increasing between any two rows, positive M and S, ages 0 to 17.5 over 40 rows |
| GrowthStandards.LogBranchRowExists | src/App.jsx:9 | the boys' height row at 17.5 has L = 0, so the logarithmic branch is reachable |
| GrowthStandards.WellFormedIsValid | src/App.jsx:5-29 | the row-by-row check of the tables implies the table invariant used by scoring |
| GrowthStandards.AscendingFromAdjacent | src/App.jsx:5-29 | ages increasing from each row to the next implies ages increasing between any two rows |
| Scoring.NearestAmong | src/App.jsx:42-51 | after scanning the first n rows, the scan's index is no farther from the age than any of them and strictly nearer than every earlier one |
| Scoring.NearestIndex | src/App.jsx:42-51 | the scan's result is the first row nearest the query age |
| Scoring.FirstNearestUnique | src/App.jsx:42-51 | there is only one first nearest row, so the scan's result is determined |
| Scoring.NearestRow | src/App.jsx:42-51 | the loop returns an index in range, no farther than any row and strictly nearer than every earlier row (ties keep the lower index), equal to `NearestIndex` |
| Scoring.LerpBetween | src/App.jsx:62-64 | a linear blend with a fraction in [0, 1] lies between its two end values |
| Scoring.FractionInUnitInterval | src/App.jsx:61 | the blend fraction lies in [0, 1], and strictly inside (0, 1) when the age is strictly between the two rows |
| Scoring.Blend | src/App.jsx:60-64 | the blended L, M and S each lie between the two rows' values |
| Scoring.BracketWellFormed | src/App.jsx:58-69 | when the nearest row is not used as it stands, it is an interior row; the chosen bracket i satisfies age[i] < age < age[i+1]; i + 1 is a row, so the fallback at lines 65-68 never runs; the fraction lies in (0, 1) |
| Scoring.InterpolateAt | src/App.jsx:53-70 | the L, M, S in force at any age have M > 0 and S > 0 |
| Scoring.InterpolateAtCases | src/App.jsx:53-70 | the parameters are either the nearest row unblended or the blend of a pair that strictly brackets the age |
| Scoring.BlendStaysBetweenRows | src/App.jsx:58-64 | a blended L, M or S lies between the values of the two bracketing rows |
| Scoring.ExactRow | src/App.jsx:54-57 | querying a row's own age uses that row unblended |
| Scoring.NearFirstRow | src/App.jsx:42-57 | an age at or before the midpoint of the first two rows, including any age below the table, uses the first row unblended |
| Scoring.NearLastRow | src/App.jsx:42-57 | an age past the midpoint of the last two rows, including any age above the table, uses the last row unblended |
| Scoring.UsesRowDirectlyExactly | src/App.jsx:42-57 | a row is used unblended if and only if the age is at or before the first midpoint, past the last midpoint, or exactly a row's age |
| Scoring.LookupLms | src/App.jsx:53-70 | the lookup method's L, M, S equal the specification `InterpolateAt` |
| Scoring.ZScoreOfMedian | src/App.jsx:72-77 | the median M has z = 0 in both the L = 0 and the L ≠ 0 branch |
| Scoring.SDValueAtZero | src/App.jsx:31-37 | calculateSDValue at sd = 0 is M in both branches |
| Scoring.ZScoreOfSDValue | src/App.jsx:31-37 | the transform of calculateSDValue's value at sd gives back sd, in both branches (in the power branch while 1 + L·S·sd > 0) |
| Scoring.LogBranchInverse | src/App.jsx:72-74 | in the L = 0 branch, log(value / M) / S undoes M·exp(S·sd) |
| Scoring.PowerBranchInverse | src/App.jsx:75-77 | in the L ≠ 0 branch, ((value / M)^L − 1) / (L·S) undoes M·(1 + L·S·sd)^(1/L) |
| Scoring.SDValueIncreasing | src/App.jsx:31-37 | calculateSDValue strictly increases with sd, for positive, zero and negative L |
| Scoring.RoundTenth | src/App.jsx:79 | the rounded score is a whole number of tenths and lies in (z − 0.05, z + 0.05] |
| Scoring.RoundTenthOnGrid | src/App.jsx:79 | a score that is already a whole number of tenths is unchanged by rounding |
| Scoring.RoundTenthHalvesGoUp | src/App.jsx:79 | halves round towards +infinity: −0.25 becomes −0.2 and 0.25 becomes 0.3 |
| Scoring.ParamsAt | src/App.jsx:40-70 | the parameters for any sex, metric and age have M > 0 and S > 0 |
| Scoring.ScoreOfMedianIsZero | src/App.jsx:72-79 | scoring the interpolated median at any age, sex and metric gives exactly 0 |
| Scoring.ScoreOfSDValue | src/App.jsx:31-79 | scoring calculateSDValue's value at n tenths of an SD gives back n tenths |
| Scoring.ScoresClampToTableEnds | src/App.jsx:53-57 | ages ≤ 0 use the first row and ages ≥ 17.5 use the last row, unblended |
| Scoring.AgeSeventeenPointThreeUsesLastRow | src/App.jsx:53-57 | at 17.3 years every table's 17.5 row is used unblended |
| Scoring.BoyAtMedianHeightAtFive | src/App.jsx:9 | a 5-year-old boy of 106.8 cm scores 0 |
| Scoring.CalculateSDScore | src/App.jsx:39-80 | the score is the rounded transform of the value under the parameters for that age, sex and metric |
| Measurements.AgeInYears | src/App.jsx:230 | the age is negative exactly when the date is before the birth date, above 18 exactly when more than 6575 days have passed, and 0 exactly on the birth date |
| Measurements.AgeInYearsMonotone | src/App.jsx:230 | a later measurement date never gives a smaller age |
| Measurements.TwoCalendarYearsAge | src/App.jsx:230 | 731 days give an age between 2 and 2.002 years |
| Measurements.AddMeasurement | src/App.jsx:232-243 | it refuses exactly when the birth date, height or weight is missing, or the age is outside [0, 18]; a refusal leaves the list and the form unchanged; otherwise it appends exactly one entry, keeps the earlier entries and clears the form to `today` |
| Measurements.SpliceStart | src/App.jsx:245 | splice's start: the index itself within [0, n], counted back from the end when negative, clamped to [0, n] |
| Measurements.DeleteMeasurement | src/App.jsx:245 | without confirmation nothing changes; with it, exactly the entry at the splice start is removed; for 0 ≤ i < length, the entries before i and after i keep their order, and one copy of entry i leaves the multiset |
| Measurements.RescoredEntries | src/App.jsx:213-220 | rescoring keeps length, order, dates, ages, heights and weights; returns entries without an age unchanged; scores the others for the given sex at their own age |
| Measurements.RescoredLastWins | src/App.jsx:213-226 | rescoring with one sex and then another equals rescoring with the second |
| Measurements.RescoredIdempotent | src/App.jsx:213-220 | rescoring twice with the same sex equals rescoring once |
| Measurements.RescoredAppend | src/App.jsx:213-220 | rescoring a list with an entry appended equals rescoring the list and then appending the rescored entry |
| Measurements.OnGenderChangeRescores | src/App.jsx:222-226 | the sex-change effect always yields the rescored list; its emptiness guard makes no difference |

## Left out

- Chart rendering (`CombinedGrowthChart`, src/App.jsx:82-206): d3 scales, SVG
  and text. It is user interface over a foreign library.
- The chart's curve sampling (src/App.jsx:124-142, 155-173). It steps the age
  by a floating-point 0.1 and leaves the interpolation to d3's piecewise
  scale.
  - Near the table ends this differs from `calculateSDScore`. At 17.3 the
    curve blends the 17 and 17.5 rows, while the score uses the 17.5 row
    only.
- `downloadChart` (src/App.jsx:247-259): DOM, Blob and URL input/output.
- The React state hooks, the form change handlers, and the `alert` and
  `window.confirm` dialogs.
  - An alert becomes the `AddOutcome` result.
  - The answer to `window.confirm` is the `confirmed` parameter of
    `DeleteMeasurement`.
  - The date of "today" that resets the form is the `today` parameter.
- `parseFloat` and JS `Date` parsing. Inputs arrive as numbers (`None` for an
  empty field) and dates as whole day numbers. The millisecond difference
  divided by a day's milliseconds is taken to be that whole number of days.
- IEEE-754 arithmetic and the real behaviour of `Math.exp`, `Math.pow` and
  `Math.log`. All arithmetic is exact over reals. The three functions are
  parameters constrained only by the laws in `Lawful`.
- Scoring.ZScore: requires M > 0 and S > 0, which the source does not check.
  Every parameter set the lookup produces satisfies it (`Scoring.ParamsAt`).
  Values of 0 or below, where the source's logarithm or power yields NaN or
  infinity, are not given a meaning.
- Scoring.ZScoreOfSDValue: proved only where 1 + L·S·sd > 0. Outside that
  range the source's `Math.pow` of a negative base is NaN.
