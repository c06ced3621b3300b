# Euler's method with decimal rounding, as a Dafny model

`euler.cpp` is a command-line tool for the explicit Euler method for
`y' = f(x, y)`. The formula `f` is text, compiled by tinyexpr. The tool works
in two modes:

- **Table mode** (`eulersMethod`). It rounds x0, y0 and the step to `p`
  decimals. It then walks x up to `end`. At each point it records
  `(x, y, yp, dy)`, where:
  - `yp` is the rounded slope;
  - `dy` is the rounded rise `yp * step`;
  - the next point is `round(x + step)` and `round(y + dy)`.

  The records are printed as a table, a LaTeX table, a CSV file, or CSV line
  segments joining consecutive records (`printCsvSegments`).
- **Field mode** (`printDField`). It checks its arguments, then draws a
  direction field. The y-axis is rescaled linearly so that it is drawn as long
  as the x-axis. A short segment of the local slope is drawn at each sample of
  a grid. Optionally, an Euler curve is drawn over the field. The curve takes
  the same rounded steps as the table mode. It stops as soon as y leaves the
  y range.

The model has four modules:

- `Wrappers` (`wrappers.dfy`): `Option` and `Result`.
- `Rounding` (`rounding.dfy`): `roundToPrecision` over exact reals, and the
  grid of multiples of 10^-p that it rounds onto.
- `EulerTable` (`euler_table.dfy`):
  - the stepping loop, as a method proved against the specification function
    `Trajectory`;
  - the column-width fold;
  - the CSV segment loop.
- `DirectionField` (`dfield.dfy`): the argument checks, the y projection, the
  sampling loops, the curve loop and the whole field mode.

The formula is modelled as `Evaluator(parses, slope)`:

- `parses` says whether tinyexpr accepts the text;
- `slope` is the function it computes.

Every value is an exact real, so rounding happens only where the source
rounds.

Rounded values lie on the grid of multiples of 10^-p, and the grid is closed
under addition. So in both loops x advances exactly: record `i` is at
`round(x0) + i * round(step)`. This gives the exact record count and the
termination measure.

Two loops in the code never check the step they take:

- `eulersMethod` does not check its step. With a rounded step <= 0 and
  round(x0) <= end, its loop never ends. `EulerTable.EulersMethod` therefore
  requires what makes the loop end: a rounded step `> 0`, or a rounded x0
  already past `end`.
- `printDField` checks `curveStep <= 0` before rounding, but its curve loop
  steps by the rounded value. `DirectionField.DirectionFieldMode` keeps the
  source's checks and requires a curve loop that ends. This is recorded under
  Findings.

`printDField` also refuses `xe < x0` but lets `xe == x0` through, although it
refuses `ye == y0`. This too is recorded under Findings.

## Model

| member | source | states |
|---|---|---|
| Rounding.RoundHalfAway | euler.cpp:68 | `std::round`: the result is the integer within half a unit of t. A half goes away from zero: up for t >= 0, down for t < 0. |
| Rounding.RoundIsScaledRound | euler.cpp:66-69 | Rounding digit by digit equals the source's formula round(v * 10^p) / 10^p. |
| Rounding.RoundIsOnGrid | euler.cpp:66-69 | Every rounded value is a whole multiple of 10^-p. |
| Rounding.RoundOnGrid | euler.cpp:66-69 | A value already a multiple of 10^-p is left unchanged. |
| Rounding.RoundIdempotent | euler.cpp:66-69 | round(round(v, p), p) == round(v, p). |
| Rounding.RoundError | euler.cpp:66-69 | The result is within 0.5 * 10^-p of v. |
| Rounding.RoundToInteger | euler.cpp:66-69 | With p = 0 the result is the nearest integer, halves away from zero, and it is an integer. |
| Rounding.GridSum | euler.cpp:89-90 | The sum of two multiples of 10^-p is one. |
| Rounding.RoundSum | euler.cpp:89-90 | Rounding the sum of two grid values changes nothing, so x advances by exactly one step. |
| EulerTable.Trajectory | euler.cpp:85-91 | The first n iterations of the stepping loop produce exactly n records. |
| EulerTable.StepCountBound | euler.cpp:85 | The k-th point start + k * step is at or below `end` exactly when k < StepCount. |
| EulerTable.StepCountShift | euler.cpp:85-89 | One step forward leaves exactly one point fewer before `end`. This is the loop's termination measure. |
| EulerTable.Advance | euler.cpp:89 | From a grid x with a positive grid step, round(x + step) == x + step, the result is on the grid, and one point fewer is left. |
| EulerTable.TrajectoryCons | euler.cpp:85-91 | A run of n > 0 iterations is the record at the current point followed by the run from the next point. |
| EulerTable.EulersMethod | euler.cpp:74-91 | A formula tinyexpr rejects fails with an expression error before any record. Otherwise the result is the table: the trajectory from (round(x0), round(y0)) with step round(step), as long as x <= end. |
| EulerTable.TrajectoryLinks | euler.cpp:86-90 | Each record holds yp = round(f(x, y)) and dy = round(yp * step). The next record is at x' = round(x + step) and y' = round(y + dy). |
| EulerTable.TrajectoryX | euler.cpp:89 | From a grid start with a grid step, record i is exactly at x + i * step. |
| EulerTable.RecordOnGrid | euler.cpp:86-87 | The slope and the rise of every record are multiples of 10^-p. |
| EulerTable.RiseOnGrid | euler.cpp:87 | The rounded rise is a multiple of 10^-p. |
| EulerTable.TrajectoryOnGrid | euler.cpp:85-91 | From a grid start, all four numbers of every record are multiples of 10^-p, so they print exactly with p decimals. |
| EulerTable.TableStart | euler.cpp:74-85 | The table is empty exactly when round(x0) > end. Otherwise its first record is at (round(x0), round(y0)) and it has floor((end - round(x0)) / round(step)) + 1 records. |
| EulerTable.TableWithinEnd | euler.cpp:85-91 | With a positive rounded step h, record i has x = round(x0) + i * h <= end, and the point after the last record is past `end`. |
| EulerTable.TableIncreasing | euler.cpp:85-91 | With a positive rounded step, the recorded x values strictly increase. |
| EulerTable.TableOnGrid | euler.cpp:74-91 | Every number in the table is a multiple of 10^-p. |
| EulerTable.CsvSegments | euler.cpp:126-131 | n records give max(n - 1, 0) segments, and segment i joins record i to record i + 1. |
| EulerTable.TableSegmentsFollowSteps | euler.cpp:126-131 | On a table, segment i runs exactly one rounded step to the right and ends at round(y_i + dy_i). |
| EulerTable.NumDigits | euler.cpp:47-50 | The number of decimal digits of n: 10^(d-1) <= n < 10^d, or 1 digit for n < 10. |
| EulerTable.WidestStep | euler.cpp:96-99 | Taking the larger of the running maximum and the next cell's width gives the maximum over one more record. |
| EulerTable.MaxWidths | euler.cpp:92-101 | Each column width is the largest cell width of that column over all records, and 0 when there are none. The width of a cell (`EulerTable.CellWidth`, the text of euler.cpp:45-55) counts a leading space, an optional minus sign, the integer digits, a point and p decimals when p > 0, and a trailing space. |
| DirectionField.ValidateAsWritten | euler.cpp:193-204 | The source's checks, in its order. They accept exactly positive grid steps, a positive curve step when a curve is drawn, x0 <= xe and y0 < ye. A non-positive grid step is the first error reported. |
| DirectionField.Validate | euler.cpp:193-204 | The corrected checks. They accept exactly positive grid steps, a rounded curve step > 0 when a curve is drawn, x0 < xe and y0 < ye. |
| DirectionField.RoundNonPositive | euler.cpp:66-69 | A value <= 0 rounds to a value <= 0, so testing the rounded curve step also catches every step the source refuses. |
| DirectionField.ValidateStricter | euler.cpp:193-204 | The corrected checks accept exactly what the source's accept, except a zero width and a curve step that rounds to 0. |
| DirectionField.YScale | euler.cpp:210 | yScale = xrange / yrange is positive when the width is positive, and 0 when the width is 0. |
| DirectionField.YSampleStep | euler.cpp:212 | ySampleStep is positive when ystep is. |
| DirectionField.MapYEnds | euler.cpp:208-213 | mapY(y0) == y0 and mapY(ye) == yTop. The y-axis is drawn as long as the x-axis. |
| DirectionField.MapYIncreasing | euler.cpp:213 | With a positive width, mapY is strictly increasing: y1 < y2 if and only if mapY(y1) < mapY(y2). |
| DirectionField.SampleSpacing | euler.cpp:212-213 | ySampleStep * yScale == ystep: consecutive y samples are drawn exactly ystep apart. |
| DirectionField.FieldSegmentShape | euler.cpp:231-236 | Each field segment is centred on (x, mapY(y)) and runs dx to the right. Its rise is m * yScale times its run. |
| DirectionField.SegmentLength | euler.cpp:207-236 | With the run the source computes (dx^2 * (1 + ms^2) = 4), every segment has length segLen = 2. |
| DirectionField.FieldColumnAt | euler.cpp:227-240 | Segment j of a column is the segment of sample row j. |
| DirectionField.FieldLength | euler.cpp:226-241 | m columns of r samples give m * r segments. |
| DirectionField.FieldLayout | euler.cpp:226-241 | The segments are in column-major order: the segment of column i, row j is number i * r + j. |
| DirectionField.SamplesCoverDomain | euler.cpp:226-227 | Column i is sampled exactly when x0 + i * xstep lies in [x0, xe + 1e-12]. Row j is sampled exactly when y0 + j * ySampleStep lies in [y0, ye + 1e-12]. |
| DirectionField.SampleColumn | euler.cpp:227-240 | The inner loop appends one segment per y sample of the column, bottom to top. |
| DirectionField.SampleField | euler.cpp:226-241 | The nested loops draw the whole field, columns left to right, with Columns * Rows segments. |
| DirectionField.CurvePoints | euler.cpp:249-262 | n iterations of the curve loop emit at most n points. |
| DirectionField.InBandPrefix | euler.cpp:250-252 | The curve keeps the longest prefix of records whose y is within the band. The first record it drops has its y outside the band. |
| DirectionField.CurveIsCutTrajectory | euler.cpp:249-262 | The curve is the table stepper's trajectory from the same start, cut at the first record whose y is outside [y0 - 1e-12, ye + 1e-12], then projected. |
| DirectionField.CurveBounds | euler.cpp:249-262 | From a grid start with a positive grid step, every emitted point has start <= x <= xe + 1e-12. Its drawn y lies between mapY(y0 - 1e-12) and mapY(ye + 1e-12). |
| DirectionField.CurveOpens | euler.cpp:249-256 | The `plot coordinates` header is written exactly when round(curveX0) <= xe + 1e-12 and round(curveY0) is within the band. |
| DirectionField.CurveWithinField | euler.cpp:243-262 | For x0 < xe, y0 < ye and a curve loop that ends, every curve point lies between the rounded start and xe + 1e-12 in x, and within the projected band in y. |
| DirectionField.CurveOverlay | euler.cpp:243-265 | For a curve loop that ends (the rounded start past xe + 1e-12, or its y outside the band, or a rounded step > 0), the loop emits exactly the curve. Its header flag (not `first`) is set exactly when at least one point was emitted. |
| DirectionField.DirectionFieldMode | euler.cpp:189-265 | With the source's own checks: a request they refuse fails with the first failing check. A formula tinyexpr rejects fails with an expression error. Otherwise the result is the axes, the whole field and, when asked for, the curve. |
| DirectionField.CorrectedFieldMode | euler.cpp:189-265 | With the corrected checks, the mode has no precondition: every request they accept is drawn, and the others fail as above. |
| DirectionField.ZeroWidthAccepted | euler.cpp:199-204 | A domain with xe == x0 passes the source's checks, and the corrected checks refuse it. |
| DirectionField.ZeroWidthCollapses | euler.cpp:208-213 | Over a zero-width domain yScale == 0, so ystep / yScale divides by zero. mapY sends every y to y0, and the y-axis has length 0. |
| DirectionField.StalledTrajectory | euler.cpp:246-262 | With step 0, every record of a trajectory from a grid point stays at that point. |
| DirectionField.StalledCurve | euler.cpp:249-262 | With step 0, from any start on the grid whose y is within the band and for any number n of iterations, the curve loop emits n points. |
| DirectionField.CurveStepRoundsToZero | euler.cpp:196-262 | curveStep = 0.4 at p = 0 passes the source's check, but round(0.4) = 0. The curve loop then emits a point on every one of any number n of iterations. |

## Left out

- The tinyexpr parser and evaluator are not part of this model. A formula is `Evaluator(parses, slope)`. `slope` is total, so a formula that parses but fails while evaluating is not modelled.
- Table mode parses the formula once (euler.cpp:80-84). Field mode parses it again at every sample (`slope`, euler.cpp:179-187). Both are modelled as one `parses` flag checked before the first sample. The first field sample always exists, so the outcome is the same.
- IEEE-754 doubles, `std::pow` and binary rounding error are not modelled: all values are exact reals. The 1e-12 tolerances are kept as the constant `Tolerance`, but the drift they guard against does not exist in the model.
- `std::sqrt` is not modelled. The horizontal run of a field segment is a parameter `runOf`. `SegmentLength` states what the source's run guarantees.
- Text rendering is not modelled: `stepValues` strings, `printTable`, `printLatex`, `printCsv`, the TikZ text, the `std::format` precision of the drawn field, and the `std::stod` re-reading of the table strings in `printCsvSegments`. The model works on the numbers the strings print. `TableOnGrid` shows these numbers print exactly with p decimals.
- The model does not check that the cell widths in `EulerTable.CellWidth` match the C++ stream formatting character for character. A cell is a space, an optional minus sign, the integer digits, a point and p decimals when p > 0, and a space.
- EulerTable.CellWidth: does not model negative zero. `std::round` of a value in (-0.5, 0) scaled by 10^p gives -0.0, which prints with a minus sign (`-0.00`), one character wider than the model's width for 0.
- `main` (argument parsing, mode dispatch, the default curve start and step) is not modelled, and neither is `test.cpp`.
- Negative precision is not modelled: the precision is a `nat`.
- EulerTable.EulersMethod: requires a rounded step > 0 whenever round(x0) <= end. The source does not check this, and otherwise its loop never ends.
- DirectionField.CurveOverlay: requires a curve loop that ends: a rounded start past xe + 1e-12, a rounded start y outside the band, or a rounded curve step > 0. Otherwise the source's loop never ends (see Findings).
- DirectionField.DirectionFieldMode: requires, for a request the source's checks accept and whose formula parses, x0 < xe and, when a curve is drawn, a curve loop that ends. With xe == x0 the source divides by a zero yScale, which gives an IEEE infinity the model does not have (see Findings). `DirectionField.CorrectedFieldMode` covers every request.
- The model does not write the `\draw[red, thick]` prefix, which the source writes even when no point follows.

## Findings

| source | as written | input that shows it | evidently intended | confidence | as-written member | corrected member |
|---|---|---|---|---|---|---|
| euler.cpp:199-204, 210-213 | Refuses `xe < x0` but accepts `xe == x0`, although it refuses `ye == y0`. | x0 = xe = 0, y0 = 0, ye = 1, steps 1. yScale = 0, so `ystep / yScale` divides by zero. mapY sends every y to y0, and the y-axis has length 0. | Refuse a zero width as a zero height is refused. | high (not executed) | DirectionField.ZeroWidthAccepted, DirectionField.ZeroWidthCollapses | DirectionField.Validate, DirectionField.CorrectedFieldMode |
| euler.cpp:196, 246-249 | Checks `curveStep <= 0` before rounding, but the curve loop steps by `roundToPrecision(curveStep, precision)`. | curveStep = 0.4 at precision 0 from an in-band grid start: the step rounds to 0, x never advances, and the loop never ends. | Check the rounded curve step. | high (not executed) | DirectionField.CurveStepRoundsToZero, DirectionField.StalledCurve | DirectionField.Validate, DirectionField.CorrectedFieldMode |
