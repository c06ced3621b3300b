/**
 * Direction-field mode of the Euler tool (`printDField`, euler.cpp:188-272):
 * argument checks, the linear projection of the y-axis that gives both axes
 * the same drawn length, the grid of slope segments, and the optional Euler
 * curve drawn over the field.
 */
module DirectionField {
  import opened Wrappers
  import opened Rounding
  import opened EulerTable

  /** The slack the source allows on the right and upper edges (1e-12). */
  const Tolerance: real := 0.000000000001

  /** The rectangle [x0, xe] x [y0, ye] the field covers. */
  datatype Domain = Domain(x0: real, y0: real, xe: real, ye: real)

  /** The arguments of `printDField`. */
  datatype Request = Request(
    dom: Domain, xstep: real, ystep: real, p: nat,
    plotCurve: bool, curveStep: real, curveX0: real, curveY0: real)

  /** Why `printDField` refuses its arguments, or why evaluation aborts. */
  datatype FieldError =
    | NonPositiveGridStep
    | NonPositiveCurveStep
    | DecreasingRange
    | ZeroHeight
    | ZeroWidth
    | ExpressionError

  /** A point in drawing space. */
  datatype Point = Point(x: real, y: real)

  /** What the field mode draws: two axes, the slope segments and the curve. */
  datatype Picture = Picture(xAxis: Segment, yAxis: Segment, field: seq<Segment>, curve: seq<Point>)

  // ---------------------------------------------------------------------------
  // Argument checks (euler.cpp:193-204)

  /** The checks exactly as the source makes them, in its order. */
  function ValidateAsWritten(q: Request): (r: Option<FieldError>)
    ensures r == None <==>
      q.xstep > 0.0 && q.ystep > 0.0 && (q.plotCurve ==> q.curveStep > 0.0) &&
      q.dom.x0 <= q.dom.xe && q.dom.y0 < q.dom.ye
    ensures r == Some(NonPositiveGridStep) <==> q.xstep <= 0.0 || q.ystep <= 0.0
  {
    if q.xstep <= 0.0 || q.ystep <= 0.0 then Some(NonPositiveGridStep)
    else if q.plotCurve && q.curveStep <= 0.0 then Some(NonPositiveCurveStep)
    else if q.dom.xe < q.dom.x0 || q.dom.ye < q.dom.y0 then Some(DecreasingRange)
    else if q.dom.ye == q.dom.y0 then Some(ZeroHeight)
    else None
  }

  /**
   * The checks the rest of the model relies on: the source's, with a zero
   * width refused like a zero height, and the curve step tested after the
   * rounding that the curve loop applies to it.
   */
  function Validate(q: Request): (r: Option<FieldError>)
    ensures r == None <==>
      q.xstep > 0.0 && q.ystep > 0.0 && (q.plotCurve ==> Round(q.curveStep, q.p) > 0.0) &&
      q.dom.x0 < q.dom.xe && q.dom.y0 < q.dom.ye
    ensures r == Some(NonPositiveGridStep) <==> q.xstep <= 0.0 || q.ystep <= 0.0
  {
    if q.xstep <= 0.0 || q.ystep <= 0.0 then Some(NonPositiveGridStep)
    else if q.plotCurve && Round(q.curveStep, q.p) <= 0.0 then Some(NonPositiveCurveStep)
    else if q.dom.xe < q.dom.x0 || q.dom.ye < q.dom.y0 then Some(DecreasingRange)
    else if q.dom.ye == q.dom.y0 then Some(ZeroHeight)
    else if q.dom.xe == q.dom.x0 then Some(ZeroWidth)
    else None
  }

  /** A non-positive value rounds to a non-positive value. */
  lemma RoundNonPositive(v: real, p: nat)
    requires v <= 0.0
    ensures Round(v, p) <= 0.0
  {
    RoundIsScaledRound(v, p);
    assert v * Scale(p) <= 0.0;
  }

  /**
   * The corrected checks refuse everything the source refuses, and accept
   * exactly what the source accepts apart from a zero width and a curve
   * step that rounds to zero.
   */
  lemma ValidateStricter(q: Request)
    ensures Validate(q) == None <==>
      ValidateAsWritten(q) == None && q.dom.x0 != q.dom.xe &&
      (q.plotCurve ==> Round(q.curveStep, q.p) > 0.0)
  {
    if q.plotCurve && q.curveStep <= 0.0 {
      RoundNonPositive(q.curveStep, q.p);
    }
  }

  // ---------------------------------------------------------------------------
  // Projection of the y-axis (euler.cpp:207-213)

  /** `yScale`: drawing units per unit of y. */
  function YScale(d: Domain): (s: real)
    requires d.y0 < d.ye
    ensures d.x0 < d.xe ==> s > 0.0
    ensures d.x0 == d.xe ==> s == 0.0
  {
    (d.xe - d.x0) / (d.ye - d.y0)
  }

  /** `yTop`: where the drawn y-axis ends. */
  function YTop(d: Domain): real
  {
    d.y0 + (d.xe - d.x0)
  }

  /** `mapY`: y in drawing space. */
  function MapY(d: Domain, y: real): real
    requires d.y0 < d.ye
  {
    d.y0 + (y - d.y0) * YScale(d)
  }

  /** `ySampleStep`: the y spacing of the field samples. */
  function YSampleStep(d: Domain, ystep: real): (ys: real)
    requires d.x0 < d.xe && d.y0 < d.ye
    ensures ystep > 0.0 ==> ys > 0.0
  {
    ystep / YScale(d)
  }

  /**
   * The projection fixes the bottom edge, sends the top edge to `yTop`, and
   * draws the y-axis exactly as long as the x-axis.
   */
  lemma MapYEnds(d: Domain)
    requires d.y0 < d.ye
    ensures MapY(d, d.y0) == d.y0
    ensures MapY(d, d.ye) == YTop(d)
    ensures YTop(d) - d.y0 == d.xe - d.x0
  {
    assert (d.ye - d.y0) * YScale(d) == d.xe - d.x0;
  }

  /** With a positive width the projection is strictly increasing, both ways. */
  lemma MapYIncreasing(d: Domain, y1: real, y2: real)
    requires d.x0 < d.xe && d.y0 < d.ye
    ensures y1 < y2 <==> MapY(d, y1) < MapY(d, y2)
  {
    AffineIncreasing(d.y0, YScale(d), y1, y2);
  }

  lemma AffineIncreasing(c: real, s: real, y1: real, y2: real)
    requires s > 0.0
    ensures y1 < y2 <==> c + (y1 - c) * s < c + (y2 - c) * s
  {
    assert (c + (y2 - c) * s) - (c + (y1 - c) * s) == (y2 - y1) * s;
    if y1 < y2 {
      assert (y2 - y1) * s > 0.0;
    } else {
      assert (y1 - y2) * s >= 0.0;
    }
  }

  /**
   * One sample step in y is one `ystep` in drawing space: the requested
   * spacing is what is drawn.
   */
  lemma SampleSpacing(d: Domain, ystep: real, y: real)
    requires d.x0 < d.xe && d.y0 < d.ye
    ensures YSampleStep(d, ystep) * YScale(d) == ystep
    ensures MapY(d, y + YSampleStep(d, ystep)) - MapY(d, y) == ystep
  {
    var s := YScale(d);
    assert YSampleStep(d, ystep) * s == ystep;
    assert MapY(d, y + YSampleStep(d, ystep)) - MapY(d, y) == YSampleStep(d, ystep) * s;
  }

  // ---------------------------------------------------------------------------
  // Slope segments (euler.cpp:226-241)

  /**
   * The horizontal extent of a segment of drawn slope ms. The source uses
   * segLen / sqrt(1 + ms * ms) with segLen = 2; see `SegmentLength`.
   */
  function Run(runOf: real -> real, ms: real): real
  {
    runOf(ms)
  }

  /** The drawn slope of a field slope m. */
  function DrawnSlope(d: Domain, m: real): real
    requires d.y0 < d.ye
  {
    m * YScale(d)
  }

  /** The segment drawn for slope m at the sample (x, y), with run dx. */
  function FieldSegment(d: Domain, x: real, y: real, m: real, dx: real): Segment
    requires d.y0 < d.ye
  {
    Segment(x - dx / 2.0, MapY(d, y) - DrawnSlope(d, m) * dx / 2.0,
            x + dx / 2.0, MapY(d, y) + DrawnSlope(d, m) * dx / 2.0)
  }

  /**
   * A field segment is centred on the projected sample, runs dx to the
   * right, and rises m * yScale per unit of run: the slope of the field,
   * re-expressed in drawing space.
   */
  lemma FieldSegmentShape(d: Domain, x: real, y: real, m: real, dx: real)
    requires d.y0 < d.ye
    ensures var s := FieldSegment(d, x, y, m, dx);
      (s.x0 + s.x1) / 2.0 == x && (s.y0 + s.y1) / 2.0 == MapY(d, y) &&
      s.x1 - s.x0 == dx && s.y1 - s.y0 == m * YScale(d) * (s.x1 - s.x0)
  {
  }

  /** With the source's run, dx^2 * (1 + ms^2) = segLen^2, every segment has length 2. */
  lemma SegmentLength(d: Domain, x: real, y: real, m: real, dx: real)
    requires d.y0 < d.ye
    requires dx * dx * (1.0 + DrawnSlope(d, m) * DrawnSlope(d, m)) == 4.0
    ensures var s := FieldSegment(d, x, y, m, dx);
      (s.x1 - s.x0) * (s.x1 - s.x0) + (s.y1 - s.y0) * (s.y1 - s.y0) == 4.0
  {
    var ms := DrawnSlope(d, m);
    var s := FieldSegment(d, x, y, m, dx);
    assert s.x1 - s.x0 == dx;
    assert s.y1 - s.y0 == ms * dx;
    assert dx * dx + (ms * dx) * (ms * dx) == dx * dx * (1.0 + ms * ms);
  }

  /** The x of sample column i: x0 + i * xstep. */
  function SampleX(d: Domain, xstep: real, i: nat): real
  {
    d.x0 + i as real * xstep
  }

  /** The y of sample row j: y0 + j * ySampleStep. */
  function SampleY(d: Domain, ystep: real, j: nat): real
    requires d.x0 < d.xe && d.y0 < d.ye
  {
    d.y0 + j as real * YSampleStep(d, ystep)
  }

  /** Number of sample columns: the x with x <= xe + 1e-12. */
  function Columns(d: Domain, xstep: real): nat
    requires xstep > 0.0
  {
    StepCount(d.x0, d.xe + Tolerance, xstep)
  }

  /** Number of sample rows: the y with y <= ye + 1e-12. */
  function Rows(d: Domain, ystep: real): nat
    requires d.x0 < d.xe && d.y0 < d.ye && ystep > 0.0
  {
    StepCount(d.y0, d.ye + Tolerance, YSampleStep(d, ystep))
  }

  /** The segment at sample column i, row j. */
  function FieldAt(f: (real, real) -> real, runOf: real -> real, d: Domain, xstep: real, ystep: real, i: nat, j: nat): Segment
    requires d.x0 < d.xe && d.y0 < d.ye
  {
    FieldSegment(d, SampleX(d, xstep, i), SampleY(d, ystep, j),
                 Slope(f, SampleX(d, xstep, i), SampleY(d, ystep, j)),
                 Run(runOf, DrawnSlope(d, Slope(f, SampleX(d, xstep, i), SampleY(d, ystep, j)))))
  }

  /** The first n segments of sample column i, bottom to top. */
  function FieldColumn(f: (real, real) -> real, runOf: real -> real, d: Domain, xstep: real, ystep: real, i: nat, n: nat)
    : (segs: seq<Segment>)
    requires d.x0 < d.xe && d.y0 < d.ye
    ensures |segs| == n
    decreases n
  {
    if n == 0 then [] else FieldColumn(f, runOf, d, xstep, ystep, i, n - 1) + [FieldAt(f, runOf, d, xstep, ystep, i, n - 1)]
  }

  /** The segments of the first m whole columns of r samples each, left to right. */
  function Field(f: (real, real) -> real, runOf: real -> real, d: Domain, xstep: real, ystep: real, r: nat, m: nat)
    : (segs: seq<Segment>)
    requires d.x0 < d.xe && d.y0 < d.ye
    decreases m
  {
    if m == 0 then []
    else Field(f, runOf, d, xstep, ystep, r, m - 1) + FieldColumn(f, runOf, d, xstep, ystep, m - 1, r)
  }

  lemma {:induction false} FieldColumnAt(f: (real, real) -> real, runOf: real -> real, d: Domain, xstep: real, ystep: real, i: nat, n: nat, j: nat)
    requires d.x0 < d.xe && d.y0 < d.ye && j < n
    ensures FieldColumn(f, runOf, d, xstep, ystep, i, n)[j] == FieldAt(f, runOf, d, xstep, ystep, i, j)
    decreases n
  {
    if j < n - 1 {
      FieldColumnAt(f, runOf, d, xstep, ystep, i, n - 1, j);
    }
  }

  lemma RowMajor(i: nat, j: nat, r: nat, m: nat)
    requires i < m && j < r
    ensures i * r + j < m * r
    ensures i < m - 1 ==> i * r + j < (m - 1) * r
    ensures (m - 1) * r + r == m * r
  {
    assert (i + 1) * r <= m * r;
    if i < m - 1 {
      assert (i + 1) * r <= (m - 1) * r;
    }
  }

  lemma {:induction false} FieldLength(f: (real, real) -> real, runOf: real -> real, d: Domain, xstep: real, ystep: real,
                                       r: nat, m: nat)
    requires d.x0 < d.xe && d.y0 < d.ye
    ensures |Field(f, runOf, d, xstep, ystep, r, m)| == m * r
    decreases m
  {
    if m > 0 {
      FieldLength(f, runOf, d, xstep, ystep, r, m - 1);
      assert (m - 1) * r + r == m * r;
    }
  }

  /**
   * The field holds one segment per sample, column by column: the segment of
   * column i, row j is number i * r + j.
   */
  lemma {:induction false} FieldLayout(f: (real, real) -> real, runOf: real -> real, d: Domain, xstep: real, ystep: real,
                                       r: nat, m: nat, i: nat, j: nat)
    requires d.x0 < d.xe && d.y0 < d.ye
    requires i < m && j < r
    ensures |Field(f, runOf, d, xstep, ystep, r, m)| == m * r
    ensures i * r + j < m * r
    ensures Field(f, runOf, d, xstep, ystep, r, m)[i * r + j] == FieldAt(f, runOf, d, xstep, ystep, i, j)
    decreases m
  {
    FieldLength(f, runOf, d, xstep, ystep, r, m);
    FieldLength(f, runOf, d, xstep, ystep, r, m - 1);
    RowMajor(i, j, r, m);
    var prev := Field(f, runOf, d, xstep, ystep, r, m - 1);
    var col := FieldColumn(f, runOf, d, xstep, ystep, m - 1, r);
    assert Field(f, runOf, d, xstep, ystep, r, m) == prev + col;
    if i < m - 1 {
      FieldLayout(f, runOf, d, xstep, ystep, r, m - 1, i, j);
      assert (prev + col)[i * r + j] == prev[i * r + j];
    } else {
      assert i * r + j - |prev| == j;
      FieldColumnAt(f, runOf, d, xstep, ystep, i, r, j);
    }
  }

  /**
   * The samples cover the domain: column i lies in [x0, xe + 1e-12] and row j
   * in [y0, ye + 1e-12] exactly when they are sampled, and the next column
   * and row lie beyond.
   */
  lemma SamplesCoverDomain(d: Domain, xstep: real, ystep: real, i: nat, j: nat)
    requires d.x0 < d.xe && d.y0 < d.ye && xstep > 0.0 && ystep > 0.0
    ensures i < Columns(d, xstep) <==> d.x0 <= SampleX(d, xstep, i) <= d.xe + Tolerance
    ensures j < Rows(d, ystep) <==> d.y0 <= SampleY(d, ystep, j) <= d.ye + Tolerance
  {
    StepCountBound(d.x0, d.xe + Tolerance, xstep, i);
    StepCountBound(d.y0, d.ye + Tolerance, YSampleStep(d, ystep), j);
    assert i as real * xstep >= 0.0;
    assert j as real * YSampleStep(d, ystep) >= 0.0;
  }

  lemma ColumnBound(d: Domain, xstep: real, i: nat)
    requires xstep > 0.0
    ensures SampleX(d, xstep, i) <= d.xe + Tolerance <==> i < Columns(d, xstep)
  {
    StepCountBound(d.x0, d.xe + Tolerance, xstep, i);
  }

  lemma RowBound(d: Domain, ystep: real, j: nat)
    requires d.x0 < d.xe && d.y0 < d.ye && ystep > 0.0
    ensures SampleY(d, ystep, j) <= d.ye + Tolerance <==> j < Rows(d, ystep)
  {
    StepCountBound(d.y0, d.ye + Tolerance, YSampleStep(d, ystep), j);
  }

  lemma NextColumn(d: Domain, xstep: real, i: nat)
    ensures SampleX(d, xstep, i + 1) == SampleX(d, xstep, i) + xstep
  {
  }

  lemma NextRow(d: Domain, ystep: real, j: nat)
    requires d.x0 < d.xe && d.y0 < d.ye
    ensures SampleY(d, ystep, j + 1) == SampleY(d, ystep, j) + YSampleStep(d, ystep)
  {
  }

  /**
   * The inner sampling loop, for the column at x: y walks from y0 by
   * `ySampleStep` while within the tolerance of ye, and each sample appends
   * the segment of the formula's slope there.
   */
  method SampleColumn(f: (real, real) -> real, runOf: real -> real, d: Domain, xstep: real, ystep: real,
                      ghost i: nat, x: real, segs0: seq<Segment>)
    returns (segs: seq<Segment>)
    requires d.x0 < d.xe && d.y0 < d.ye && ystep > 0.0 && x == SampleX(d, xstep, i)
    ensures segs == segs0 + FieldColumn(f, runOf, d, xstep, ystep, i, Rows(d, ystep))
  {
    segs := segs0;
    var y := d.y0;
    ghost var j: nat := 0;
    while y <= d.ye + Tolerance
      invariant y == SampleY(d, ystep, j) && j <= Rows(d, ystep)
      invariant segs == segs0 + FieldColumn(f, runOf, d, xstep, ystep, i, j)
      decreases Rows(d, ystep) - j
    {
      RowBound(d, ystep, j);
      var m := Slope(f, x, y);
      var ms := DrawnSlope(d, m);
      var dx := Run(runOf, ms);
      segs := segs + [FieldSegment(d, x, y, m, dx)];
      NextRow(d, ystep, j);
      y := y + YSampleStep(d, ystep);
      j := j + 1;
    }
    RowBound(d, ystep, j);
  }

  /**
   * The outer sampling loop: x walks from x0 by `xstep` while within the
   * tolerance of xe, and each x contributes one column of samples.
   */
  method SampleField(f: (real, real) -> real, runOf: real -> real, d: Domain, xstep: real, ystep: real)
    returns (segs: seq<Segment>)
    requires d.x0 < d.xe && d.y0 < d.ye && xstep > 0.0 && ystep > 0.0
    ensures segs == Field(f, runOf, d, xstep, ystep, Rows(d, ystep), Columns(d, xstep))
  {
    segs := [];
    var x := d.x0;
    ghost var i: nat := 0;
    while x <= d.xe + Tolerance
      invariant x == SampleX(d, xstep, i) && i <= Columns(d, xstep)
      invariant segs == Field(f, runOf, d, xstep, ystep, Rows(d, ystep), i)
      decreases Columns(d, xstep) - i
    {
      ColumnBound(d, xstep, i);
      segs := SampleColumn(f, runOf, d, xstep, ystep, i, x, segs);
      NextColumn(d, xstep, i);
      x := x + xstep;
      i := i + 1;
    }
    ColumnBound(d, xstep, i);
  }

  // ---------------------------------------------------------------------------
  // Curve overlay (euler.cpp:243-265)

  /** `y` is inside [y0, ye] up to the tolerance; outside it the curve stops. */
  predicate InBand(d: Domain, y: real)
  {
    !(y < d.y0 - Tolerance || y > d.ye + Tolerance)
  }

  /**
   * The points the curve loop emits from (x, y) in at most n iterations:
   * it stops at the first y outside the band, and otherwise emits the
   * projected point and takes one rounded Euler step.
   */
  function CurvePoints(f: (real, real) -> real, d: Domain, x: real, y: real, step: real, p: nat, n: nat)
    : (pts: seq<Point>)
    requires d.y0 < d.ye
    ensures |pts| <= n
    decreases n
  {
    if n == 0 || !InBand(d, y) then []
    else [Point(x, MapY(d, y))] + CurvePoints(f, d, Round(x + step, p), Round(y + Record(f, x, y, step, p).dy, p), step, p, n - 1)
  }

  /** The longest prefix of `rs` whose every y is in the band. */
  function InBandPrefix(d: Domain, rs: seq<StepRecord>): (r: seq<StepRecord>)
    ensures |r| <= |rs| && r == rs[..|r|]
    ensures forall k | 0 <= k < |r| :: InBand(d, r[k].y)
    ensures |r| < |rs| ==> !InBand(d, rs[|r|].y)
  {
    if rs == [] || !InBand(d, rs[0].y) then []
    else
      var rest := InBandPrefix(d, rs[1..]);
      assert rs[..1 + |rest|] == [rs[0]] + rest;
      [rs[0]] + rest
  }

  /** The records drawn as points, y projected. */
  function Project(d: Domain, rs: seq<StepRecord>): (pts: seq<Point>)
    requires d.y0 < d.ye
    ensures |pts| == |rs|
    ensures forall k | 0 <= k < |rs| :: pts[k] == Point(rs[k].x, MapY(d, rs[k].y))
  {
    seq(|rs|, k requires 0 <= k < |rs| => Point(rs[k].x, MapY(d, rs[k].y)))
  }

  /**
   * The curve is the table stepper's trajectory from the same start, cut
   * at the first record whose y leaves the band, and projected: the two
   * loops share their per-step arithmetic.
   */
  lemma {:induction false} CurveIsCutTrajectory(f: (real, real) -> real, d: Domain, x: real, y: real, step: real, p: nat, n: nat)
    requires d.y0 < d.ye
    ensures CurvePoints(f, d, x, y, step, p, n) == Project(d, InBandPrefix(d, Trajectory(f, x, y, step, p, n)))
    decreases n
  {
    if n > 0 {
      var r := Record(f, x, y, step, p);
      var x', y' := Round(x + step, p), Round(y + r.dy, p);
      TrajectoryCons(f, x, y, step, p, n);
      var rs := Trajectory(f, x, y, step, p, n);
      assert rs[0] == r;
      if InBand(d, y) {
        CurveIsCutTrajectory(f, d, x', y', step, p, n - 1);
        assert rs[1..] == Trajectory(f, x', y', step, p, n - 1);
        var cut := InBandPrefix(d, rs[1..]);
        assert InBandPrefix(d, rs) == [r] + cut;
        assert Project(d, [r] + cut) == [Point(x, MapY(d, y))] + Project(d, cut);
      }
    }
  }

  /**
   * From a grid point with a positive grid step, every point the curve loop
   * emits within the x-walk has its x in [x, end] and its y within the
   * projected band.
   */
  lemma {:induction false} CurveBounds(f: (real, real) -> real, d: Domain, x: real, y: real, h: real, p: nat, end: real, n: nat)
    requires d.x0 < d.xe && d.y0 < d.ye
    requires OnGrid(x, p) && OnGrid(h, p) && h > 0.0 && n <= StepCount(x, end, h)
    ensures forall pt | pt in CurvePoints(f, d, x, y, h, p, n) ::
      x <= pt.x <= end && MapY(d, d.y0 - Tolerance) <= pt.y <= MapY(d, d.ye + Tolerance)
    decreases n
  {
    if n > 0 && InBand(d, y) {
      var y' := Round(y + Record(f, x, y, h, p).dy, p);
      Advance(x, h, end, p);
      CurveBounds(f, d, x + h, y', h, p, end, n - 1);
      MapYIncreasing(d, d.y0 - Tolerance, y);
      MapYIncreasing(d, y, d.ye + Tolerance);
      assert CurvePoints(f, d, x, y, h, p, n) == [Point(x, MapY(d, y))] + CurvePoints(f, d, x + h, y', h, p, n - 1);
    }
  }

  /**
   * The curve loop ends: the rounded start is already past xe + 1e-12, or its
   * y is outside the band so the first iteration breaks, or the rounded
   * step is positive so x walks past xe + 1e-12.
   */
  predicate CurveEnds(q: Request)
  {
    Round(q.curveX0, q.p) > q.dom.xe + Tolerance || !InBand(q.dom, Round(q.curveY0, q.p)) ||
    Round(q.curveStep, q.p) > 0.0
  }

  /**
   * How many iterations the curve loop may take from x: the length of the
   * x-walk to `end`, and one iteration when the step is not positive (that
   * iteration then breaks on its y test).
   */
  function CurveSteps(x: real, end: real, step: real): nat
  {
    if x > end || step > 0.0 then StepCount(x, end, step) else 1
  }

  /** The curve of a request: the loop's points from the rounded start. */
  function Curve(f: (real, real) -> real, q: Request): seq<Point>
    requires q.dom.y0 < q.dom.ye
  {
    CurvePoints(f, q.dom, Round(q.curveX0, q.p), Round(q.curveY0, q.p), Round(q.curveStep, q.p), q.p,
                CurveSteps(Round(q.curveX0, q.p), q.dom.xe + Tolerance, Round(q.curveStep, q.p)))
  }

  /**
   * The plot header is emitted exactly when there is a first point: the
   * rounded start is within the x range and its y is within the band.
   */
  lemma CurveOpens(f: (real, real) -> real, q: Request)
    requires q.dom.y0 < q.dom.ye
    requires CurveEnds(q)
    ensures Curve(f, q) != [] <==>
      Round(q.curveX0, q.p) <= q.dom.xe + Tolerance && InBand(q.dom, Round(q.curveY0, q.p))
  {
  }

  /**
   * Every point of the curve of a request whose curve loop ends lies at or
   * left of xe + 1e-12, at or right of the rounded start, and within the
   * projected band.
   */
  lemma CurveWithinField(f: (real, real) -> real, q: Request)
    requires q.dom.x0 < q.dom.xe && q.dom.y0 < q.dom.ye && CurveEnds(q)
    ensures forall pt | pt in Curve(f, q) ::
      Round(q.curveX0, q.p) <= pt.x <= q.dom.xe + Tolerance &&
      MapY(q.dom, q.dom.y0 - Tolerance) <= pt.y <= MapY(q.dom, q.dom.ye + Tolerance)
  {
    if Round(q.curveStep, q.p) > 0.0 {
      RoundIsOnGrid(q.curveX0, q.p);
      RoundIsOnGrid(q.curveStep, q.p);
      CurveBounds(f, q.dom, Round(q.curveX0, q.p), Round(q.curveY0, q.p), Round(q.curveStep, q.p), q.p,
                  q.dom.xe + Tolerance, StepCount(Round(q.curveX0, q.p), q.dom.xe + Tolerance, Round(q.curveStep, q.p)));
    } else {
      assert Curve(f, q) == [];
    }
  }

  /**
   * The curve loop. `started` is the negation of the source's `first` flag:
   * whether the `plot coordinates` header has been written.
   */
  method CurveOverlay(f: (real, real) -> real, q: Request) returns (points: seq<Point>, started: bool)
    requires q.dom.y0 < q.dom.ye
    requires CurveEnds(q)
    ensures points == Curve(f, q)
    ensures started <==> points != []
  {
    var d, p := q.dom, q.p;
    RoundIsOnGrid(q.curveX0, p);
    RoundIsOnGrid(q.curveY0, p);
    RoundIsOnGrid(q.curveStep, p);
    var x := Round(q.curveX0, p);
    var y := Round(q.curveY0, p);
    var step := Round(q.curveStep, p);
    var end := d.xe + Tolerance;
    var first := true;
    points := [];
    ghost var all := Curve(f, q);
    while x <= end
      invariant step > 0.0 || x > end || !InBand(d, y)
      invariant OnGrid(x, p) && OnGrid(y, p)
      invariant points + CurvePoints(f, d, x, y, step, p, CurveSteps(x, end, step)) == all
      invariant first <==> points == []
      decreases CurveSteps(x, end, step)
    {
      if y < d.y0 - Tolerance || y > d.ye + Tolerance {
        assert CurvePoints(f, d, x, y, step, p, CurveSteps(x, end, step)) == [];
        break;
      }
      if first {
        first := false;
      }
      var rec := Record(f, x, y, step, p);
      Advance(x, step, end, p);
      ghost var rest := CurvePoints(f, d, x + step, Round(y + rec.dy, p), step, p, StepCount(x + step, end, step));
      assert CurvePoints(f, d, x, y, step, p, StepCount(x, end, step)) == [Point(x, MapY(d, y))] + rest;
      assert (points + [Point(x, MapY(d, y))]) + rest == points + ([Point(x, MapY(d, y))] + rest);
      points := points + [Point(x, MapY(d, y))];
      RoundIsOnGrid(y + rec.dy, p);
      x := Round(x + step, p);
      y := Round(y + rec.dy, p);
    }
    started := !first;
  }

  // ---------------------------------------------------------------------------
  // The whole mode

  /** The two axes: x from x0 to xe at height y0, y from y0 up to `yTop`. */
  function Axes(d: Domain): (Segment, Segment)
  {
    (Segment(d.x0, d.y0, d.xe, d.y0), Segment(d.x0, d.y0, d.x0, YTop(d)))
  }

  /**
   * The requests the model can draw: positive grid steps, a positive width
   * and height, and, when a curve is drawn, a curve loop that ends.
   */
  predicate Drawable(q: Request)
  {
    q.xstep > 0.0 && q.ystep > 0.0 && q.dom.x0 < q.dom.xe && q.dom.y0 < q.dom.ye &&
    (q.plotCurve ==> CurveEnds(q))
  }

  /** What `printDField` draws for a request it accepts. */
  function DrawnPicture(f: (real, real) -> real, runOf: real -> real, q: Request): Picture
    requires Drawable(q)
  {
    Picture(Axes(q.dom).0, Axes(q.dom).1,
            Field(f, runOf, q.dom, q.xstep, q.ystep, Rows(q.dom, q.ystep), Columns(q.dom, q.xstep)),
            if q.plotCurve then Curve(f, q) else [])
  }

  /**
   * `printDField`, with the source's own checks: they come first, then the
   * axes, the field and, when asked for, the curve. A formula tinyexpr
   * rejects aborts at the first field sample, which always exists, so
   * nothing is drawn. Of the requests the checks accept with a formula that
   * parses, the model does not draw a zero-width domain (its `ySampleStep` divides by zero) nor one
   * whose curve loop never ends.
   */
  method DirectionFieldMode(ev: Evaluator, runOf: real -> real, q: Request) returns (r: Result<Picture, FieldError>)
    requires ValidateAsWritten(q) == None && ev.parses ==> q.dom.x0 < q.dom.xe && (q.plotCurve ==> CurveEnds(q))
    ensures ValidateAsWritten(q).Some? ==> r == Failure(ValidateAsWritten(q).value)
    ensures ValidateAsWritten(q) == None && !ev.parses ==> r == Failure(FieldError.ExpressionError)
    ensures ValidateAsWritten(q) == None && ev.parses ==> r == Success(DrawnPicture(ev.slope, runOf, q))
  {
    var err := ValidateAsWritten(q);
    if err.Some? {
      return Failure(err.value);
    }
    if !ev.parses {
      return Failure(FieldError.ExpressionError);
    }
    var (xAxis, yAxis) := Axes(q.dom);
    var field := SampleField(ev.slope, runOf, q.dom, q.xstep, q.ystep);
    var curve: seq<Point> := [];
    if q.plotCurve {
      var started;
      curve, started := CurveOverlay(ev.slope, q);
    }
    return Success(Picture(xAxis, yAxis, field, curve));
  }

  /**
   * The field mode with the corrected checks: it refuses a zero width and a
   * curve step that rounds to 0, and draws every request it accepts.
   */
  method CorrectedFieldMode(ev: Evaluator, runOf: real -> real, q: Request) returns (r: Result<Picture, FieldError>)
    ensures Validate(q).Some? ==> r == Failure(Validate(q).value)
    ensures Validate(q) == None && !ev.parses ==> r == Failure(FieldError.ExpressionError)
    ensures Validate(q) == None && ev.parses ==> r == Success(DrawnPicture(ev.slope, runOf, q))
  {
    var err := Validate(q);
    if err.Some? {
      return Failure(err.value);
    }
    ValidateStricter(q);
    r := DirectionFieldMode(ev, runOf, q);
  }

  // ---------------------------------------------------------------------------
  // What the source's checks let through

  /** A request over a domain of width 0 and height 1. */
  const ZeroWidthRequest := Request(Domain(0.0, 0.0, 0.0, 1.0), 1.0, 1.0, 0, false, 1.0, 0.0, 0.0)

  /** A zero-width domain passes the source's checks; the corrected ones refuse it. */
  lemma ZeroWidthAccepted()
    ensures ValidateAsWritten(ZeroWidthRequest) == None
    ensures Validate(ZeroWidthRequest) == Some(ZeroWidth)
  {
  }

  /**
   * Over any zero-width domain `yScale` is 0, so `ySampleStep = ystep / yScale`
   * divides by zero, `mapY` sends every y to y0 and the drawn y-axis has
   * length 0: the field collapses onto one horizontal line.
   */
  lemma ZeroWidthCollapses(d: Domain, y: real)
    requires d.x0 == d.xe && d.y0 < d.ye
    ensures YScale(d) == 0.0
    ensures YTop(d) == d.y0
    ensures MapY(d, y) == d.y0
  {
    assert (y - d.y0) * YScale(d) == 0.0;
  }

  /** With step 0 a trajectory from a grid point never moves. */
  lemma {:induction false} StalledTrajectory(f: (real, real) -> real, x: real, y: real, p: nat, n: nat)
    requires OnGrid(x, p) && OnGrid(y, p)
    ensures forall k | 0 <= k < n :: Trajectory(f, x, y, 0.0, p, n)[k].x == x && Trajectory(f, x, y, 0.0, p, n)[k].y == y
    decreases n
  {
    if n > 0 {
      var r := Record(f, x, y, 0.0, p);
      RoundOnGrid(x, p);
      assert Rise(Round(Slope(f, x, y), p), 0.0, p) == Round(0.0, p);
      IntOnGrid(0.0, p);
      RoundOnGrid(0.0, p);
      RoundOnGrid(y, p);
      assert Round(y + r.dy, p) == y;
      StalledTrajectory(f, x, y, p, n - 1);
      TrajectoryCons(f, x, y, 0.0, p, n);
    }
  }

  /**
   * With step 0 and a start on the grid and in the band, the curve loop
   * emits a point on every iteration: y never leaves the band, so it never
   * breaks.
   */
  lemma StalledCurve(f: (real, real) -> real, d: Domain, x: real, y: real, p: nat, n: nat)
    requires d.y0 < d.ye && OnGrid(x, p) && OnGrid(y, p) && InBand(d, y)
    ensures |CurvePoints(f, d, x, y, 0.0, p, n)| == n
  {
    StalledTrajectory(f, x, y, p, n);
    CurveIsCutTrajectory(f, d, x, y, 0.0, p, n);
  }

  /**
   * A curve step of 0.4 at precision 0 passes the source's check, which
   * tests the step before rounding, but the loop steps by round(0.4) = 0:
   * from the in-band start (0, 0) the curve loop emits a point on every
   * iteration, for any number of iterations, so it never ends.
   */
  lemma CurveStepRoundsToZero(f: (real, real) -> real, n: nat)
    ensures var q := Request(Domain(0.0, 0.0, 1.0, 1.0), 1.0, 1.0, 0, true, 0.4, 0.0, 0.0);
      ValidateAsWritten(q) == None && Validate(q) == Some(NonPositiveCurveStep) &&
      Round(q.curveStep, q.p) == 0.0 && !CurveEnds(q) &&
      |CurvePoints(f, q.dom, Round(q.curveX0, q.p), Round(q.curveY0, q.p), Round(q.curveStep, q.p), q.p, n)| == n
  {
    assert Round(0.4, 0) == 0.0;
    assert Round(0.0, 0) == 0.0;
    IntOnGrid(0.0, 0);
    StalledCurve(f, Domain(0.0, 0.0, 1.0, 1.0), 0.0, 0.0, 0, n);
  }
}
