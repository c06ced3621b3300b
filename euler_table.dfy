/**
 * Table mode of the Euler tool (`eulersMethod` and `printCsvSegments`,
 * euler.cpp:71-133): the explicit Euler method for y' = f(x, y) with every
 * intermediate value rounded to the working precision, the column widths of
 * the printed table, and the consecutive-record line segments of the `-cr`
 * output.
 */
module EulerTable {
  import opened Wrappers
  import opened Rounding

  /**
   * The compiled formula. `parses` says whether tinyexpr accepted the text;
   * `slope` is the value it computes for bindings x and y.
   */
  datatype Evaluator = Evaluator(parses: bool, slope: (real, real) -> real)

  datatype TableError = ExpressionError

  /** One line of the table: the point, the slope there and the rise over one step. */
  datatype StepRecord = StepRecord(x: real, y: real, yp: real, dy: real)

  /** A line segment from (x0, y0) to (x1, y1). */
  datatype Segment = Segment(x0: real, y0: real, x1: real, y1: real)

  /** The formula evaluated with x and y bound (`tep.evaluate()`). */
  function Slope(f: (real, real) -> real, x: real, y: real): real
  {
    f(x, y)
  }

  /** The rounded rise over one step at rounded slope yp: round(yp * step). */
  function Rise(yp: real, step: real, p: nat): real
  {
    Round(yp * step, p)
  }

  /** The record written at (x, y): yp = round(f(x, y)) and dy = round(yp * step). */
  function Record(f: (real, real) -> real, x: real, y: real, step: real, p: nat): StepRecord
  {
    StepRecord(x, y, Round(Slope(f, x, y), p), Rise(Round(Slope(f, x, y), p), step, p))
  }

  /**
   * The first n records of the Euler method started at (x, y): after each
   * record, x advances to round(x + step) and y to round(y + dy).
   */
  function Trajectory(f: (real, real) -> real, x: real, y: real, step: real, p: nat, n: nat): (rs: seq<StepRecord>)
    ensures |rs| == n
    decreases n
  {
    if n == 0 then []
    else
      var r := Record(f, x, y, step, p);
      [r] + Trajectory(f, Round(x + step, p), Round(y + r.dy, p), step, p, n - 1)
  }

  /**
   * How many points start, start + step, start + 2 * step, ... lie at or
   * below `end`.
   */
  function StepCount(start: real, end: real, step: real): nat
    requires start > end || step > 0.0
  {
    if start > end then 0 else ((end - start) / step).Floor + 1
  }

  /** The k-th point of the walk is at or below `end` exactly when k < StepCount. */
  lemma StepCountBound(start: real, end: real, step: real, k: nat)
    requires step > 0.0
    ensures start + k as real * step <= end <==> k < StepCount(start, end, step)
  {
    if start <= end {
      var q := (end - start) / step;
      assert q * step == end - start;
      assert k as real * step <= q * step <==> k as real <= q;
      assert k as real <= q <==> k <= q.Floor;
    } else {
      assert k as real * step >= 0.0;
    }
  }

  /** One step forward leaves one point fewer before `end`. */
  lemma StepCountShift(start: real, end: real, step: real)
    requires step > 0.0 && start <= end
    ensures StepCount(start + step, end, step) + 1 == StepCount(start, end, step)
  {
    var q := (end - start) / step;
    assert step / step == 1.0;
    assert ((end - start) - step) / step == q - step / step;
    assert (end - (start + step)) / step == q - 1.0;
    assert (q - 1.0).Floor == q.Floor - 1;
    if start + step > end {
      assert q < 1.0;
    }
  }

  /** Advancing a grid point by a positive grid step: no rounding, one point fewer left. */
  lemma Advance(x: real, h: real, end: real, p: nat)
    requires OnGrid(x, p) && OnGrid(h, p) && h > 0.0 && x <= end
    ensures Round(x + h, p) == x + h && OnGrid(x + h, p)
    ensures StepCount(x + h, end, h) + 1 == StepCount(x, end, h)
  {
    RoundSum(x, h, p);
    GridSum(x, h, p);
    StepCountShift(x, end, h);
  }

  lemma TrajectoryCons(f: (real, real) -> real, x: real, y: real, step: real, p: nat, n: nat)
    requires n > 0
    ensures Trajectory(f, x, y, step, p, n)
         == [Record(f, x, y, step, p)] + Trajectory(f, Round(x + step, p), Round(y + Record(f, x, y, step, p).dy, p), step, p, n - 1)
  {
  }

  /** The whole table that `eulersMethod` computes, as a function of its arguments. */
  function Table(f: (real, real) -> real, step: real, x0: real, y0: real, end: real, p: nat): seq<StepRecord>
    requires Round(x0, p) > end || Round(step, p) > 0.0
  {
    var h := Round(step, p);
    Trajectory(f, Round(x0, p), Round(y0, p), h, p, StepCount(Round(x0, p), end, h))
  }

  /**
   * The stepping loop of `eulersMethod`. A formula that tinyexpr rejects
   * aborts before any record. The source never checks the step: with a
   * rounded step <= 0 and round(x0) <= end its loop never ends, so callers
   * must not ask for that.
   */
  method EulersMethod(ev: Evaluator, step: real, x0: real, y0: real, end: real, p: nat)
    returns (r: Result<seq<StepRecord>, TableError>)
    requires ev.parses ==> Round(x0, p) > end || Round(step, p) > 0.0
    ensures !ev.parses ==> r == Failure(ExpressionError)
    ensures ev.parses ==> r == Success(Table(ev.slope, step, x0, y0, end, p))
  {
    RoundIsOnGrid(x0, p);
    RoundIsOnGrid(y0, p);
    RoundIsOnGrid(step, p);
    var x := Round(x0, p);
    var y := Round(y0, p);
    var h := Round(step, p);
    if !ev.parses {
      return Failure(ExpressionError);
    }
    var values: seq<StepRecord> := [];
    ghost var all := Trajectory(ev.slope, x, y, h, p, StepCount(x, end, h));
    while !(x > end)
      invariant x <= end ==> h > 0.0
      invariant OnGrid(x, p) && OnGrid(y, p)
      invariant values + Trajectory(ev.slope, x, y, h, p, StepCount(x, end, h)) == all
      decreases StepCount(x, end, h)
    {
      var rec := Record(ev.slope, x, y, h, p);
      Advance(x, h, end, p);
      TrajectoryCons(ev.slope, x, y, h, p, StepCount(x, end, h));
      ghost var rest := Trajectory(ev.slope, x + h, Round(y + rec.dy, p), h, p, StepCount(x + h, end, h));
      assert Trajectory(ev.slope, x, y, h, p, StepCount(x, end, h)) == [rec] + rest;
      assert (values + [rec]) + rest == values + ([rec] + rest);
      values := values + [rec];
      RoundIsOnGrid(y + rec.dy, p);
      x := Round(x + h, p);
      y := Round(y + rec.dy, p);
    }
    assert values == all;
    return Success(values);
  }

  /**
   * Consecutive records are linked as in the loop body: each record holds the
   * rounded slope and rise at its point, and the next point is the rounded
   * sum of the previous point and the step (in x) or the rise (in y).
   */
  lemma {:induction false} TrajectoryLinks(f: (real, real) -> real, x: real, y: real, step: real, p: nat, n: nat, i: nat)
    requires i < n
    ensures var rs := Trajectory(f, x, y, step, p, n);
      rs[i] == Record(f, rs[i].x, rs[i].y, step, p) &&
      (i + 1 < n ==> rs[i + 1].x == Round(rs[i].x + step, p) && rs[i + 1].y == Round(rs[i].y + rs[i].dy, p))
    decreases i
  {
    var r := Record(f, x, y, step, p);
    if i > 0 {
      TrajectoryLinks(f, Round(x + step, p), Round(y + r.dy, p), step, p, n - 1, i - 1);
    }
  }

  /** From a grid point with a grid step, the i-th record sits exactly i steps along. */
  lemma {:induction false} TrajectoryX(f: (real, real) -> real, x: real, y: real, step: real, p: nat, n: nat, i: nat)
    requires OnGrid(x, p) && OnGrid(step, p) && i < n
    ensures Trajectory(f, x, y, step, p, n)[i].x == x + i as real * step
    decreases i
  {
    TrajectoryCons(f, x, y, step, p, n);
    if i > 0 {
      var y' := Round(y + Record(f, x, y, step, p).dy, p);
      RoundSum(x, step, p);
      TrajectoryX(f, x + step, y', step, p, n - 1, i - 1);
      assert Trajectory(f, x, y, step, p, n)[i] == Trajectory(f, x + step, y', step, p, n - 1)[i - 1];
      OneMoreStep(x, step, i);
    }
  }

  lemma OneMoreStep(x: real, step: real, i: nat)
    requires i > 0
    ensures (x + step) + (i - 1) as real * step == x + i as real * step
  {
  }

  /** The slope and rise of a record are rounded, so they lie on the grid. */
  lemma RecordOnGrid(f: (real, real) -> real, x: real, y: real, step: real, p: nat)
    ensures OnGrid(Record(f, x, y, step, p).yp, p) && OnGrid(Record(f, x, y, step, p).dy, p)
  {
    var yp := Round(Slope(f, x, y), p);
    RoundIsOnGrid(Slope(f, x, y), p);
    RiseOnGrid(yp, step, p);
  }

  lemma RiseOnGrid(yp: real, step: real, p: nat)
    ensures OnGrid(Rise(yp, step, p), p)
  {
    RoundIsOnGrid(yp * step, p);
  }

  /** Every number of a trajectory started on the grid is printed exactly with p decimals. */
  lemma {:induction false} TrajectoryOnGrid(f: (real, real) -> real, x: real, y: real, step: real, p: nat, n: nat, i: nat)
    requires OnGrid(x, p) && OnGrid(y, p) && i < n
    ensures var r := Trajectory(f, x, y, step, p, n)[i];
      OnGrid(r.x, p) && OnGrid(r.y, p) && OnGrid(r.yp, p) && OnGrid(r.dy, p)
    decreases i
  {
    var r := Record(f, x, y, step, p);
    TrajectoryCons(f, x, y, step, p, n);
    RecordOnGrid(f, x, y, step, p);
    if i == 0 {
      assert Trajectory(f, x, y, step, p, n)[0] == r;
    } else {
      RoundIsOnGrid(x + step, p);
      RoundIsOnGrid(y + r.dy, p);
      TrajectoryOnGrid(f, Round(x + step, p), Round(y + r.dy, p), step, p, n - 1, i - 1);
      assert Trajectory(f, x, y, step, p, n)[i] == Trajectory(f, Round(x + step, p), Round(y + r.dy, p), step, p, n - 1)[i - 1];
    }
  }

  /**
   * The table starts at the rounded initial point, it is empty exactly when
   * the rounded x0 is already past `end`, and otherwise it holds
   * floor((end - round(x0)) / round(step)) + 1 records.
   */
  lemma TableStart(f: (real, real) -> real, step: real, x0: real, y0: real, end: real, p: nat)
    requires Round(x0, p) > end || Round(step, p) > 0.0
    ensures var rs := Table(f, step, x0, y0, end, p);
      (rs == [] <==> Round(x0, p) > end) &&
      (rs != [] ==> rs[0] == Record(f, Round(x0, p), Round(y0, p), Round(step, p), p)) &&
      (rs != [] ==> |rs| == ((end - Round(x0, p)) / Round(step, p)).Floor + 1)
  {
  }

  /**
   * With a positive rounded step h, record i is at round(x0) + i * h, every
   * recorded x is at or below `end`, and the point after the last record is
   * past `end`: the loop stops at the first x beyond `end`.
   */
  lemma TableWithinEnd(f: (real, real) -> real, step: real, x0: real, y0: real, end: real, p: nat)
    requires Round(step, p) > 0.0
    ensures forall i | 0 <= i < |Table(f, step, x0, y0, end, p)| ::
      Table(f, step, x0, y0, end, p)[i].x == Round(x0, p) + i as real * Round(step, p) &&
      Table(f, step, x0, y0, end, p)[i].x <= end
    ensures Round(x0, p) + |Table(f, step, x0, y0, end, p)| as real * Round(step, p) > end
  {
    var n := StepCount(Round(x0, p), end, Round(step, p));
    assert Table(f, step, x0, y0, end, p) == Trajectory(f, Round(x0, p), Round(y0, p), Round(step, p), p, n);
    RoundIsOnGrid(x0, p);
    RoundIsOnGrid(step, p);
    forall i | 0 <= i < n
      ensures Trajectory(f, Round(x0, p), Round(y0, p), Round(step, p), p, n)[i].x == Round(x0, p) + i as real * Round(step, p)
      ensures Round(x0, p) + i as real * Round(step, p) <= end
    {
      TrajectoryX(f, Round(x0, p), Round(y0, p), Round(step, p), p, n, i);
      StepCountBound(Round(x0, p), end, Round(step, p), i);
    }
    StepCountBound(Round(x0, p), end, Round(step, p), n);
  }

  /** With a positive rounded step the recorded x values strictly increase. */
  lemma TableIncreasing(f: (real, real) -> real, step: real, x0: real, y0: real, end: real, p: nat, i: nat, j: nat)
    requires Round(step, p) > 0.0
    requires i < j < |Table(f, step, x0, y0, end, p)|
    ensures Table(f, step, x0, y0, end, p)[i].x < Table(f, step, x0, y0, end, p)[j].x
  {
    var rs := Table(f, step, x0, y0, end, p);
    TableWithinEnd(f, step, x0, y0, end, p);
    assert rs[i].x == Round(x0, p) + i as real * Round(step, p);
    assert rs[j].x == Round(x0, p) + j as real * Round(step, p);
    MoreSteps(i, j, Round(step, p));
  }

  lemma MoreSteps(i: nat, j: nat, h: real)
    requires i < j && h > 0.0
    ensures i as real * h < j as real * h
  {
    assert j as real * h == i as real * h + (j - i) as real * h;
  }

  /** Every number in the table is a whole multiple of 10^-p. */
  lemma TableOnGrid(f: (real, real) -> real, step: real, x0: real, y0: real, end: real, p: nat)
    requires Round(x0, p) > end || Round(step, p) > 0.0
    ensures var rs := Table(f, step, x0, y0, end, p);
      forall i | 0 <= i < |rs| ::
        OnGrid(rs[i].x, p) && OnGrid(rs[i].y, p) && OnGrid(rs[i].yp, p) && OnGrid(rs[i].dy, p)
  {
    var rs := Table(f, step, x0, y0, end, p);
    RoundIsOnGrid(x0, p);
    RoundIsOnGrid(y0, p);
    forall i | 0 <= i < |rs|
      ensures OnGrid(rs[i].x, p) && OnGrid(rs[i].y, p) && OnGrid(rs[i].yp, p) && OnGrid(rs[i].dy, p)
    {
      TrajectoryOnGrid(f, Round(x0, p), Round(y0, p), Round(step, p), p, |rs|, i);
    }
  }

  /**
   * The line-segment CSV (`printCsvSegments`): one segment per pair of
   * consecutive records, joining record i to record i + 1.
   */
  method CsvSegments(values: seq<StepRecord>) returns (segs: seq<Segment>)
    ensures |segs| == if |values| == 0 then 0 else |values| - 1
    ensures forall i | 0 <= i < |segs| ::
      segs[i] == Segment(values[i].x, values[i].y, values[i + 1].x, values[i + 1].y)
  {
    segs := [];
    var i := 0;
    while i + 1 < |values|
      invariant |segs| == i
      invariant i == 0 || i < |values|
      invariant forall k | 0 <= k < i ::
        segs[k] == Segment(values[k].x, values[k].y, values[k + 1].x, values[k + 1].y)
    {
      segs := segs + [Segment(values[i].x, values[i].y, values[i + 1].x, values[i + 1].y)];
      i := i + 1;
    }
  }

  /**
   * On the table of a run, segment i of the CSV goes one rounded step to the
   * right and rises by record i's rounded rise.
   */
  lemma TableSegmentsFollowSteps(f: (real, real) -> real, step: real, x0: real, y0: real, end: real, p: nat, i: nat)
    requires Round(step, p) > 0.0
    requires i + 1 < |Table(f, step, x0, y0, end, p)|
    ensures var rs := Table(f, step, x0, y0, end, p);
      rs[i + 1].x == rs[i].x + Round(step, p) && rs[i + 1].y == Round(rs[i].y + rs[i].dy, p)
  {
    var rs, h := Table(f, step, x0, y0, end, p), Round(step, p);
    TableWithinEnd(f, step, x0, y0, end, p);
    TrajectoryLinks(f, Round(x0, p), Round(y0, p), h, p, |rs|, i);
    assert (i + 1) as real * h == i as real * h + h;
  }

  // Column widths of the plain table (euler.cpp:92-101).

  /** Decimal digits of n: the d with 10^(d-1) <= n < 10^d, and 1 for 0. */
  function NumDigits(n: nat): (d: nat)
    ensures d >= 1 && n < Pow10(d) && (d == 1 || Pow10(d - 1) <= n)
    decreases n
  {
    if n < 10 then 1 else 1 + NumDigits(n / 10)
  }

  /**
   * Length of one table cell (`stepValues`, euler.cpp:45-55): a space, the
   * number in fixed notation with p decimals, a space.
   */
  function CellWidth(v: real, p: nat): nat
  {
    var magnitude := Round(if v < 0.0 then -v else v, p);
    2 + (if v < 0.0 then 1 else 0)
      + NumDigits(if magnitude < 0.0 then 0 else magnitude.Floor)
      + (if p == 0 then 0 else p + 1)
  }

  datatype Column = XColumn | YColumn | SlopeColumn | RiseColumn

  function Cell(r: StepRecord, c: Column): real
  {
    match c
    case XColumn => r.x
    case YColumn => r.y
    case SlopeColumn => r.yp
    case RiseColumn => r.dy
  }

  /** `colwidth`: the widest cell of each column. */
  datatype ColWidth = ColWidth(ind: nat, dep: nat, der: nat, dy: nat)
  {
    function Of(c: Column): nat
    {
      match c
      case XColumn => ind
      case YColumn => dep
      case SlopeColumn => der
      case RiseColumn => dy
    }
  }

  /** m is the widest of the first n cells of column c, and 0 if n is 0. */
  predicate IsWidest(m: nat, values: seq<StepRecord>, n: nat, c: Column, p: nat)
    requires n <= |values|
  {
    (forall i | 0 <= i < n :: CellWidth(Cell(values[i], c), p) <= m) &&
    (if n == 0 then m == 0 else exists i | 0 <= i < n :: CellWidth(Cell(values[i], c), p) == m)
  }

  /** Taking the wider of the widest-so-far and the next cell gives the widest of one more cell. */
  lemma WidestStep(m: nat, values: seq<StepRecord>, n: nat, c: Column, p: nat)
    requires n < |values| && IsWidest(m, values, n, c, p)
    ensures var w := CellWidth(Cell(values[n], c), p);
      IsWidest(if w > m then w else m, values, n + 1, c, p)
  {
    var w := CellWidth(Cell(values[n], c), p);
    if w <= m && n > 0 {
      var i :| 0 <= i < n && CellWidth(Cell(values[i], c), p) == m;
    }
  }

  /** The width fold of `eulersMethod` (euler.cpp:92-101). */
  method MaxWidths(values: seq<StepRecord>, p: nat) returns (w: ColWidth)
    ensures forall c :: IsWidest(w.Of(c), values, |values|, c, p)
  {
    var xm: nat, ym: nat, ypm: nat, dym: nat := 0, 0, 0, 0;
    for n := 0 to |values|
      invariant IsWidest(xm, values, n, XColumn, p)
      invariant IsWidest(ym, values, n, YColumn, p)
      invariant IsWidest(ypm, values, n, SlopeColumn, p)
      invariant IsWidest(dym, values, n, RiseColumn, p)
    {
      var cur := ColWidth(CellWidth(values[n].x, p), CellWidth(values[n].y, p),
                          CellWidth(values[n].yp, p), CellWidth(values[n].dy, p));
      WidestStep(xm, values, n, XColumn, p);
      WidestStep(ym, values, n, YColumn, p);
      WidestStep(ypm, values, n, SlopeColumn, p);
      WidestStep(dym, values, n, RiseColumn, p);
      xm := if cur.ind > xm then cur.ind else xm;
      ym := if cur.dep > ym then cur.dep else ym;
      ypm := if cur.der > ypm then cur.der else ypm;
      dym := if cur.dy > dym then cur.dy else dym;
    }
    w := ColWidth(xm, ym, ypm, dym);
  }
}
