/**
 The boustrophedon sweep shared by the grid and crosshatch patterns of
 `generateFlightPath` (components/map-view.tsx:88-132).

 A horizontal sweep draws lines of constant latitude between `minLng` and
 `maxLng`; a vertical sweep draws lines of constant longitude between
 `minLat` and `maxLat`. Both are the same construction along a different
 axis, so it is defined once: "across" is the coordinate that steps from
 line to line, "along" is the coordinate that runs between the two ends
 of a line. Line `i` sits at `across = lo + i * step`; even lines run from
 the low end to the high end and odd lines run back.
 */
module Boustrophedon {
  import opened Geometry

  datatype Axis = Horizontal | Vertical

  /** The coordinate that is constant on one sweep line. */
  function Across(axis: Axis, p: Point): real {
    match axis
    case Horizontal => p.lat
    case Vertical => p.lng
  }

  /** The coordinate that runs between the two ends of a sweep line. */
  function Along(axis: Axis, p: Point): real {
    match axis
    case Horizontal => p.lng
    case Vertical => p.lat
  }

  function At(axis: Axis, along: real, across: real): (p: Point)
    ensures Along(axis, p) == along && Across(axis, p) == across
  {
    match axis
    case Horizontal => Point(along, across)
    case Vertical => Point(across, along)
  }

  function AcrossLo(b: Box, axis: Axis): real {
    match axis
    case Horizontal => b.minLat
    case Vertical => b.minLng
  }

  function AcrossHi(b: Box, axis: Axis): real {
    match axis
    case Horizontal => b.maxLat
    case Vertical => b.maxLng
  }

  function AlongLo(b: Box, axis: Axis): real {
    match axis
    case Horizontal => b.minLng
    case Vertical => b.minLat
  }

  function AlongHi(b: Box, axis: Axis): real {
    match axis
    case Horizontal => b.maxLng
    case Vertical => b.maxLat
  }

  /** The height (horizontal sweep) or width (vertical sweep) of the box. */
  function Extent(b: Box, axis: Axis): real {
    AcrossHi(b, axis) - AcrossLo(b, axis)
  }

  /** The distance between consecutive lines when the extent is cut into `n` parts. */
  function StepOf(b: Box, axis: Axis, n: nat): real
    requires n > 0
  {
    Extent(b, axis) / (n as real)
  }

  /**
   The across coordinate of line `i`: the loop variable after `i`
   executions of `x += step`, starting from `lo`.
   */
  function LineCoord(lo: real, step: real, i: nat): real {
    if i == 0 then lo else LineCoord(lo, step, i - 1) + step
  }

  /** Over exact reals the accumulated coordinate is `lo + i * step`. */
  lemma {:induction false} LineCoordClosedForm(lo: real, step: real, i: nat)
    ensures LineCoord(lo, step, i) == lo + (i as real) * step
  {
    if i > 0 {
      LineCoordClosedForm(lo, step, i - 1);
      assert (i as real) * step == ((i - 1) as real) * step + step;
    }
  }

  /** The two waypoints the loop body pushes for line `i`. */
  function Line(b: Box, axis: Axis, step: real, i: nat): seq<Point> {
    var across := LineCoord(AcrossLo(b, axis), step, i);
    if i % 2 == 0 then
      [At(axis, AlongLo(b, axis), across), At(axis, AlongHi(b, axis), across)]
    else
      [At(axis, AlongHi(b, axis), across), At(axis, AlongLo(b, axis), across)]
  }

  /**
   Reference definition of the `j`-th waypoint of a sweep, independent of
   how the path is built: it lies on line `j / 2`, and it is at the low end
   exactly when the parity of its line equals the parity of its position
   within the line.
   */
  function Waypoint(b: Box, axis: Axis, step: real, j: nat): Point {
    var line := j / 2;
    var atLo := (line % 2 == 0) == (j % 2 == 0);
    At(axis, if atLo then AlongLo(b, axis) else AlongHi(b, axis), LineCoord(AcrossLo(b, axis), step, line))
  }

  /** The first `k` lines of the sweep, in flight order. */
  function Lines(b: Box, axis: Axis, step: real, k: nat): (r: seq<Point>)
    ensures |r| == 2 * k
  {
    if k == 0 then [] else Lines(b, axis, step, k - 1) + Line(b, axis, step, k - 1)
  }

  /** The lines built one after another agree, waypoint by waypoint, with the closed form. */
  lemma {:induction false} LinesAreWaypoints(b: Box, axis: Axis, step: real, k: nat)
    ensures forall j :: 0 <= j < 2 * k ==> Lines(b, axis, step, k)[j] == Waypoint(b, axis, step, j)
  {
    if k > 0 {
      LinesAreWaypoints(b, axis, step, k - 1);
      var line := Line(b, axis, step, k - 1);
      assert Waypoint(b, axis, step, 2 * k - 2) == line[0];
      assert Waypoint(b, axis, step, 2 * k - 1) == line[1];
    }
  }

  /**
   The sweep over a box of positive extent: `n + 1` lines at
   `lo, lo + step, ..., hi` with `step = extent / n`. This is the
   exact-arithmetic outcome of the source's `lo <= x <= hi` loop.
   */
  function Sweep(b: Box, axis: Axis, n: nat): seq<Point>
    requires n > 0 && Extent(b, axis) > 0.0
  {
    Lines(b, axis, StepOf(b, axis, n), n + 1)
  }

  /** `lo + i * (hi - lo) / n` stays within `[lo, hi]` for `0 <= i <= n`. */
  lemma StepWithin(lo: real, hi: real, n: nat, i: nat)
    requires n > 0 && lo <= hi && i <= n
    ensures lo <= lo + (i as real) * ((hi - lo) / (n as real)) <= hi
  {
    var s := (hi - lo) / (n as real);
    assert (n as real) * s == hi - lo;
    assert 0.0 <= s;
    assert (i as real) * s <= (n as real) * s by {
      assert ((n - i) as real) * s >= 0.0;
    }
  }

  /**
   With a positive extent, the accumulated coordinate of line `i` passes
   the loop guard `x <= hi` exactly when `i <= n`: the loop runs `n + 1`
   times.
   */
  lemma GuardExact(lo: real, hi: real, n: nat, i: nat)
    requires n > 0 && lo < hi
    ensures LineCoord(lo, (hi - lo) / (n as real), i) <= hi <==> i <= n
  {
    var s := (hi - lo) / (n as real);
    LineCoordClosedForm(lo, s, i);
    assert (n as real) * s == hi - lo;
    assert s > 0.0;
    if i <= n {
      StepWithin(lo, hi, n, i);
    } else {
      assert ((i - n) as real) * s > 0.0;
      assert (i as real) * s == (n as real) * s + ((i - n) as real) * s;
    }
  }

  /**
   The source's loop guard `x <= hi` holds after every number of
   executions of `x += step`: the loop never exits.
   */
  ghost predicate NeverExits(b: Box, axis: Axis, n: nat)
    requires n > 0
  {
    forall i: nat :: LineCoord(AcrossLo(b, axis), StepOf(b, axis, n), i) <= AcrossHi(b, axis)
  }

  /**
   Over a well-formed box the sweep loop runs forever exactly when the
   extent is zero: then the step is zero and `x` stays at `lo == hi`;
   otherwise the guard fails on line `n + 1`.
   */
  lemma NeverExitsIff(b: Box, axis: Axis, n: nat)
    requires n > 0 && WellFormed(b)
    ensures NeverExits(b, axis, n) <==> Extent(b, axis) == 0.0
  {
    var lo, hi := AcrossLo(b, axis), AcrossHi(b, axis);
    assert lo <= hi by {
      match axis
      case Horizontal =>
      case Vertical =>
    }
    if Extent(b, axis) == 0.0 {
      forall i: nat
        ensures LineCoord(lo, StepOf(b, axis, n), i) <= hi
      {
        LineCoordClosedForm(lo, StepOf(b, axis, n), i);
      }
    } else {
      assert StepOf(b, axis, n) == (hi - lo) / (n as real);
      GuardExact(lo, hi, n, n + 1);
      assert LineCoord(lo, StepOf(b, axis, n), n + 1) > hi;
    }
  }

  /** One waypoint of a sweep over `n` parts lies in the box. */
  lemma WaypointInBox(b: Box, axis: Axis, n: nat, j: nat)
    requires n > 0 && WellFormed(b) && j / 2 <= n
    ensures InBox(b, Waypoint(b, axis, StepOf(b, axis, n), j))
  {
    var lo, hi := AcrossLo(b, axis), AcrossHi(b, axis);
    assert lo <= hi by {
      match axis
      case Horizontal =>
      case Vertical =>
    }
    LineCoordClosedForm(lo, StepOf(b, axis, n), j / 2);
    StepWithin(lo, hi, n, j / 2);
    match axis
    case Horizontal =>
    case Vertical =>
  }

  /** The across coordinate of a waypoint is that of its line, `lo + (j / 2) * step`. */
  lemma WaypointAcross(b: Box, axis: Axis, step: real, j: nat)
    ensures Across(axis, Waypoint(b, axis, step, j)) == AcrossLo(b, axis) + ((j / 2) as real) * step
  {
    LineCoordClosedForm(AcrossLo(b, axis), step, j / 2);
  }

  /** The last line of a sweep over `n` parts is at the high end. */
  lemma LastLineAtHi(b: Box, axis: Axis, n: nat)
    requires n > 0
    ensures LineCoord(AcrossLo(b, axis), StepOf(b, axis, n), n) == AcrossHi(b, axis)
  {
    LineCoordClosedForm(AcrossLo(b, axis), StepOf(b, axis, n), n);
  }

  /**
   Lines of a sweep: two waypoints per line and `n + 1` lines, the first
   line at `lo` and the last exactly at `hi`.
   */
  lemma SweepLines(b: Box, axis: Axis, n: nat)
    requires n > 0 && Extent(b, axis) > 0.0
    ensures var r := Sweep(b, axis, n);
      && |r| == 2 * (n + 1)
      && Across(axis, r[0]) == AcrossLo(b, axis)
      && Across(axis, r[1]) == AcrossLo(b, axis)
      && Across(axis, r[|r| - 2]) == AcrossHi(b, axis)
      && Across(axis, r[|r| - 1]) == AcrossHi(b, axis)
  {
    var r := Sweep(b, axis, n);
    var step := StepOf(b, axis, n);
    LinesAreWaypoints(b, axis, step, n + 1);
    assert r[|r| - 2] == Waypoint(b, axis, step, 2 * n);
    assert r[|r| - 1] == Waypoint(b, axis, step, 2 * n + 1);
    assert (2 * n + 1) / 2 == n;
    LastLineAtHi(b, axis, n);
  }

  /** Both waypoints of line `i` lie on the across coordinate `lo + i * step`. */
  lemma SweepLineCoords(b: Box, axis: Axis, n: nat)
    requires n > 0 && Extent(b, axis) > 0.0
    ensures var r := Sweep(b, axis, n);
      forall j :: 0 <= j < |r| ==>
        Across(axis, r[j]) == AcrossLo(b, axis) + ((j / 2) as real) * StepOf(b, axis, n)
  {
    var r := Sweep(b, axis, n);
    var step := StepOf(b, axis, n);
    LinesAreWaypoints(b, axis, step, n + 1);
    forall j | 0 <= j < |r|
      ensures Across(axis, r[j]) == AcrossLo(b, axis) + ((j / 2) as real) * step
    {
      WaypointAcross(b, axis, step, j);
    }
  }

  /** Every waypoint of a sweep lies in the box the sweep covers. */
  lemma SweepInBox(b: Box, axis: Axis, n: nat)
    requires n > 0 && Extent(b, axis) > 0.0 && WellFormed(b)
    ensures forall p :: p in Sweep(b, axis, n) ==> InBox(b, p)
  {
    var r := Sweep(b, axis, n);
    LinesAreWaypoints(b, axis, StepOf(b, axis, n), n + 1);
    forall j | 0 <= j < |r|
      ensures InBox(b, r[j])
    {
      WaypointInBox(b, axis, n, j);
    }
  }

  /**
   Direction of travel: even-indexed lines fly from the low end to the high
   end, odd-indexed lines fly back.
   */
  lemma SweepAlternates(b: Box, axis: Axis, n: nat)
    requires n > 0 && Extent(b, axis) > 0.0
    ensures var r := Sweep(b, axis, n);
      forall j :: 0 <= j < |r| && j % 2 == 0 ==>
        && Along(axis, r[j]) == (if (j / 2) % 2 == 0 then AlongLo(b, axis) else AlongHi(b, axis))
        && Along(axis, r[j + 1]) == (if (j / 2) % 2 == 0 then AlongHi(b, axis) else AlongLo(b, axis))
  {
    LinesAreWaypoints(b, axis, StepOf(b, axis, n), n + 1);
  }

  /**
   Continuity: every line starts at the along coordinate where the previous
   line ended, so consecutive lines are joined by a short leg at one end of
   the box rather than a diagonal across it.
   */
  lemma SweepContinuous(b: Box, axis: Axis, n: nat)
    requires n > 0 && Extent(b, axis) > 0.0
    ensures var r := Sweep(b, axis, n);
      forall j :: 0 <= j < |r| - 1 && j % 2 == 1 ==> Along(axis, r[j]) == Along(axis, r[j + 1])
  {
    LinesAreWaypoints(b, axis, StepOf(b, axis, n), n + 1);
  }

  /**
   The source's loop, statement for statement, over exact reals:
   `for (x = lo; x <= hi; x += step)` pushing the two ends of the line in
   the order selected by `goingRight` (or `goingUp`), which flips on every
   line. It builds exactly `Sweep(b, axis, n)`.
   */
  method RunSweep(b: Box, axis: Axis, n: nat) returns (path: seq<Point>)
    requires n > 0 && Extent(b, axis) > 0.0
    ensures path == Sweep(b, axis, n)
  {
    var lo, hi := AcrossLo(b, axis), AcrossHi(b, axis);
    var step := (hi - lo) / (n as real);
    assert step == StepOf(b, axis, n);
    var forward := true;
    var x := lo;
    ghost var i: nat := 0;
    path := [];
    while x <= hi
      invariant i <= n + 1
      invariant x == LineCoord(lo, step, i)
      invariant forward <==> i % 2 == 0
      invariant path == Lines(b, axis, step, i)
      decreases n + 1 - i
    {
      GuardExact(lo, hi, n, i);
      var line;
      if forward {
        line := [At(axis, AlongLo(b, axis), x), At(axis, AlongHi(b, axis), x)];
      } else {
        line := [At(axis, AlongHi(b, axis), x), At(axis, AlongLo(b, axis), x)];
      }
      assert line == Line(b, axis, step, i);
      path := path + line;
      forward := !forward;
      x := x + step;
      i := i + 1;
    }
    GuardExact(lo, hi, n, i);
  }
}
