/**
 `generateFlightPath` of components/map-view.tsx:56-144: the coverage
 flight-path generator.

 The generator reads the exterior ring of the survey polygon (a GeoJSON
 linear ring, whose first and last positions coincide), folds it into a
 bounding box and, depending on the mission-type string, emits a
 horizontal boustrophedon sweep ("grid"), a horizontal sweep followed by a
 vertical one ("crosshatch"), a verbatim copy of the ring ("perimeter"),
 or nothing (any other string).

 The source divides each extent into a fixed 10 parts; here the number of
 parts is the parameter `subdivisions`, defaulting to 10.
 */
module FlightPath {
  import opened Wrappers
  import opened Geometry
  import opened Boustrophedon

  /** The source's hard-wired divisor of the box height and width. */
  const DefaultSubdivisions: nat := 10

  datatype Pattern = Grid | Crosshatch | Perimeter

  /**
   The mission-type string is compared against three literals; every other
   string selects no pattern.
   */
  function PatternOf(missionType: string): (r: Option<Pattern>)
    ensures r == Some(Grid) <==> missionType == "grid"
    ensures r == Some(Crosshatch) <==> missionType == "crosshatch"
    ensures r == Some(Perimeter) <==> missionType == "perimeter"
  {
    if missionType == "grid" then Some(Grid)
    else if missionType == "crosshatch" then Some(Crosshatch)
    else if missionType == "perimeter" then Some(Perimeter)
    else None
  }

  /**
   What a call of the generator comes to. A sweep loop whose step is zero
   (a box of zero height, or of zero width for the vertical sweep) never
   leaves its loop; `Hangs` records that the call does not return.
   */
  datatype Generation = Generated(path: seq<Point>) | Hangs

  /** The sweep loop over `axis`, as the source runs it on the folded bounds. */
  function SweepOrHang(bounds: Option<Box>, axis: Axis, subdivisions: nat): (r: Generation)
    requires subdivisions > 0 && (bounds.Some? ==> WellFormed(bounds.value))
    ensures bounds.None? ==> r == Generated([])
  {
    match bounds
    // The untouched +/-Infinity seed fails the guard `+Infinity <= -Infinity` at once.
    case None => Generated([])
    case Some(b) =>
      if Extent(b, axis) == 0.0 then Hangs else Generated(Sweep(b, axis, subdivisions))
  }

  /**
   The generator as written. An unknown mission type or an empty ring gives
   the empty path and perimeter gives the ring; whenever a sweep returns,
   grid flies `subdivisions + 1` lines and crosshatch twice as many, two
   waypoints per line.
   */
  function GenerateFlightPath(ring: seq<Point>, missionType: string, subdivisions: nat := DefaultSubdivisions): (r: Generation)
    requires subdivisions > 0
    ensures PatternOf(missionType).None? ==> r == Generated([])
    ensures missionType == "perimeter" ==> r == Generated(ring)
    ensures |ring| == 0 ==> r == Generated([])
  {
    match PatternOf(missionType)
    case None => Generated([])
    case Some(Perimeter) => Generated(ring)
    case Some(Grid) => SweepOrHang(BoundsOf(ring), Horizontal, subdivisions)
    case Some(Crosshatch) =>
      match SweepOrHang(BoundsOf(ring), Horizontal, subdivisions)
      case Hangs => Hangs
      case Generated(horizontal) =>
        match SweepOrHang(BoundsOf(ring), Vertical, subdivisions)
        case Hangs => Hangs
        case Generated(vertical) => Generated(horizontal + vertical)
  }

  /** The box `BoundsOf` folds out of a non-empty ring. */
  function BoxOf(ring: seq<Point>): (b: Box)
    requires |ring| > 0
    ensures WellFormed(b)
    ensures forall p :: p in ring ==> InBox(b, p)
  {
    assert ring[0] in ring;
    BoundsOf(ring).value
  }

  /** Any string other than the three pattern names yields an empty path. */
  lemma UnknownTypeYieldsEmpty(ring: seq<Point>, missionType: string, subdivisions: nat)
    requires subdivisions > 0
    requires missionType != "grid" && missionType != "crosshatch" && missionType != "perimeter"
    ensures GenerateFlightPath(ring, missionType, subdivisions) == Generated([])
  {
  }

  /**
   The perimeter pattern is the ring itself: same length, same order, and
   the closing vertex of the GeoJSON ring is kept.
   */
  lemma PerimeterCopiesRing(ring: seq<Point>, subdivisions: nat)
    requires subdivisions > 0
    ensures var g := GenerateFlightPath(ring, "perimeter", subdivisions);
      && g.Generated?
      && |g.path| == |ring|
      && (forall i :: 0 <= i < |ring| ==> g.path[i] == ring[i])
      && (|ring| > 0 && ring[0] == ring[|ring| - 1] ==> g.path[0] == g.path[|g.path| - 1])
  {
  }

  /**
   The generator fails to return exactly for a swept pattern over a box with
   a zero extent, and that is exactly when one of the sweep loops it runs
   keeps passing its guard `x <= hi` for ever.
   */
  lemma HangsExactly(ring: seq<Point>, missionType: string, subdivisions: nat)
    requires subdivisions > 0
    ensures GenerateFlightPath(ring, missionType, subdivisions).Hangs? <==>
      && |ring| > 0
      && (|| (missionType == "grid" && Extent(BoxOf(ring), Horizontal) == 0.0)
          || (missionType == "crosshatch" &&
                (Extent(BoxOf(ring), Horizontal) == 0.0 || Extent(BoxOf(ring), Vertical) == 0.0)))
    ensures GenerateFlightPath(ring, missionType, subdivisions).Hangs? <==>
      && |ring| > 0
      && (|| (missionType == "grid" && NeverExits(BoxOf(ring), Horizontal, subdivisions))
          || (missionType == "crosshatch" &&
                (NeverExits(BoxOf(ring), Horizontal, subdivisions) || NeverExits(BoxOf(ring), Vertical, subdivisions))))
  {
    if |ring| > 0 {
      NeverExitsIff(BoxOf(ring), Horizontal, subdivisions);
      NeverExitsIff(BoxOf(ring), Vertical, subdivisions);
    }
  }

  /** Over an area of positive height the grid pattern is the horizontal sweep of the ring's box. */
  lemma GridIsHorizontalSweep(ring: seq<Point>, subdivisions: nat)
    requires subdivisions > 0 && |ring| > 0 && Extent(BoxOf(ring), Horizontal) > 0.0
    ensures GenerateFlightPath(ring, "grid", subdivisions) == Generated(Sweep(BoxOf(ring), Horizontal, subdivisions))
  {
  }

  /**
   Grid over an area of positive height: `subdivisions + 1` horizontal
   lines, two waypoints each, the first at `minLat` and the last at
   `maxLat`, every waypoint inside the bounding box of the ring.
   */
  lemma GridLines(ring: seq<Point>, subdivisions: nat)
    requires subdivisions > 0 && |ring| > 0 && Extent(BoxOf(ring), Horizontal) > 0.0
    ensures var g := GenerateFlightPath(ring, "grid", subdivisions);
      var b := BoxOf(ring);
      && g.Generated?
      && |g.path| == 2 * (subdivisions + 1)
      && g.path[0].lat == b.minLat
      && g.path[|g.path| - 1].lat == b.maxLat
      && (forall p :: p in g.path ==> InBox(b, p))
  {
    var b := BoxOf(ring);
    var sw := Sweep(b, Horizontal, subdivisions);
    GridIsHorizontalSweep(ring, subdivisions);
    SweepLines(b, Horizontal, subdivisions);
    assert sw[0].lat == Across(Horizontal, sw[0]);
    assert sw[|sw| - 1].lat == Across(Horizontal, sw[|sw| - 1]);
    SweepInBox(b, Horizontal, subdivisions);
  }

  /**
   Grid line `i` flies at latitude `minLat + i * step`, both of its
   waypoints, where `step` is `StepOf`: the height divided by `subdivisions`.
   */
  lemma GridLatitudes(ring: seq<Point>, subdivisions: nat)
    requires subdivisions > 0 && |ring| > 0 && Extent(BoxOf(ring), Horizontal) > 0.0
    ensures var g := GenerateFlightPath(ring, "grid", subdivisions);
      var b := BoxOf(ring);
      var step := StepOf(b, Horizontal, subdivisions);
      && g.Generated?
      && forall j :: 0 <= j < |g.path| ==> g.path[j].lat == b.minLat + ((j / 2) as real) * step
  {
    GridIsHorizontalSweep(ring, subdivisions);
    HorizontalLatitudes(BoxOf(ring), subdivisions);
  }

  /** `GridLatitudes` for any box of positive height. */
  lemma HorizontalLatitudes(b: Box, subdivisions: nat)
    requires subdivisions > 0 && Extent(b, Horizontal) > 0.0
    ensures var sw := Sweep(b, Horizontal, subdivisions);
      forall j :: 0 <= j < |sw| ==> sw[j].lat == b.minLat + ((j / 2) as real) * StepOf(b, Horizontal, subdivisions)
  {
    var sw := Sweep(b, Horizontal, subdivisions);
    SweepLineCoords(b, Horizontal, subdivisions);
    forall j | 0 <= j < |sw|
      ensures sw[j].lat == b.minLat + ((j / 2) as real) * StepOf(b, Horizontal, subdivisions)
    {
      assert sw[j].lat == Across(Horizontal, sw[j]);
    }
  }

  /**
   Grid directions alternate: line `i` runs from `minLng` to `maxLng` when
   `i` is even and back when it is odd, and each line starts at the
   longitude where the previous one ended.
   */
  lemma GridAlternates(ring: seq<Point>, subdivisions: nat)
    requires subdivisions > 0 && |ring| > 0 && Extent(BoxOf(ring), Horizontal) > 0.0
    ensures var g := GenerateFlightPath(ring, "grid", subdivisions);
      var b := BoxOf(ring);
      && g.Generated?
      && (forall j :: 0 <= j < |g.path| && j % 2 == 0 ==>
            && g.path[j].lng == (if (j / 2) % 2 == 0 then b.minLng else b.maxLng)
            && g.path[j + 1].lng == (if (j / 2) % 2 == 0 then b.maxLng else b.minLng))
      && (forall j :: 0 <= j < |g.path| - 1 && j % 2 == 1 ==> g.path[j].lng == g.path[j + 1].lng)
  {
    var b := BoxOf(ring);
    GridIsHorizontalSweep(ring, subdivisions);
    SweepAlternates(b, Horizontal, subdivisions);
    SweepContinuous(b, Horizontal, subdivisions);
  }

  /**
   Crosshatch is the grid path followed by the vertical sweep, so its
   length is the sum of the two; every waypoint lies in the bounding box.
   */
  lemma CrosshatchIsGridThenVertical(ring: seq<Point>, subdivisions: nat)
    requires subdivisions > 0 && |ring| > 0
    requires Extent(BoxOf(ring), Horizontal) > 0.0 && Extent(BoxOf(ring), Vertical) > 0.0
    ensures var g := GenerateFlightPath(ring, "crosshatch", subdivisions);
      var grid := GenerateFlightPath(ring, "grid", subdivisions);
      var vertical := Sweep(BoxOf(ring), Vertical, subdivisions);
      && g.Generated? && grid.Generated?
      && g.path == grid.path + vertical
      && |g.path| == |grid.path| + |vertical| == 4 * (subdivisions + 1)
      && (forall p :: p in g.path ==> InBox(BoxOf(ring), p))
  {
    var b := BoxOf(ring);
    GridIsHorizontalSweep(ring, subdivisions);
    SweepLines(b, Horizontal, subdivisions);
    SweepLines(b, Vertical, subdivisions);
    SweepInBox(b, Horizontal, subdivisions);
    SweepInBox(b, Vertical, subdivisions);
  }

  /**
   The vertical half of a crosshatch: each line keeps one longitude and
   runs between `minLat` and `maxLat`, bottom to top on even lines and top
   to bottom on odd ones. (`SweepLineCoords` places line `i` at
   `minLng + i * step`.)
   */
  lemma CrosshatchVerticalLines(ring: seq<Point>, subdivisions: nat)
    requires subdivisions > 0 && |ring| > 0 && Extent(BoxOf(ring), Vertical) > 0.0
    ensures var b := BoxOf(ring);
      var vertical := Sweep(b, Vertical, subdivisions);
      forall j :: 0 <= j && j + 1 < |vertical| && j % 2 == 0 ==>
        && vertical[j].lng == vertical[j + 1].lng
        && vertical[j].lat == (if (j / 2) % 2 == 0 then b.minLat else b.maxLat)
        && vertical[j + 1].lat == (if (j / 2) % 2 == 0 then b.maxLat else b.minLat)
  {
    VerticalSweepLines(BoxOf(ring), subdivisions);
  }

  /** `CrosshatchVerticalLines` for any box of positive width. */
  lemma VerticalSweepLines(b: Box, subdivisions: nat)
    requires subdivisions > 0 && Extent(b, Vertical) > 0.0
    ensures var vertical := Sweep(b, Vertical, subdivisions);
      forall j :: 0 <= j && j + 1 < |vertical| && j % 2 == 0 ==>
        && vertical[j].lng == vertical[j + 1].lng
        && vertical[j].lat == (if (j / 2) % 2 == 0 then b.minLat else b.maxLat)
        && vertical[j + 1].lat == (if (j / 2) % 2 == 0 then b.maxLat else b.minLat)
  {
    var vertical := Sweep(b, Vertical, subdivisions);
    LinesAreWaypoints(b, Vertical, StepOf(b, Vertical, subdivisions), subdivisions + 1);
    forall j | 0 <= j && j + 1 < |vertical| && j % 2 == 0
      ensures vertical[j].lng == vertical[j + 1].lng
    {
      assert (j + 1) / 2 == j / 2;
    }
  }

  /** Whatever the pattern, a generated grid or crosshatch waypoint lies in the bounding box. */
  lemma SweptWaypointsInBox(ring: seq<Point>, missionType: string, subdivisions: nat)
    requires subdivisions > 0 && (missionType == "grid" || missionType == "crosshatch")
    ensures var g := GenerateFlightPath(ring, missionType, subdivisions);
      g.Generated? && |g.path| > 0 ==> |ring| > 0 && forall p :: p in g.path ==> InBox(BoxOf(ring), p)
  {
    var g := GenerateFlightPath(ring, missionType, subdivisions);
    if g.Generated? && |g.path| > 0 {
      var b := BoxOf(ring);
      if missionType == "grid" {
        SweepInBox(b, Horizontal, subdivisions);
      } else {
        SweepInBox(b, Horizontal, subdivisions);
        SweepInBox(b, Vertical, subdivisions);
      }
    }
  }

  /**
   The generator as the source runs it: `coordinates.reduce` into the
   bounds, then the string comparisons and the sweep loops. Whenever the
   call returns, it returns what `GenerateFlightPath` describes.
   */
  method RunGenerateFlightPath(ring: seq<Point>, missionType: string, subdivisions: nat := DefaultSubdivisions)
    returns (path: seq<Point>)
    requires subdivisions > 0
    requires GenerateFlightPath(ring, missionType, subdivisions).Generated?
    ensures GenerateFlightPath(ring, missionType, subdivisions) == Generated(path)
  {
    var bounds: Option<Box> := None;
    for k := 0 to |ring|
      invariant bounds == BoundsOf(ring[..k])
    {
      assert ring[..k + 1][..k] == ring[..k];
      bounds := Some(Include(bounds, ring[k]));
    }
    assert ring[..|ring|] == ring;
    path := [];
    if missionType == "grid" {
      if bounds.Some? {
        path := RunSweep(bounds.value, Horizontal, subdivisions);
      }
    } else if missionType == "crosshatch" {
      if bounds.Some? {
        var horizontal := RunSweep(bounds.value, Horizontal, subdivisions);
        var vertical := RunSweep(bounds.value, Vertical, subdivisions);
        path := horizontal + vertical;
      }
    } else if missionType == "perimeter" {
      path := ring;
    }
  }

  /**
   Corrected sweep: a box of zero extent gets the single line at its low
   edge that a positive extent would start with, instead of looping.
   */
  function CoverSweep(b: Box, axis: Axis, subdivisions: nat): (r: seq<Point>)
    requires subdivisions > 0
    ensures Extent(b, axis) <= 0.0 ==>
      r == [At(axis, AlongLo(b, axis), AcrossLo(b, axis)), At(axis, AlongHi(b, axis), AcrossLo(b, axis))]
    ensures Extent(b, axis) > 0.0 ==> |r| == 2 * (subdivisions + 1)
  {
    if Extent(b, axis) > 0.0 then Sweep(b, axis, subdivisions) else Lines(b, axis, 0.0, 1)
  }

  /**
   The generator with the zero-extent loop corrected; it always returns. A
   swept pattern over a non-empty ring is never empty: a box of zero height
   gets one grid line instead of `subdivisions + 1`.
   */
  function PlanFlightPath(ring: seq<Point>, missionType: string, subdivisions: nat := DefaultSubdivisions): (r: seq<Point>)
    requires subdivisions > 0
    ensures PatternOf(missionType).None? ==> r == []
    ensures missionType == "perimeter" ==> r == ring
    ensures |ring| == 0 ==> r == []
    ensures |ring| > 0 && PatternOf(missionType).Some? ==> |r| > 0
    ensures |ring| > 0 && missionType == "grid" ==>
      |r| == if Extent(BoxOf(ring), Horizontal) > 0.0 then 2 * (subdivisions + 1) else 2
    ensures |ring| > 0 && missionType == "grid" && Extent(BoxOf(ring), Horizontal) == 0.0 ==>
      r == [Point(BoxOf(ring).minLng, BoxOf(ring).minLat), Point(BoxOf(ring).maxLng, BoxOf(ring).minLat)]
    ensures |ring| > 0 && missionType == "crosshatch" && Extent(BoxOf(ring), Vertical) == 0.0 ==>
      |r| >= 2 && r[|r| - 2..] == [Point(BoxOf(ring).minLng, BoxOf(ring).minLat), Point(BoxOf(ring).minLng, BoxOf(ring).maxLat)]
  {
    match PatternOf(missionType)
    case None => []
    case Some(Perimeter) => ring
    case Some(Grid) => if |ring| == 0 then [] else CoverSweep(BoxOf(ring), Horizontal, subdivisions)
    case Some(Crosshatch) =>
      if |ring| == 0 then []
      else CoverSweep(BoxOf(ring), Horizontal, subdivisions) + CoverSweep(BoxOf(ring), Vertical, subdivisions)
  }

  /**
   A ring of several vertices on one latitude makes the grid generator loop
   forever: its latitude loop passes `lat <= maxLat` after any number of steps.
   */
  lemma ZeroHeightGridHangs()
    ensures var ring := [Point(0.0, 5.0), Point(5.0, 5.0), Point(10.0, 5.0), Point(0.0, 5.0)];
      && GenerateFlightPath(ring, "grid") == Hangs
      && NeverExits(BoxOf(ring), Horizontal, DefaultSubdivisions)
  {
    var ring := [Point(0.0, 5.0), Point(5.0, 5.0), Point(10.0, 5.0), Point(0.0, 5.0)];
    assert BoxOf(ring).minLat == BoxOf(ring).maxLat;
    NeverExitsIff(BoxOf(ring), Horizontal, DefaultSubdivisions);
  }

  /**
   A ring of several vertices on one longitude makes the crosshatch
   generator loop forever in its vertical sweep: `lng <= maxLng` passes
   after any number of steps.
   */
  lemma ZeroWidthCrosshatchHangs()
    ensures var ring := [Point(3.0, 0.0), Point(3.0, 5.0), Point(3.0, 10.0), Point(3.0, 0.0)];
      && GenerateFlightPath(ring, "crosshatch") == Hangs
      && NeverExits(BoxOf(ring), Vertical, DefaultSubdivisions)
  {
    var ring := [Point(3.0, 0.0), Point(3.0, 5.0), Point(3.0, 10.0), Point(3.0, 0.0)];
    assert BoxOf(ring).minLng == BoxOf(ring).maxLng;
    NeverExitsIff(BoxOf(ring), Vertical, DefaultSubdivisions);
  }

  /** On the ring that hangs the grid generator, the corrected one flies its single line. */
  lemma ZeroHeightGridPlanned()
    ensures PlanFlightPath([Point(0.0, 5.0), Point(5.0, 5.0), Point(10.0, 5.0), Point(0.0, 5.0)], "grid")
      == [Point(0.0, 5.0), Point(10.0, 5.0)]
  {
    var ring := [Point(0.0, 5.0), Point(5.0, 5.0), Point(10.0, 5.0), Point(0.0, 5.0)];
    assert BoxOf(ring) == Box(0.0, 10.0, 5.0, 5.0);
  }

  /**
   On the ring that hangs the crosshatch generator, the corrected one flies
   the eleven horizontal lines and then the single vertical line, bottom to top.
   */
  lemma ZeroWidthCrosshatchPlanned()
    ensures var plan := PlanFlightPath([Point(3.0, 0.0), Point(3.0, 5.0), Point(3.0, 10.0), Point(3.0, 0.0)], "crosshatch");
      |plan| == 24 && plan[22..] == [Point(3.0, 0.0), Point(3.0, 10.0)]
  {
    var ring := [Point(3.0, 0.0), Point(3.0, 5.0), Point(3.0, 10.0), Point(3.0, 0.0)];
    var b := Box(3.0, 3.0, 0.0, 10.0);
    assert BoxOf(ring) == b;
    assert CoverSweep(b, Vertical, DefaultSubdivisions) == [Point(3.0, 0.0), Point(3.0, 10.0)];
  }

  /**
   The corrected generator returns exactly what the original returns
   whenever the original returns at all.
   */
  lemma PlanAgreesWhenGenerated(ring: seq<Point>, missionType: string, subdivisions: nat)
    requires subdivisions > 0
    ensures GenerateFlightPath(ring, missionType, subdivisions).Generated? ==>
      GenerateFlightPath(ring, missionType, subdivisions).path == PlanFlightPath(ring, missionType, subdivisions)
  {
  }

  /**
   The corrected generator never leaves the bounding box and, for any of the
   three pattern names and any non-empty ring, never returns an empty path.
   */
  lemma PlanCoversNonEmptyRing(ring: seq<Point>, missionType: string, subdivisions: nat)
    requires subdivisions > 0 && |ring| > 0
    requires missionType == "grid" || missionType == "crosshatch" || missionType == "perimeter"
    ensures |PlanFlightPath(ring, missionType, subdivisions)| > 0
    ensures missionType != "perimeter" ==>
      forall p :: p in PlanFlightPath(ring, missionType, subdivisions) ==> InBox(BoxOf(ring), p)
  {
    var b := BoxOf(ring);
    if missionType != "perimeter" {
      CoverSweepInBox(b, Horizontal, subdivisions);
      CoverSweepInBox(b, Vertical, subdivisions);
    }
  }

  lemma CoverSweepInBox(b: Box, axis: Axis, subdivisions: nat)
    requires subdivisions > 0 && WellFormed(b)
    ensures |CoverSweep(b, axis, subdivisions)| > 0
    ensures forall p :: p in CoverSweep(b, axis, subdivisions) ==> InBox(b, p)
  {
    if Extent(b, axis) > 0.0 {
      SweepInBox(b, axis, subdivisions);
    } else {
      match axis
      case Horizontal =>
      case Vertical =>
    }
  }

  /** The closed GeoJSON ring of the square with corners (0, 0) and (10, 10). */
  const Square: seq<Point> := [Point(0.0, 0.0), Point(10.0, 0.0), Point(10.0, 10.0), Point(0.0, 10.0), Point(0.0, 0.0)]

  lemma SquareBounds()
    ensures BoundsOf(Square) == Some(Box(0.0, 10.0, 0.0, 10.0))
  {
    assert Square[..1] == [Point(0.0, 0.0)];
    assert Square[..2][..1] == Square[..1];
    assert Square[..3][..2] == Square[..2];
    assert Square[..4][..3] == Square[..3];
    assert Square[..5][..4] == Square[..4];
    assert Square[..5] == Square;
  }

  /**
   The grid over any ring whose bounds are the square with corners (0, 0)
   and (10, 10): eleven lines at latitudes 0, 1, ..., 10 and 22 waypoints,
   flying (0, y) to (10, y) on even lines and back on odd ones.
   */
  lemma SquareGridScenario(ring: seq<Point>)
    requires |ring| > 0 && BoxOf(ring) == Box(0.0, 10.0, 0.0, 10.0)
    ensures var g := GenerateFlightPath(ring, "grid");
      && g.Generated?
      && |g.path| == 22
      && (forall j :: 0 <= j < 22 ==>
            g.path[j] == Point(if (j / 2) % 2 == j % 2 then 0.0 else 10.0, (j / 2) as real))
  {
    SquareGridLatitudes(ring);
    SquareGridLongitudes(ring);
  }

  lemma SquareGridLatitudes(ring: seq<Point>)
    requires |ring| > 0 && BoxOf(ring) == Box(0.0, 10.0, 0.0, 10.0)
    ensures var g := GenerateFlightPath(ring, "grid");
      g.Generated? && |g.path| == 22 && forall j :: 0 <= j < 22 ==> g.path[j].lat == (j / 2) as real
  {
    GridIsHorizontalSweep(ring, 10);
    UnitStepLatitudes(BoxOf(ring));
  }

  /** A horizontal sweep in ten parts of a box from latitude 0 to 10 steps by whole degrees. */
  lemma UnitStepLatitudes(b: Box)
    requires b.minLat == 0.0 && b.maxLat == 10.0
    ensures var r := Sweep(b, Horizontal, 10);
      forall j :: 0 <= j < 22 ==> r[j].lat == (j / 2) as real
  {
    assert StepOf(b, Horizontal, 10) == 1.0;
    LinesAreWaypoints(b, Horizontal, 1.0, 11);
    forall j | 0 <= j < 22
      ensures Waypoint(b, Horizontal, 1.0, j).lat == (j / 2) as real
    {
      LineCoordClosedForm(0.0, 1.0, j / 2);
    }
  }

  lemma SquareGridLongitudes(ring: seq<Point>)
    requires |ring| > 0 && BoxOf(ring) == Box(0.0, 10.0, 0.0, 10.0)
    ensures var g := GenerateFlightPath(ring, "grid");
      g.Generated? && |g.path| == 22 &&
      forall j :: 0 <= j < 22 ==> g.path[j].lng == if (j / 2) % 2 == j % 2 then 0.0 else 10.0
  {
    GridIsHorizontalSweep(ring, 10);
    UnitBoxLongitudes(BoxOf(ring));
  }

  /** A horizontal sweep in ten parts of a box from longitude 0 to 10 flies (0, y) to (10, y) and back. */
  lemma UnitBoxLongitudes(b: Box)
    requires b.minLng == 0.0 && b.maxLng == 10.0 && b.maxLat - b.minLat > 0.0
    ensures var r := Sweep(b, Horizontal, 10);
      |r| == 22 && forall j :: 0 <= j < 22 ==> r[j].lng == if (j / 2) % 2 == j % 2 then 0.0 else 10.0
  {
    var r := Sweep(b, Horizontal, 10);
    LinesAreWaypoints(b, Horizontal, StepOf(b, Horizontal, 10), 11);
    forall j | 0 <= j < 22
      ensures r[j].lng == if (j / 2) % 2 == j % 2 then 0.0 else 10.0
    {
      assert r[j] == Waypoint(b, Horizontal, StepOf(b, Horizontal, 10), j);
    }
  }

  /** The closed square ring has exactly those bounds. */
  lemma SquareHasUnitBounds()
    ensures BoxOf(Square) == Box(0.0, 10.0, 0.0, 10.0)
  {
    SquareBounds();
  }

  /** The grid over the closed square ring itself. */
  lemma SquareGrid()
    ensures var g := GenerateFlightPath(Square, "grid");
      && g.Generated?
      && |g.path| == 22
      && (forall j :: 0 <= j < 22 ==>
            g.path[j] == Point(if (j / 2) % 2 == j % 2 then 0.0 else 10.0, (j / 2) as real))
  {
    SquareHasUnitBounds();
    SquareGridScenario(Square);
  }

  /** The perimeter over the square is the closed ring itself. */
  lemma SquarePerimeterScenario()
    ensures GenerateFlightPath(Square, "perimeter") ==
      Generated([Point(0.0, 0.0), Point(10.0, 0.0), Point(10.0, 10.0), Point(0.0, 10.0), Point(0.0, 0.0)])
  {
  }
}
