/**
 The part of the `MapView` component (components/map-view.tsx) that owns
 the survey area and the flight path: generating, drawing, clearing and
 deleting, and the status line under the pattern indicator.

 `surveyArea` holds the exterior ring of the drawn polygon's GeoJSON
 (`geometry.coordinates[0]`), or `None` for `null`. Generation uses the
 corrected generator `PlanFlightPath`, which returns where the source's
 loop would spin on a box of zero height or width.

 The component defines the generate handler but nothing calls it, so the
 `Generate` event is what that handler would do once wired to a control.
 */
module MapView {
  import opened Wrappers
  import opened Geometry
  import opened FlightPath

  datatype MapState = MapState(surveyArea: Option<seq<Point>>, flightPath: seq<Point>)

  /** The state the component mounts with: no area, no path. */
  const Initial := MapState(None, [])

  /**
   The "generate" action. Without a survey area the handler returns
   before touching anything; otherwise the path is replaced by the one
   generated for the area's ring, and the area is kept.
   */
  function OnGenerate(s: MapState, missionType: string, subdivisions: nat := DefaultSubdivisions): (r: MapState)
    requires subdivisions > 0
    ensures r.surveyArea == s.surveyArea
    ensures s.surveyArea.None? ==> r.flightPath == s.flightPath
    ensures s.surveyArea.Some? ==> r.flightPath == PlanFlightPath(s.surveyArea.value, missionType, subdivisions)
  {
    match s.surveyArea
    case None => s
    case Some(ring) => s.(flightPath := PlanFlightPath(ring, missionType, subdivisions))
  }

  /**
   A shape finished in the draw control. Only a polygon becomes the survey
   area; the existing flight path is left as it is.
   */
  function OnCreated(s: MapState, layerType: string, ring: seq<Point>): (r: MapState)
    ensures r.flightPath == s.flightPath
    ensures layerType == "polygon" ==> r.surveyArea == Some(ring)
    ensures layerType != "polygon" ==> r == s
  {
    if layerType == "polygon" then s.(surveyArea := Some(ring)) else s
  }

  /**
   The "clear area" button and the draw control's delete event: both
   handlers drop the area and the path, so one function serves both.
   */
  function OnClear(s: MapState): (r: MapState)
    ensures r.surveyArea.None? && r.flightPath == []
  {
    MapState(None, [])
  }

  /** The three texts of the status line under the pattern indicator. */
  datatype StatusLine = DrawAreaToStart | ReadyToGenerate | Waypoints(count: nat)

  /**
   The status line: without an area it asks for one; with an area it
   shows the waypoint count once a path exists and "ready" before that.
   */
  function Status(s: MapState): (r: StatusLine)
    ensures r == DrawAreaToStart <==> s.surveyArea.None?
    ensures r == ReadyToGenerate <==> s.surveyArea.Some? && s.flightPath == []
    ensures r.Waypoints? ==> r.count == |s.flightPath| > 0
  {
    if s.surveyArea.None? then DrawAreaToStart
    else if |s.flightPath| > 0 then Waypoints(|s.flightPath|)
    else ReadyToGenerate
  }

  datatype Event =
    | Generate(missionType: string)
    | Created(layerType: string, ring: seq<Point>)
    | Clear
    | Deleted

  function Apply(s: MapState, e: Event): MapState {
    match e
    case Generate(missionType) => OnGenerate(s, missionType)
    case Created(layerType, ring) => OnCreated(s, layerType, ring)
    case Clear => OnClear(s)
    case Deleted => OnClear(s)
  }

  function Run(s: MapState, events: seq<Event>): MapState
    decreases |events|
  {
    if |events| == 0 then s else Run(Apply(s, events[0]), events[1..])
  }

  /** A flight path exists only while a survey area does. */
  predicate Consistent(s: MapState) {
    s.surveyArea.None? ==> s.flightPath == []
  }

  /** Every event keeps a consistent state consistent. */
  lemma ApplyPreservesConsistent(s: MapState, e: Event)
    requires Consistent(s)
    ensures Consistent(Apply(s, e))
  {
  }

  /** Any sequence of events keeps a consistent state consistent. */
  lemma {:induction false} ReachableConsistent(events: seq<Event>, s: MapState)
    requires Consistent(s)
    ensures Consistent(Run(s, events))
    decreases |events|
  {
    if |events| > 0 {
      ApplyPreservesConsistent(s, events[0]);
      ReachableConsistent(events[1..], Apply(s, events[0]));
    }
  }

  /**
   Every state the component reaches from mounting, whatever the events,
   is consistent: the mount state has neither area nor path.
   */
  lemma MountedConsistent(events: seq<Event>)
    ensures Consistent(Initial)
    ensures Consistent(Run(Initial, events))
  {
    ReachableConsistent(events, Initial);
  }

  /**
   In a consistent state the status line never hides a path: it shows the
   waypoint count exactly when there is a path.
   */
  lemma StatusReflectsState(s: MapState)
    requires Consistent(s)
    ensures Status(s).Waypoints? <==> |s.flightPath| > 0
  {
  }

  /** Generating twice for the same area and pattern is the same as generating once. */
  lemma GenerateIdempotent(s: MapState, missionType: string)
    ensures OnGenerate(OnGenerate(s, missionType), missionType) == OnGenerate(s, missionType)
  {
  }

  /** After clearing or deleting, generating is refused and changes nothing. */
  lemma NoAreaNoPath(s: MapState, missionType: string)
    ensures OnGenerate(OnClear(s), missionType) == Initial
    ensures Status(OnClear(s)) == DrawAreaToStart
  {
  }

  /**
   Drawing a polygon and generating one of the three patterns over it
   always leaves a non-empty path, and the status line shows its length.
   */
  lemma DrawThenGenerateShowsWaypoints(s: MapState, ring: seq<Point>, missionType: string)
    requires |ring| > 0
    requires missionType == "grid" || missionType == "crosshatch" || missionType == "perimeter"
    ensures var r := OnGenerate(OnCreated(s, "polygon", ring), missionType);
      && |r.flightPath| > 0
      && Status(r) == Waypoints(|r.flightPath|)
  {
    PlanCoversNonEmptyRing(ring, missionType, DefaultSubdivisions);
  }
}
