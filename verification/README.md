# Drone survey dashboard: flight-path generator and mission logic in Dafny

This project models the computational core of a browser dashboard for
planning and monitoring drone survey missions. The model is written and
verified in Dafny.

- **Coverage flight-path generator** (`generateFlightPath` in
  `components/map-view.tsx`). It folds the exterior ring of the drawn survey
  polygon into a bounding box. Then, by mission type:
  - `"grid"` emits a horizontal boustrophedon (back-and-forth) sweep.
  - `"crosshatch"` emits the same sweep followed by a vertical one.
  - `"perimeter"` copies the ring.
  - Any other string gives an empty path.

  The map component also holds the survey area and the flight path. It
  clears them and shows a one-line status under the pattern indicator.
  Nothing in the code calls `generateFlightPath`: no element of the map
  refers to it, and the planner's "Generate Flight Path" button
  (components/mission-planner.tsx:56-64) only shows a toast. The generator,
  its defects (see Findings) and `MapView`'s Generate event therefore
  describe a handler that no user action reaches yet.
- **Mission state machines**:
  - The mission list (`components/active-missions.tsx`) pauses, resumes and
    aborts missions by id.
  - The mission page (`components/mission-details.tsx`) adds a progress
    counter that ticks while the mission is in progress.
  - Both offer controls per status.
- **Fleet logic** (`components/fleet-management.tsx`,
  `components/drone-status-overview.tsx`): the search and status filter, the
  battery colour bands, and the condition that disables "Assign Mission".

Modules follow the source files:

| module | contents |
|---|---|
| `Geometry` | points, boxes, the bounds fold |
| `Boustrophedon` | the sweep shared by grid and crosshatch, and the source's loop as a method |
| `FlightPath` | the generator as written, the corrected generator, and their properties |
| `MapView` | survey-area and flight-path state, events, status line |
| `ActiveMissions` | mission list transitions and card controls |
| `MissionDetails` | single-mission status, progress tick, page controls |
| `FleetManagement` | drone filter, battery colour, assign condition |
| `DroneStatusOverview` | the dashboard cards' copies of the colour and assign rules |

Coordinates are exact `real` pairs `Point(lng, lat)`. The source's
`for (lat = minLat; lat <= maxLat; lat += latStep)` is modelled twice:
- `Boustrophedon.RunSweep` accumulates `x := x + step` exactly like the
  source loop.
- `Boustrophedon.Sweep` is a reference definition with line `i` at
  `lo + i * step`.

They are proved equal. With exact arithmetic and `n` subdivisions there
are `n + 1` lines. The source's fixed 10 becomes the parameter
`subdivisions`, which defaults to `DefaultSubdivisions = 10`.

The source's sweep loop never ends when its step is zero. This happens
when the box has zero height, or zero width for the vertical half of a
crosshatch. `FlightPath.GenerateFlightPath` models the code as written and
reports that outcome as `Hangs`. `Boustrophedon.NeverExits` states the
non-termination itself: the guard `x <= hi` still holds after any number
of `x += step`. `FlightPath.HangsExactly` proves that `Hangs` occurs
exactly when one of the loops the call runs never exits. `FlightPath.PlanFlightPath` is the
corrected generator (see Findings), and `MapView` uses it.

What the generator does with unusual input:
- For perimeter it returns the ring as it is, closing vertex included.
- It has no error results. Without an area the handler shows a toast and
  returns, leaving the state unchanged.
- A ring of any length is processed, and an empty ring gives an empty path
  for every pattern.
- The mission type is an open string. An unknown value yields an empty
  path.
- Nothing caps the subdivision count.

## Model

| member | source | states |
|---|---|---|
| `Geometry.Include` | components/map-view.tsx:69-82 | The first step from the infinite seed gives the point's own degenerate box. Every later step takes `Math.min` of each minimum with the coordinate and `Math.max` of each maximum, so the box holds the new coordinate and the previous box. |
| `Geometry.BoundsOf` | components/map-view.tsx:67-83 | The fold is the seed only for the empty ring. Otherwise the minima never exceed the maxima and every ring vertex lies inside the box. Each of minLng, maxLng, minLat and maxLat is attained by some vertex. |
| `Boustrophedon.LineCoordClosedForm` | components/map-view.tsx:93 | After `i` executions of `lat += latStep`, the loop variable is exactly `minLat + i * latStep`. |
| `Boustrophedon.GuardExact` | components/map-view.tsx:93 | With positive height, line `i` passes the guard `lat <= maxLat` exactly when `i <= n`, so the loop runs `n + 1` times. |
| `Boustrophedon.NeverExitsIff` | components/map-view.tsx:89-92 | Over a well-formed box, the loop guard holds after every number of steps exactly when the extent is zero. A zero extent gives a zero step, so `x` stays at `lo == hi`; a positive extent fails the guard on line `n + 1`. |
| `Boustrophedon.LinesAreWaypoints` | components/map-view.tsx:93-102 | The path built line by line equals the closed-form reference waypoint by waypoint. Waypoint `j` lies on line `j / 2`, and its end is fixed by the parity of the line. |
| `Boustrophedon.RunSweep` | components/map-view.tsx:93-102 | The source loop returns exactly the reference sweep. It pushes two ends per line in the order `goingRight` picks and flips the flag each line. |
| `Boustrophedon.SweepLines` | components/map-view.tsx:90-102 | A sweep has `2 * (n + 1)` waypoints. The first line lies at the low edge and the last exactly at the high edge. |
| `Boustrophedon.SweepLineCoords` | components/map-view.tsx:93-100 | Both waypoints of line `i` share the across coordinate `lo + i * step`. |
| `Boustrophedon.SweepInBox` | components/map-view.tsx:88-132 | Every waypoint of a sweep lies in the bounding box. |
| `Boustrophedon.SweepAlternates` | components/map-view.tsx:91-101 | Even lines run from the low end to the high end. Odd lines run back. |
| `Boustrophedon.SweepContinuous` | components/map-view.tsx:91-101 | Each line starts at the end where the previous line finished. |
| `FlightPath.GenerateFlightPath` | components/map-view.tsx:66-136 | An unknown mission type and an empty ring both give the empty path. Perimeter gives the ring itself. |
| `FlightPath.PatternOf` | components/map-view.tsx:88-133 | Only the exact strings "grid", "crosshatch" and "perimeter" select a pattern, and each selects its own. |
| `FlightPath.UnknownTypeYieldsEmpty` | components/map-view.tsx:86-136 | Any other mission type yields the empty path. |
| `FlightPath.PerimeterCopiesRing` | components/map-view.tsx:133-136 | Perimeter returns the ring itself. It has the same length and order, and the closing vertex is kept. |
| `FlightPath.HangsExactly` | components/map-view.tsx:88-132 | The call fails to return exactly in two cases. One is grid over a non-empty ring with zero height. The other is crosshatch over a non-empty ring with zero height or zero width. Equivalently, `Hangs` holds exactly when the latitude loop (grid), or the latitude or the longitude loop (crosshatch), passes its guard after every number of steps (`NeverExits`). |
| `FlightPath.GridIsHorizontalSweep` | components/map-view.tsx:88-102 | With positive height, grid is the horizontal sweep of the ring's box. |
| `FlightPath.GridLines` | components/map-view.tsx:88-102 | Grid has `2 * (n + 1)` waypoints (22 for the default 10). The path starts at minLat, ends at maxLat and stays inside the box. |
| `FlightPath.GridLatitudes` | components/map-view.tsx:90-97 | Waypoint `j` of grid has latitude `minLat + (j / 2) * step`, where `step` is the height divided by `n`. |
| `FlightPath.GridAlternates` | components/map-view.tsx:91-101 | Grid line `i` runs minLng→maxLng for even `i` and maxLng→minLng for odd `i`. Each line starts at the longitude where the previous one ended. |
| `FlightPath.CrosshatchIsGridThenVertical` | components/map-view.tsx:103-132 | Crosshatch is the grid path followed by the vertical sweep, so its length is the sum of the two. Every waypoint lies in the box. |
| `FlightPath.CrosshatchVerticalLines` | components/map-view.tsx:121-132 | Each vertical line keeps one longitude. Even lines go minLat→maxLat and odd lines go back. |
| `FlightPath.SweptWaypointsInBox` | components/map-view.tsx:88-132 | Any non-empty grid or crosshatch path that is returned lies inside the bounds of its ring. |
| `FlightPath.RunGenerateFlightPath` | components/map-view.tsx:66-136 | The reduce, the string dispatch and the loops, run as the source runs them, return what `GenerateFlightPath` describes whenever they return. |
| `FlightPath.SquareBounds` | components/map-view.tsx:67-83 | The closed square ring from (0,0) to (10,10) folds to the box [0,10]×[0,10]. |
| `FlightPath.SquareGridScenario` | components/map-view.tsx:88-102 | Any ring with that box gets 22 grid waypoints at latitudes 0..10. The path goes (0,y)→(10,y) on even lines and back on odd lines. |
| `FlightPath.SquareGrid` | components/map-view.tsx:88-102 | The same 22 waypoints come out for the closed square ring itself. |
| `FlightPath.SquarePerimeterScenario` | components/map-view.tsx:133-136 | Perimeter over the square returns its five closed-ring vertices. |
| `FlightPath.ZeroHeightGridHangs` | components/map-view.tsx:90-93 | A ring whose vertices share one latitude makes grid report `Hangs`, and its latitude loop passes `lat <= maxLat` after every number of steps. |
| `FlightPath.ZeroWidthCrosshatchHangs` | components/map-view.tsx:106-123 | A ring whose vertices share one longitude makes crosshatch report `Hangs`, and its longitude loop passes `lng <= maxLng` after every number of steps. |
| `FlightPath.PlanFlightPath` | components/map-view.tsx:86-136 | The corrected generator keeps the source's answers for unknown types, empty rings and perimeter. A known pattern over a non-empty ring is never empty. Grid has `2 * (n + 1)` waypoints over a box of positive height. Over a flat box, grid is exactly the line from (minLng, minLat) to (maxLng, minLat). Over a box of zero width, crosshatch ends with exactly the line from (minLng, minLat) to (minLng, maxLat). |
| `FlightPath.CoverSweep` | components/map-view.tsx:88-132 | The corrected sweep over a zero extent is exactly the one line at the low edge, from the low to the high end. Over a positive extent it keeps the source's `2 * (n + 1)` waypoints. |
| `FlightPath.PlanAgreesWhenGenerated` | components/map-view.tsx:86-136 | Whenever the source's generator returns, the corrected generator returns the same path. |
| `FlightPath.ZeroHeightGridPlanned` | components/map-view.tsx:90-104 | On the same one-latitude ring, the corrected grid is the single line from (0,5) to (10,5). |
| `FlightPath.ZeroWidthCrosshatchPlanned` | components/map-view.tsx:106-123 | On the same one-longitude ring, the corrected crosshatch has 24 waypoints. It ends with the single vertical line from (3,0) to (3,10). |
| `FlightPath.PlanCoversNonEmptyRing` | components/map-view.tsx:86-136 | For the three pattern names and a non-empty ring, the corrected generator returns a non-empty path. Its grid and crosshatch waypoints stay in the box. |
| `MapView.OnGenerate` | components/map-view.tsx:56-138 | Without an area the path is left as it was. Otherwise the path is replaced by the generated one, and the area is kept. |
| `MapView.OnCreated` | components/map-view.tsx:178-191 | Only a polygon layer becomes the survey area. The existing path is kept, and other layer types change nothing. |
| `MapView.OnClear` | components/map-view.tsx:146-163 | Clearing leaves no area and an empty path. Deleting the drawn shape (components/map-view.tsx:193-196) does exactly the same. |
| `MapView.ApplyPreservesConsistent` | components/map-view.tsx:56-196 | No event creates a path without an area. |
| `MapView.ReachableConsistent` | components/map-view.tsx:56-196 | Any sequence of events from a consistent state stays consistent. |
| `MapView.MountedConsistent` | components/map-view.tsx:28-29 | The mount state has no area and no path, so it is consistent, and so is every state reached from it by any events. |
| `MapView.Status` | components/map-view.tsx:307-311 | "Draw an area" exactly when there is no area. "Ready" exactly when there is an area and no path. A waypoint count is always the path's positive length. |
| `MapView.StatusReflectsState` | components/map-view.tsx:307-311 | In a consistent state the status line shows the path length exactly when a path exists. |
| `MapView.GenerateIdempotent` | components/map-view.tsx:56-138 | Generating twice with the same mission type is the same as generating once. |
| `MapView.NoAreaNoPath` | components/map-view.tsx:56-64 | After clear or delete, generating is refused and the state stays empty. |
| `MapView.DrawThenGenerateShowsWaypoints` | components/map-view.tsx:56-143 | Drawing a polygon and generating one of the three patterns gives a non-empty path, and the status line shows its length. |
| `ActiveMissions.SetStatus` | components/active-missions.tsx:68-93 | The map over the list keeps length and order. It rewrites the status of exactly the missions with the matching id and keeps every other mission unchanged. |
| `ActiveMissions.Pause` | components/active-missions.tsx:68-74 | Same length. A mission with the id becomes paused with every other field kept; every other mission is kept. |
| `ActiveMissions.Resume` | components/active-missions.tsx:76-84 | Same length. A mission with the id goes back in progress with every other field kept; every other mission is kept. |
| `ActiveMissions.Abort` | components/active-missions.tsx:86-93 | Same length. A mission with the id becomes aborted with every other field kept; every other mission is kept. |
| `ActiveMissions.PauseChangesOnlyStatus` | components/active-missions.tsx:68-74 | Pause sets only the matching missions to paused. No other field and no other mission changes. |
| `ActiveMissions.ResumeChangesOnlyStatus` | components/active-missions.tsx:76-84 | Resume sets only the matching missions to in-progress. No other field and no other mission changes. |
| `ActiveMissions.AbortChangesOnlyStatus` | components/active-missions.tsx:86-93 | Abort sets only the matching missions to aborted. No other field and no other mission changes. |
| `ActiveMissions.UnknownIdIsIdentity` | components/active-missions.tsx:68-93 | An id that matches no mission leaves the list identical. |
| `ActiveMissions.SetStatusIdempotent` | components/active-missions.tsx:68-74 | Applying the same transition twice equals applying it once, so pausing twice is pausing once. |
| `ActiveMissions.ResumeUndoesPause` | components/active-missions.tsx:68-84 | If the matching missions are in progress, resuming after pausing restores the original list. |
| `ActiveMissions.Controls` | components/active-missions.tsx:151-173 | A card shows Pause exactly when in progress, Resume exactly when paused, and Abort exactly when in progress or paused. |
| `ActiveMissions.ControlsAreLiveTransitions` | components/active-missions.tsx:151-173 | A card offers a control exactly when the mission is not completed or aborted and the control would change its status. |
| `ActiveMissions.TerminalOffersNothing` | components/active-missions.tsx:151-173 | A card offers no status control exactly when the mission is completed or aborted. |
| `ActiveMissions.OfferedControlOutcome` | components/active-missions.tsx:151-173 | After Pause the card offers Resume, after Resume it offers Pause, and after Abort it offers nothing. |
| `MissionDetails.Tick` | components/mission-details.tsx:82-90 | A tick never lowers progress and never takes it past 100. It changes progress, by exactly one, only while the mission is in progress below 100, and it never changes the status. |
| `MissionDetails.TicksReachHundred` | components/mission-details.tsx:82-90 | From progress `p`, `k` ticks give `min(p + k, 100)`. The status stays in progress and never becomes completed. |
| `MissionDetails.MountedMissionReachesHundred` | components/mission-details.tsx:26-27 | The page mounts in progress at 35%, so its timer is installed. Left alone it shows 99% after 64 ticks and 100% after 65, still in progress. |
| `MissionDetails.StoppedMissionsFreeze` | components/mission-details.tsx:82-90 | Paused, completed and aborted missions do not advance, however many ticks pass. |
| `MissionDetails.Pause` | components/mission-details.tsx:92-98 | Pause sets the status to paused and leaves progress untouched. |
| `MissionDetails.Resume` | components/mission-details.tsx:100-106 | Resume sets the status to in-progress and leaves progress untouched. |
| `MissionDetails.Abort` | components/mission-details.tsx:108-115 | Abort sets the status to aborted and leaves progress untouched. |
| `MissionDetails.ResumeUndoesPause` | components/mission-details.tsx:92-106 | For a mission in progress, resuming after pausing restores the state. |
| `MissionDetails.PageControls` | components/mission-details.tsx:191-209 | The page shows Pause Mission exactly when in progress, Resume Mission exactly when paused, and Abort Mission exactly when in progress or paused. |
| `MissionDetails.PageControlsMatchList` | components/mission-details.tsx:191-209 | The page offers the same controls as a list card. No controls are offered exactly for completed or aborted missions. |
| `MissionDetails.PressOffered` | components/mission-details.tsx:191-209 | Every offered control changes the status and keeps the progress. Pause and Abort stop the ticking. Resume restarts it unless progress is already 100. |
| `FleetManagement.Lower` | components/fleet-management.tsx:146-148 | Lower-casing keeps the length and maps each character independently. |
| `FleetManagement.LowerIdempotent` | components/fleet-management.tsx:146-148 | No upper-case letter is left, so lower-casing twice changes nothing. |
| `FleetManagement.Includes` | components/fleet-management.tsx:146-148 | A needle that is a prefix of the text is included, and an included needle is never longer than the text. |
| `FleetManagement.IncludesIff` | components/fleet-management.tsx:146-148 | `includes` holds exactly when some position of the text holds the query. |
| `FleetManagement.FilterDrones` | components/fleet-management.tsx:144-153 | A drone is kept exactly when the lower-cased query occurs in its lower-cased name, model or location, and the status filter is null or equals its status. Every copy of a matching record is kept and no copy of another. |
| `FleetManagement.FilterPreservesOrder` | components/fleet-management.tsx:144-153 | The result is the fleet list with elements deleted and the rest kept in their order. |
| `FleetManagement.EmptyQueryKeepsAll` | components/fleet-management.tsx:144-153 | An empty query with no status filter keeps every drone, in order. |
| `FleetManagement.FilterIdempotent` | components/fleet-management.tsx:144-153 | Filtering the filtered list again with the same settings changes nothing. |
| `FleetManagement.BatteryColorOf` | components/fleet-management.tsx:172-176 | Green iff battery > 70. Yellow iff 30 < battery ≤ 70. Red iff battery ≤ 30. Exactly one applies. |
| `FleetManagement.BatteryColorMonotone` | components/fleet-management.tsx:172-176 | More charge never shows a worse colour. |
| `FleetManagement.AssignDisabled` | components/fleet-management.tsx:399-403 | "Assign Mission" is disabled exactly unless the drone is online and available or charging. The table view repeats the condition at lines 490-494. |
| `DroneStatusOverview.BatteryColorOf` | components/drone-status-overview.tsx:104-108 | Green iff battery > 70. Yellow iff 30 < battery ≤ 70. Red iff battery ≤ 30. Exactly one applies. |
| `DroneStatusOverview.AssignDisabled` | components/drone-status-overview.tsx:159-161 | The card's "Assign Mission" is disabled exactly unless the drone is online and available or charging. |
| `DroneStatusOverview.AgreesWithFleet` | components/drone-status-overview.tsx:104-161 | The dashboard card and the fleet page give the same drone the same colour and the same assign condition. |

## Left out

- Leaflet and react-leaflet rendering are not modelled: dynamic imports, icon setup, tile layers, markers, the polyline, the pattern icon and the draw-mode and map-style toggles (components/map-view.tsx:10-53, 165-176, 198-298; components/mission-details.tsx:13-79, 134-160 and the page body). These are foreign UI libraries with no logic of the core.
- The draw control's private `_toolbars.edit._featureGroup.clearLayers()` in `clearArea` is left out (components/map-view.tsx:147-154). It belongs to a third-party object graph; only the resulting empty area and path are modelled.
- Toast notifications are left out everywhere. They are user-facing side effects. The waypoint count they report is `|path|`.
- The `setInterval` timer of the mission page is not modelled (components/mission-details.tsx:84-88). Timers are concurrency; only the step a tick performs is modelled (`MissionDetails.Tick`).
- IEEE-754 arithmetic is not modelled, because coordinates are exact reals. With doubles, the accumulated `lat += latStep` can round past `maxLat` and drop the last line, giving 10 lines instead of 11. A step too small to change `lat` also never ends the loop. NaN and infinite coordinates do not exist in the model.
- The survey area is modelled as the exterior ring `geometry.coordinates[0]` of its GeoJSON feature. The source reads nothing else of it, and polygon holes are ignored by the source as well.
- `FleetManagement.Lower`: folds only the ASCII letters A–Z. JavaScript's `toLowerCase` folds all of Unicode; this model does not include Unicode case tables.
- `FleetManagement.FilterDrones`: the status filter is an optional drone status. In the source it is a `string | null` tested for truthiness. The dropdown only ever sets `null` or one of the four statuses.
- `MapView.OnGenerate`: uses the corrected generator. On an area of zero height, or zero width for crosshatch, it returns a one-line sweep where the source never returns (see Findings). The as-written behaviour is `FlightPath.GenerateFlightPath`.
- Adding a drone, the drone dropdown actions, "View Details" links and the tab views are not modelled. They only show dialogs, toasts or navigation.
- Static sample data with no logic is not modelled: components/reports-analytics.tsx, components/site-overview.tsx, components/recent-surveys.tsx, the app pages and the mission-planner sliders and switches. The upcoming-missions list in app/page.tsx:58 depends on the clock and is also left out.
- Mission progress in the mission list is not modelled, because that list never changes it. Only the mission page ticks.

## Findings

| source | as written | input that shows it | evidently intended | confidence | as-written member | corrected member |
|---|---|---|---|---|---|---|
| components/map-view.tsx:90-93 | `latStep = (maxLat - minLat) / 10`, then `for (lat = minLat; lat <= maxLat; lat += latStep)`. A zero step never moves `lat`, so the grid loop pushes waypoints forever. | grid over the ring (0,5), (5,5), (10,5), (0,5): every vertex on one latitude | a degenerate box gives one sweep line and the call returns | high; not executed | `FlightPath.ZeroHeightGridHangs`, `FlightPath.HangsExactly`, `Boustrophedon.NeverExitsIff` | `FlightPath.PlanFlightPath`, `FlightPath.ZeroHeightGridPlanned`, `FlightPath.PlanCoversNonEmptyRing` |
| components/map-view.tsx:106-123 | `lngStep = (maxLng - minLng) / 10`, and the vertical loop `lng += lngStep` never ends when the step is zero | crosshatch over the ring (3,0), (3,5), (3,10), (3,0): every vertex on one longitude | a degenerate box gives one vertical line and the call returns | high; not executed | `FlightPath.ZeroWidthCrosshatchHangs`, `FlightPath.HangsExactly`, `Boustrophedon.NeverExitsIff` | `FlightPath.PlanFlightPath`, `FlightPath.ZeroWidthCrosshatchPlanned`, `FlightPath.PlanCoversNonEmptyRing` |

`FlightPath.PlanAgreesWhenGenerated` shows that the correction changes nothing whenever the source's generator returns.

Both defects are latent. No code calls `generateFlightPath` (see the introduction), so no user action reaches the loops yet. Wiring the handler to a button would expose them.
