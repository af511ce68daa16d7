/**
 The mission list of components/active-missions.tsx: pausing, resuming and
 aborting a mission by id, and which of those controls each mission card
 offers.
 */
module ActiveMissions {

  /** `"in-progress" | "paused" | "completed" | "aborted"`. */
  datatype MissionStatus = InProgress | Paused | Completed | Aborted

  /** A mission that can no longer change status through the dashboard. */
  predicate Terminal(status: MissionStatus) {
    status == Completed || status == Aborted
  }

  datatype Mission = Mission(
    id: string,
    name: string,
    location: string,
    drone: string,
    progress: int,
    status: MissionStatus,
    startTime: string,
    estimatedEndTime: string)

  /**
   `missions.map(m => m.id === id ? { ...m, status } : m)`: every mission
   whose id matches gets the new status, every other mission is kept as it
   is, and list length and order are preserved.
   */
  function SetStatus(missions: seq<Mission>, id: string, status: MissionStatus): (r: seq<Mission>)
    ensures |r| == |missions|
    ensures forall i :: 0 <= i < |missions| && missions[i].id == id ==> r[i] == missions[i].(status := status)
    ensures forall i :: 0 <= i < |missions| && missions[i].id != id ==> r[i] == missions[i]
  {
    if |missions| == 0 then []
    else
      var m := missions[0];
      [if m.id == id then m.(status := status) else m] + SetStatus(missions[1..], id, status)
  }

  /** `handlePause`: the missions with the id become paused. Every other mission, and every other field, is kept. */
  function Pause(missions: seq<Mission>, id: string): (r: seq<Mission>)
    ensures |r| == |missions|
    ensures forall i :: 0 <= i < |r| ==>
      r[i] == if missions[i].id == id then missions[i].(status := Paused) else missions[i]
  {
    SetStatus(missions, id, Paused)
  }

  /** `handleResume`: the missions with the id go back in progress. Every other mission, and every other field, is kept. */
  function Resume(missions: seq<Mission>, id: string): (r: seq<Mission>)
    ensures |r| == |missions|
    ensures forall i :: 0 <= i < |r| ==>
      r[i] == if missions[i].id == id then missions[i].(status := InProgress) else missions[i]
  {
    SetStatus(missions, id, InProgress)
  }

  /** `handleAbort`: the missions with the id become aborted. Every other mission, and every other field, is kept. */
  function Abort(missions: seq<Mission>, id: string): (r: seq<Mission>)
    ensures |r| == |missions|
    ensures forall i :: 0 <= i < |r| ==>
      r[i] == if missions[i].id == id then missions[i].(status := Aborted) else missions[i]
  {
    SetStatus(missions, id, Aborted)
  }

  /**
   Pausing changes only the status of the missions with that id, to
   `Paused`; names, drones, progress and times are never touched.
   */
  lemma PauseChangesOnlyStatus(missions: seq<Mission>, id: string)
    ensures var r := Pause(missions, id);
      && |r| == |missions|
      && (forall i :: 0 <= i < |r| ==> r[i].(status := missions[i].status) == missions[i])
      && (forall i :: 0 <= i < |r| ==> r[i].status == if missions[i].id == id then Paused else missions[i].status)
  {
  }

  /** Resuming sets the matching missions to `InProgress` and changes nothing else. */
  lemma ResumeChangesOnlyStatus(missions: seq<Mission>, id: string)
    ensures var r := Resume(missions, id);
      && |r| == |missions|
      && (forall i :: 0 <= i < |r| ==> r[i].(status := missions[i].status) == missions[i])
      && (forall i :: 0 <= i < |r| ==> r[i].status == if missions[i].id == id then InProgress else missions[i].status)
  {
  }

  /** Aborting sets the matching missions to `Aborted` and changes nothing else. */
  lemma AbortChangesOnlyStatus(missions: seq<Mission>, id: string)
    ensures var r := Abort(missions, id);
      && |r| == |missions|
      && (forall i :: 0 <= i < |r| ==> r[i].(status := missions[i].status) == missions[i])
      && (forall i :: 0 <= i < |r| ==> r[i].status == if missions[i].id == id then Aborted else missions[i].status)
  {
  }

  /** An id that matches no mission leaves the list identical. */
  lemma UnknownIdIsIdentity(missions: seq<Mission>, id: string, status: MissionStatus)
    requires forall m :: m in missions ==> m.id != id
    ensures SetStatus(missions, id, status) == missions
  {
    var r := SetStatus(missions, id, status);
    assert forall i :: 0 <= i < |missions| ==> missions[i] in missions;
  }

  /** Setting a status is idempotent; in particular pausing twice is pausing once. */
  lemma {:induction false} SetStatusIdempotent(missions: seq<Mission>, id: string, status: MissionStatus)
    ensures SetStatus(SetStatus(missions, id, status), id, status) == SetStatus(missions, id, status)
  {
    if |missions| > 0 {
      SetStatusIdempotent(missions[1..], id, status);
      assert SetStatus(missions, id, status)[1..] == SetStatus(missions[1..], id, status);
    }
  }

  /**
   Resume undoes Pause: when every mission with the id is in progress,
   pausing and then resuming gives back the original list.
   */
  lemma {:induction false} ResumeUndoesPause(missions: seq<Mission>, id: string)
    requires forall m :: m in missions && m.id == id ==> m.status == InProgress
    ensures Resume(Pause(missions, id), id) == missions
  {
    if |missions| > 0 {
      assert missions[0] in missions;
      assert forall m :: m in missions[1..] ==> m in missions;
      ResumeUndoesPause(missions[1..], id);
      assert Pause(missions, id)[1..] == Pause(missions[1..], id);
    }
  }

  datatype Control = PauseControl | ResumeControl | AbortControl

  /**
   The buttons of a mission card: Pause for a mission in progress, Resume
   for a paused one, and Abort for either of those.
   */
  function Controls(status: MissionStatus): (r: set<Control>)
    ensures PauseControl in r <==> status == InProgress
    ensures ResumeControl in r <==> status == Paused
    ensures AbortControl in r <==> status == InProgress || status == Paused
  {
    (if status == InProgress then {PauseControl} else if status == Paused then {ResumeControl} else {})
    + (if status == InProgress || status == Paused then {AbortControl} else {})
  }

  /** The status a control moves a mission to. */
  function Target(c: Control): MissionStatus {
    match c
    case PauseControl => Paused
    case ResumeControl => InProgress
    case AbortControl => Aborted
  }

  /**
   A card offers exactly the controls that would change the status of a
   mission that is not yet terminal: no offered button is a no-op, and
   completed or aborted missions offer nothing.
   */
  lemma ControlsAreLiveTransitions(status: MissionStatus, c: Control)
    ensures c in Controls(status) <==> !Terminal(status) && Target(c) != status
  {
  }

  /** Completed and aborted missions offer no status transitions at all. */
  lemma TerminalOffersNothing(status: MissionStatus)
    ensures Controls(status) == {} <==> Terminal(status)
  {
    if !Terminal(status) {
      assert AbortControl in Controls(status);
    }
  }

  /**
   Following any offered control from a mission card leads to a status
   whose card offers a way back or is terminal: pausing offers Resume,
   resuming offers Pause, aborting is final.
   */
  lemma OfferedControlOutcome(status: MissionStatus, c: Control)
    requires c in Controls(status)
    ensures c == PauseControl ==> ResumeControl in Controls(Target(c))
    ensures c == ResumeControl ==> PauseControl in Controls(Target(c))
    ensures c == AbortControl ==> Controls(Target(c)) == {}
  {
  }
}
