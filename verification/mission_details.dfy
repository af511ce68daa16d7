/**
 The single-mission page of components/mission-details.tsx: a status and a
 progress percentage, the simulated progress tick, the pause, resume and
 abort handlers, and the controls offered per status.

 The source advances progress from a `setInterval` timer; the timer is
 not modelled, only the step it performs.
 */
module MissionDetails {
  import opened ActiveMissions

  datatype Detail = Detail(status: MissionStatus, progress: int)

  /** The page mounts with the mission in progress at 35%. */
  const Initial := Detail(InProgress, 35)

  /** The effect installs its timer only while this holds. */
  predicate Ticking(d: Detail) {
    d.status == InProgress && d.progress < 100
  }

  /**
   One timer tick: `setProgress(prev => Math.min(prev + 1, 100))` while the
   timer is installed; otherwise nothing happens. Progress never decreases,
   never passes 100 from at most 100, moves exactly when the mission is
   ticking, and the status is never touched.
   */
  function Tick(d: Detail): (r: Detail)
    ensures r.status == d.status
    ensures r.progress >= d.progress
    ensures d.progress <= 100 ==> r.progress <= 100
    ensures r.progress != d.progress <==> Ticking(d)
    ensures Ticking(d) ==> r.progress == d.progress + 1
  {
    if Ticking(d) then d.(progress := if d.progress + 1 <= 100 then d.progress + 1 else 100) else d
  }

  function Ticks(d: Detail, k: nat): Detail
    decreases k
  {
    if k == 0 then d else Ticks(Tick(d), k - 1)
  }

  /**
   A mission in progress reaches `min(p + k, 100)` after `k` ticks and then
   stays at 100; its status stays in progress (the page never moves it to
   completed).
   */
  lemma {:induction false} TicksReachHundred(d: Detail, k: nat)
    requires d.status == InProgress && d.progress <= 100
    ensures Ticks(d, k).status == InProgress
    ensures Ticks(d, k).progress == if d.progress + k <= 100 then d.progress + k else 100
    decreases k
  {
    if k > 0 {
      TicksReachHundred(Tick(d), k - 1);
    }
  }

  /**
   The page mounts ticking, and left alone its mission reaches 100% after
   65 ticks while its status stays in progress.
   */
  lemma MountedMissionReachesHundred()
    ensures Ticking(Initial)
    ensures Ticks(Initial, 65) == Detail(InProgress, 100)
    ensures Ticks(Initial, 64).progress == 99
  {
    TicksReachHundred(Initial, 65);
    TicksReachHundred(Initial, 64);
  }

  /** Paused, completed and aborted missions do not advance, however many ticks pass. */
  lemma {:induction false} StoppedMissionsFreeze(d: Detail, k: nat)
    requires d.status != InProgress
    ensures Ticks(d, k) == d
    decreases k
  {
    if k > 0 {
      StoppedMissionsFreeze(Tick(d), k - 1);
    }
  }

  /** `handlePause`: the status becomes paused, progress is untouched. */
  function Pause(d: Detail): (r: Detail)
    ensures r.status == Paused && r.progress == d.progress
  {
    d.(status := Paused)
  }

  /** `handleResume`: the status becomes in progress, progress is untouched. */
  function Resume(d: Detail): (r: Detail)
    ensures r.status == InProgress && r.progress == d.progress
  {
    d.(status := InProgress)
  }

  /** `handleAbort`: the status becomes aborted, progress is untouched. */
  function Abort(d: Detail): (r: Detail)
    ensures r.status == Aborted && r.progress == d.progress
  {
    d.(status := Aborted)
  }

  /** Resume undoes Pause for a mission in progress. */
  lemma ResumeUndoesPause(d: Detail)
    requires d.status == InProgress
    ensures Resume(Pause(d)) == d
  {
  }

  /**
   The page's buttons, read off its own markup: Pause Mission while in
   progress, Resume Mission while paused, Abort Mission in either case.
   */
  function PageControls(d: Detail): (r: set<Control>)
    ensures PauseControl in r <==> d.status == InProgress
    ensures ResumeControl in r <==> d.status == Paused
    ensures AbortControl in r <==> d.status == InProgress || d.status == Paused
  {
    if d.status == InProgress then {PauseControl, AbortControl}
    else if d.status == Paused then {ResumeControl, AbortControl}
    else {}
  }

  /**
   The detail page offers the same controls as the mission list card, so
   completed and aborted missions are terminal here too.
   */
  lemma PageControlsMatchList(d: Detail)
    ensures PageControls(d) == Controls(d.status)
    ensures PageControls(d) == {} <==> Terminal(d.status)
  {
    TerminalOffersNothing(d.status);
  }

  /** The transition a control performs on the page. */
  function Press(d: Detail, c: Control): Detail {
    match c
    case PauseControl => Pause(d)
    case ResumeControl => Resume(d)
    case AbortControl => Abort(d)
  }

  /**
   Pressing any offered control changes the status and keeps the progress;
   after Pause or Abort the timer stops, after Resume it runs again unless
   progress is already at 100.
   */
  lemma PressOffered(d: Detail, c: Control)
    requires c in PageControls(d)
    ensures Press(d, c).status != d.status
    ensures Press(d, c).progress == d.progress
    ensures c != ResumeControl ==> !Ticking(Press(d, c))
    ensures c == ResumeControl ==> (Ticking(Press(d, c)) <==> d.progress < 100)
  {
  }
}
