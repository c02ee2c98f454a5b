/** The write lock as a protocol: the three writers' persisted windows, the lock in memory,
    the start order of the daemon and its death at any moment. */
module LockProtocol {
  import opened Wrappers
  import opened WriteLock

  /** How far the process is: not running, or started up to a writer, or serving. */
  datatype Stage = Down | UpdateStarted | GroupsStarted | Serving

  /** A hold is known by its token: releasing one that lost the lock does nothing. */
  datatype LockState = Free | Held(holder: Holder, token: nat)

  /** The persisted windows survive the process; the lock, the holds and the watchers of
      update holds do not. `refused` remembers that a start found the lock taken. */
  datatype State = State(groupsPending: bool, planOpen: bool, planePending: bool,
                         stage: Stage, groupsOn: bool, lock: LockState, next: nat,
                         groupsHold: Option<nat>, planeHold: Option<nat>, installHold: Option<nat>,
                         watchers: set<nat>, refused: bool)

  datatype StepKind =
    | StartUpdate                                    // Updater.Startup
    | StartGroups(on: bool, late: bool)              // Engine.Start, when device groups are on
    | StartPlane(resumes: bool)                      // the plane's Start: resumes or restores its window
    | GroupsBegin | GroupsAbort | GroupsPersist | GroupsClose | GroupsRelease
    | InstallBegin | InstallFail | InstallDone
    | PlanEnds                                       // the watchdog or the confirm ends the plan
    | WatcherPoll(token: nat)
    | PlaneBegin | PlaneAbort | PlanePersist | PlaneClose | PlaneRelease
    | Die

  // ---- the lock ----

  predicate CanAcquire(s: State) { s.lock.Free? }

  function Acquired(s: State, h: Holder): State {
    s.(lock := Held(h, s.next), next := s.next + 1)
  }

  function Released(s: State, token: Option<nat>): State {
    if token.Some? && s.lock.Held? && s.lock.token == token.value then s.(lock := Free) else s
  }

  // ---- the steps ----

  /** A step that is not enabled changes nothing. Taking the lock looks at the lock alone, and a
      window is opened without looking at the lock again: that its writer still holds it is
      what Inv says. */
  function Step(s: State, k: StepKind): State {
    match k
    case StartUpdate =>
      if !s.stage.Down? then s
      else
        var s1 := s.(stage := UpdateStarted);
        if !s.planOpen then s1
        else if CanAcquire(s1) then Acquired(s1, Update).(watchers := s1.watchers + {s1.next})
        else s1.(refused := true)
    case StartGroups(on, late) =>
      if !s.stage.UpdateStarted? then s
      else
        var s1 := s.(stage := GroupsStarted, groupsOn := on);
        if !on || !s.groupsPending then s1
        else
          var s2 := if CanAcquire(s1) then Acquired(s1, Groups).(groupsHold := Some(s1.next)) else s1.(refused := true);
          if late then Released(s2.(groupsPending := false), s2.groupsHold).(groupsHold := None) else s2
    case StartPlane(resumes) =>
      if !s.stage.GroupsStarted? then s
      else
        var s1 := s.(stage := Serving);
        if !s.planePending then s1
        else
          var s2 := if CanAcquire(s1) then Acquired(s1, Plane).(planeHold := Some(s1.next)) else s1.(refused := true);
          if resumes then s2 else Released(s2.(planePending := false), s2.planeHold).(planeHold := None)
    case GroupsBegin =>
      if !s.stage.Serving? || !s.groupsOn || !CanAcquire(s) then s
      else Acquired(s, Groups).(groupsHold := Some(s.next))
    case GroupsAbort =>
      if s.groupsPending then s else Released(s, s.groupsHold).(groupsHold := None)
    case GroupsPersist =>
      if s.stage.Serving? && s.groupsHold.Some? then s.(groupsPending := true) else s
    case GroupsClose =>
      if (s.stage.Serving? || s.stage.GroupsStarted?) && s.groupsOn then s.(groupsPending := false) else s
    case GroupsRelease =>
      if s.groupsPending then s else Released(s, s.groupsHold).(groupsHold := None)
    case InstallBegin =>
      if !s.stage.Serving? || !CanAcquire(s) then s
      else Acquired(s, Update).(installHold := Some(s.next))
    case InstallFail =>
      if s.installHold.None? then s else Released(s, s.installHold).(installHold := None)
    case InstallDone =>
      if s.installHold.None? then s
      else s.(planOpen := true, watchers := s.watchers + {s.installHold.value}, installHold := None)
    case PlanEnds => s.(planOpen := false)
    case WatcherPoll(token) =>
      if token !in s.watchers || s.planOpen then s
      else Released(s, Some(token)).(watchers := s.watchers - {token})
    case PlaneBegin =>
      if !s.stage.Serving? || !CanAcquire(s) then s
      else Acquired(s, Plane).(planeHold := Some(s.next))
    case PlaneAbort =>
      if s.planePending then s else Released(s, s.planeHold).(planeHold := None)
    case PlanePersist =>
      if s.stage.Serving? && s.planeHold.Some? then s.(planePending := true) else s
    case PlaneClose => if s.stage.Serving? then s.(planePending := false) else s
    case PlaneRelease =>
      if s.planePending then s else Released(s, s.planeHold).(planeHold := None)
    case Die =>
      s.(stage := Down, lock := Free, groupsHold := None, planeHold := None, installHold := None, watchers := {})
  }

  function Run(s: State, steps: seq<StepKind>): State
    decreases |steps|
  {
    if steps == [] then s else Run(Step(s, steps[0]), steps[1..])
  }

  // ---- mutual exclusion ----

  predicate OpenWindow(s: State, h: Holder) {
    match h
    case Groups => s.groupsPending
    case Update => s.planOpen
    case Plane => s.planePending
  }

  predicate AtMostOneWindow(s: State) {
    !(s.groupsPending && s.planOpen) && !(s.groupsPending && s.planePending) && !(s.planOpen && s.planePending)
  }

  /** The writer's part of the start is over (device groups on). */
  predicate Started(s: State, h: Holder) {
    match h
    case Update => !s.stage.Down?
    case Groups => s.stage.GroupsStarted? || s.stage.Serving?
    case Plane => s.stage.Serving?
  }

  /** The lock is this writer's, and the writer knows the hold. */
  predicate HasLock(s: State, h: Holder) {
    s.lock.Held? && s.lock.holder == h &&
    match h
    case Groups => s.groupsHold == Some(s.lock.token)
    case Update => s.lock.token in s.watchers || s.installHold == Some(s.lock.token)
    case Plane => s.planeHold == Some(s.lock.token)
  }

  /** The writer's window is held by its watcher or hold, not by an install under way. */
  predicate WindowHeld(s: State, h: Holder) {
    HasLock(s, h) && (h == Update ==> s.lock.token in s.watchers)
  }

  predicate HeldOnceStarted(s: State, h: Holder) {
    OpenWindow(s, h) && Started(s, h) ==> WindowHeld(s, h)
  }

  predicate NoOtherWindow(s: State, h: Holder) {
    OpenWindow(s, h) && s.lock.Held? ==> s.lock.holder == h
  }

  ghost predicate Inv(s: State) {
    && AtMostOneWindow(s)
    && HeldOnceStarted(s, Groups) && HeldOnceStarted(s, Update) && HeldOnceStarted(s, Plane)
    && (s.lock.Held? ==> HasLock(s, s.lock.holder))
    && NoOtherWindow(s, Groups) && NoOtherWindow(s, Update) && NoOtherWindow(s, Plane)
    && (s.lock.Held? ==> !s.stage.Down? && s.lock.token < s.next)
    && (s.stage.Down? ==> s.groupsHold.None? && s.planeHold.None? && s.installHold.None? && s.watchers == {})
    && (s.stage.UpdateStarted? ==> s.groupsHold.None?)
    && (!s.stage.Serving? ==> s.planeHold.None? && s.installHold.None?)
    && (s.groupsHold.Some? ==> s.lock == Held(Groups, s.groupsHold.value))
    && (s.planeHold.Some? ==> s.lock == Held(Plane, s.planeHold.value))
    && (s.installHold.Some? ==> s.lock == Held(Update, s.installHold.value) && s.installHold.value !in s.watchers && !s.planOpen)
    && (forall t | t in s.watchers :: t < s.next)
    && (s.lock.Held? && s.lock.token in s.watchers ==> s.lock.holder == Update)
    && !s.refused
    && (s.stage.GroupsStarted? || s.stage.Serving? ==> s.groupsOn || (!s.groupsPending && s.groupsHold.None?))
  }

  /** Not a start that leaves device groups off while their window is open. */
  predicate KeepsGroups(s: State, k: StepKind) {
    k.StartGroups? && s.stage.UpdateStarted? && s.groupsPending ==> k.on
  }

  predicate AllKeepGroups(s: State, steps: seq<StepKind>)
    decreases |steps|
  {
    steps == [] || (KeepsGroups(s, steps[0]) && AllKeepGroups(Step(s, steps[0]), steps[1..]))
  }

  lemma {:induction false} StartInv(s: State, k: StepKind)
    requires Inv(s) && KeepsGroups(s, k)
    requires k.StartUpdate? || k.StartGroups? || k.StartPlane? || k.Die?
    ensures Inv(Step(s, k))
  {
  }

  lemma {:induction false} GroupsInv(s: State, k: StepKind)
    requires Inv(s)
    requires k.GroupsBegin? || k.GroupsAbort? || k.GroupsPersist? || k.GroupsClose? || k.GroupsRelease?
    ensures Inv(Step(s, k))
  {
  }

  lemma {:induction false} UpdateInv(s: State, k: StepKind)
    requires Inv(s)
    requires k.InstallBegin? || k.InstallFail? || k.InstallDone? || k.PlanEnds? || k.WatcherPoll?
    ensures Inv(Step(s, k))
  {
  }

  lemma {:induction false} PlaneInv(s: State, k: StepKind)
    requires Inv(s)
    requires k.PlaneBegin? || k.PlaneAbort? || k.PlanePersist? || k.PlaneClose? || k.PlaneRelease?
    ensures Inv(Step(s, k))
  {
  }

  lemma {:induction false} StepInv(s: State, k: StepKind)
    requires Inv(s) && KeepsGroups(s, k)
    ensures Inv(Step(s, k))
  {
    if k.StartUpdate? || k.StartGroups? || k.StartPlane? || k.Die? {
      StartInv(s, k);
    } else if k.InstallBegin? || k.InstallFail? || k.InstallDone? || k.PlanEnds? || k.WatcherPoll? {
      UpdateInv(s, k);
    } else if k.PlaneBegin? || k.PlaneAbort? || k.PlanePersist? || k.PlaneClose? || k.PlaneRelease? {
      PlaneInv(s, k);
    } else {
      GroupsInv(s, k);
    }
  }

  /** Mutual exclusion, whatever the setting of device groups: over every run without a
      start that leaves them off while their window is open, at most one writer's persisted
      window is open, its writer holds the lock from its start on, and no start ever finds
      the lock taken. */
  lemma {:induction false} RunsExclude(s: State, steps: seq<StepKind>)
    requires Inv(s) && AllKeepGroups(s, steps)
    ensures Inv(Run(s, steps))
    decreases |steps|
  {
    if steps != [] {
      StepInv(s, steps[0]);
      RunsExclude(Step(s, steps[0]), steps[1..]);
    }
  }

  /** A device before its daemon starts: whatever window a previous run left, at most one. */
  predicate BeforeStart(s: State) {
    && AtMostOneWindow(s) && s.stage.Down? && s.lock.Free? && !s.refused
    && s.groupsHold.None? && s.planeHold.None? && s.installHold.None? && s.watchers == {}
  }

  /** The same in words a caller can check: from any start, over any such run. */
  lemma {:induction false} OneWriterAtATime(s: State, steps: seq<StepKind>, a: Holder, b: Holder)
    requires BeforeStart(s) && AllKeepGroups(s, steps)
    ensures var end := Run(s, steps);
            && (OpenWindow(end, a) && OpenWindow(end, b) ==> a == b)
            && (OpenWindow(end, a) && Started(end, a) ==> end.lock.Held? && end.lock.holder == a)
            && !end.refused
  {
    RunsExclude(s, steps);
  }

  /** With device groups off for good, as they are by default, every run is such a run unless
      a groups window was left open from before. */
  lemma {:induction false} GroupsOffForGood(s: State, steps: seq<StepKind>)
    requires Inv(s) && !s.groupsPending && !s.groupsOn && s.groupsHold.None?
    requires forall i | 0 <= i < |steps| :: steps[i].StartGroups? ==> !steps[i].on
    ensures AllKeepGroups(s, steps)
    decreases |steps|
  {
    if steps != [] {
      var k := steps[0];
      assert forall i | 0 <= i < |steps[1..]| :: steps[1..][i] == steps[i + 1];
      StepInv(s, k);
      OffStaysOff(s, k);
      GroupsOffForGood(Step(s, k), steps[1..]);
    }
  }

  lemma {:induction false} OffStaysOff(s: State, k: StepKind)
    requires !s.groupsPending && !s.groupsOn && s.groupsHold.None? && (k.StartGroups? ==> !k.on)
    ensures var s' := Step(s, k); !s'.groupsPending && !s'.groupsOn && s'.groupsHold.None?
  {
  }

  /** The one bad start: with a groups window open it leaves the lock to the plane, whose
      window then overlaps; switching the groups on again makes the plane's start find the
      lock taken. */
  lemma {:induction false} GroupsSwitchedOff(s: State, late: bool, resumes: bool)
    requires Inv(s) && s.stage.UpdateStarted? && s.groupsPending
    ensures var off := Step(s, StartGroups(false, late));
            var both := Run(off, [StartPlane(resumes), PlaneBegin, PlanePersist]);
            var again := Run(both, [Die, StartUpdate, StartGroups(true, false), StartPlane(true)]);
            AllKeepGroups(off, [StartPlane(resumes), PlaneBegin, PlanePersist]) &&
            OpenWindow(both, Groups) && OpenWindow(both, Plane) && again.refused
  {
    var off := Step(s, StartGroups(false, late));
    var s1 := Step(off, StartPlane(resumes));
    var s2 := Step(s1, PlaneBegin);
    var s3 := Step(s2, PlanePersist);
    assert s.lock.Free? && !s.planOpen && !s.planePending;
    Run3(off, StartPlane(resumes), PlaneBegin, PlanePersist);
    assert s3.groupsPending && s3.planePending;
    Run4(s3, Die, StartUpdate, StartGroups(true, false), StartPlane(true));
  }

  /** Exactly: whatever comes after a step keeps to one window at most, if and only if the
      step is not that start. */
  lemma {:induction false} OneWindowExactly(s: State, k: StepKind)
    requires Inv(s)
    ensures KeepsGroups(s, k) <==>
            forall steps | AllKeepGroups(Step(s, k), steps) :: AtMostOneWindow(Run(Step(s, k), steps))
  {
    if KeepsGroups(s, k) {
      StepInv(s, k);
      forall steps | AllKeepGroups(Step(s, k), steps) ensures AtMostOneWindow(Run(Step(s, k), steps)) {
        RunsExclude(Step(s, k), steps);
      }
    } else {
      GroupsSwitchedOff(s, k.late, true);
      var steps := [StartPlane(true), PlaneBegin, PlanePersist];
      assert k == StartGroups(false, k.late);
      assert !AtMostOneWindow(Run(Step(s, k), steps));
    }
  }

  lemma {:induction false} RunFirst(s: State, a: StepKind, rest: seq<StepKind>)
    ensures Run(s, [a] + rest) == Run(Step(s, a), rest)
  {
    assert ([a] + rest)[1..] == rest;
  }

  lemma {:induction false} Run3(s: State, a: StepKind, b: StepKind, c: StepKind)
    ensures Run(s, [a, b, c]) == Step(Step(Step(s, a), b), c)
    ensures AllKeepGroups(s, [a, b, c]) <==>
            KeepsGroups(s, a) && KeepsGroups(Step(s, a), b) && KeepsGroups(Step(Step(s, a), b), c)
  {
    hide Step, KeepsGroups;
    var abc, bc, last := [a, b, c], [b, c], [c];
    assert abc[1..] == bc && bc[1..] == last && last[1..] == [];
    var s1 := Step(s, a);
    var s2 := Step(s1, b);
    var s3 := Step(s2, c);
    assert Run(s, abc) == Run(s1, bc) && Run(s1, bc) == Run(s2, last) && Run(s2, last) == Run(s3, []);
    assert AllKeepGroups(s, abc) <==> KeepsGroups(s, a) && AllKeepGroups(s1, bc);
    assert AllKeepGroups(s1, bc) <==> KeepsGroups(s1, b) && AllKeepGroups(s2, last);
    assert AllKeepGroups(s2, last) <==> KeepsGroups(s2, c) && AllKeepGroups(s3, []);
  }

  lemma {:induction false} Run4(s: State, a: StepKind, b: StepKind, c: StepKind, d: StepKind)
    ensures Run(s, [a, b, c, d]) == Step(Step(Step(Step(s, a), b), c), d)
  {
    assert [a, b, c, d] == [a] + [b, c, d];
    RunFirst(s, a, [b, c, d]);
    Run3(Step(s, a), b, c, d);
  }
}
