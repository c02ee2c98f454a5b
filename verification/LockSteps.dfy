/** The writers' operations as steps of the lock protocol: the engine's on values, the
    updater's and the plane's on their objects. What LockProtocol proves of every run of steps
    is so a property of these operations. */
module LockSteps {
  import opened Wrappers
  import opened WriteLock
  import opened LockProtocol
  import LockWriters
  import GroupsPlan
  import Psk
  import EngineModel
  import EngineRuns

  // ---- the engine ----

  /** The engine's part of the protocol's state; between operations it holds the lock for a
      window only. */
  ghost predicate SeesEngine(s: State, e: EngineRuns.Sys) {
    && (s.groupsPending <==> EngineRuns.Open(e))
    && (e.process.None? ==> (s.stage.Down? || s.stage.UpdateStarted?) && s.groupsHold.None?)
    && (e.process.Some? ==>
          && (s.stage.GroupsStarted? || s.stage.Serving?) && s.groupsOn
          && (s.groupsHold.Some? <==> e.process.value.holds) && (e.process.value.holds ==> EngineRuns.Open(e)))
  }

  /** The event meets the lock as it is, at its place in the daemon's life. */
  predicate MeetsLock(s: State, e: EngineRuns.Event) {
    match e
    case EApply(_, scene, _) => s.stage.Serving? && (scene.lockReason.None? <==> s.lock.Free?)
    case EStart(_, lockFree, _) => s.stage.UpdateStarted? && (lockFree <==> s.lock.Free?)
    case _ => true
  }

  /** An apply takes the lock and gives it back, unless it opens a window. */
  function ApplySteps(a: EngineModel.After): seq<StepKind> {
    if a.outcome.RolledBack? then [GroupsBegin, GroupsPersist, GroupsClose, GroupsRelease]
    else [GroupsBegin, if a.disk.state.pending.Some? then GroupsPersist else GroupsAbort] + DeathSteps(a)
  }

  function CloseSteps(a: EngineModel.After): seq<StepKind> {
    (if a.disk.state.pending.Some? then [] else [GroupsClose, GroupsRelease]) + DeathSteps(a)
  }

  function DeathSteps(a: EngineModel.After): seq<StepKind> { if a.process.None? then [Die] else [] }

  /** The protocol's steps of an event of the engine. */
  function StepsOf(e: EngineRuns.Sys, event: EngineRuns.Event): seq<StepKind> {
    var open := EngineRuns.Open(e);
    match event
    case EApply(d, scene, luck) =>
      if e.process.None? || open then []
      else ApplySteps(EngineModel.Apply(e.disk, e.process.value, d, scene, luck))
    case EConfirm(revision, files, luck) =>
      if e.process.None? || !open then []
      else CloseSteps(EngineModel.Confirm(e.disk, e.process.value, revision, files, luck))
    case ETimeout(timer, at, luck) =>
      if e.process.None? || !open || timer !in e.timers || at < timer.1 then []
      else CloseSteps(EngineModel.Timeout(e.disk, e.process.value, timer.0, luck))
    case ECrash => [Die]
    case EStart(now, lockFree, luck) =>
      if e.process.Some? then []
      else
        var a := EngineModel.Start(e.disk, now, lockFree, luck);
        [StartGroups(true, open && a.disk.state.pending.None?)] + DeathSteps(a)
    case EEdit(_, _) => []
  }

  lemma {:induction false} RunOne(s: State, a: StepKind)
    ensures Run(s, [a]) == Step(s, a)
  {
    assert [a][1..] == [];
  }

  lemma {:induction false} RunTwo(s: State, a: StepKind, b: StepKind)
    ensures Run(s, [a, b]) == Step(Step(s, a), b)
  {
    assert [a, b][1..] == [b];
    RunOne(Step(s, a), b);
  }

  lemma {:induction false} RunWith(s: State, xs: seq<StepKind>, ys: seq<StepKind>)
    ensures Run(s, xs + ys) == Run(Run(s, xs), ys)
    decreases |xs|
  {
    if xs == [] {
      assert [] + ys == ys;
    } else {
      assert (xs + ys)[1..] == xs[1..] + ys;
      RunWith(Step(s, xs[0]), xs[1..], ys);
    }
  }

  lemma {:induction false} RunDeath(s: State, a: EngineModel.After)
    ensures Run(s, DeathSteps(a)) == if a.process.None? then Step(s, Die) else s
  {
    RunOne(s, Die);
  }

  /** Steps that never switch groups off. */
  predicate KeepOn(steps: seq<StepKind>) { forall i | 0 <= i < |steps| :: steps[i].StartGroups? ==> steps[i].on }

  lemma {:induction false} KeepOnKeeps(s: State, steps: seq<StepKind>)
    requires KeepOn(steps)
    ensures AllKeepGroups(s, steps)
    decreases |steps|
  {
    if steps != [] {
      assert forall i | 0 <= i < |steps[1..]| :: steps[1..][i] == steps[i + 1];
      hide Step;
      KeepOnKeeps(Step(s, steps[0]), steps[1..]);
    }
  }

  // ---- the operations, one by one ----

  /** The engine after an operation that came to `a`. */
  ghost predicate SeesAfter(s: State, a: EngineModel.After) {
    && (s.groupsPending <==> a.disk.state.pending.Some?)
    && (a.process.None? ==> (s.stage.Down? || s.stage.UpdateStarted?) && s.groupsHold.None?)
    && (a.process.Some? ==>
          && (s.stage.GroupsStarted? || s.stage.Serving?) && s.groupsOn
          && (s.groupsHold.Some? <==> a.process.value.holds) && (a.process.value.holds ==> a.disk.state.pending.Some?))
  }

  /** What an apply comes to, as far as the lock is concerned. */
  lemma {:induction false} ApplyHolds(disk: EngineModel.Disk, p: EngineModel.Process, d: GroupsPlan.Desired,
                                      scene: EngineModel.Scene, luck: EngineModel.ApplyLuck)
    requires p.st == disk.state && disk.state.pending.None? && !p.holds
    ensures var a := EngineModel.Apply(disk, p, d, scene, luck);
            && (a.outcome.RolledBack? ==> a.process.Some? && a.disk.state.pending.None?)
            && (a.process.Some? ==> (a.process.value.holds <==> a.disk.state.pending.Some?))
            && (a.outcome.RolledBack? || a.disk.state.pending.Some? ==> scene.lockReason.None?)
  {
    hide EngineModel.PlanFor, GroupsPlan.Valid;
  }

  lemma {:induction false} ApplySees(s: State, a: EngineModel.After, free: bool)
    requires Inv(s) && s.stage.Serving? && s.groupsOn && !s.groupsPending && s.groupsHold.None? && (free <==> s.lock.Free?)
    requires a.outcome.RolledBack? ==> a.process.Some? && a.disk.state.pending.None?
    requires a.process.Some? ==> (a.process.value.holds <==> a.disk.state.pending.Some?)
    requires a.outcome.RolledBack? || a.disk.state.pending.Some? ==> free
    ensures SeesAfter(Run(s, ApplySteps(a)), a) && KeepOn(ApplySteps(a))
  {
    if a.outcome.RolledBack? {
      Run4(s, GroupsBegin, GroupsPersist, GroupsClose, GroupsRelease);
    } else {
      var first := [GroupsBegin, if a.disk.state.pending.Some? then GroupsPersist else GroupsAbort];
      RunTwo(s, first[0], first[1]);
      RunWith(s, first, DeathSteps(a));
      RunDeath(Run(s, first), a);
      hide Run;
    }
  }

  lemma {:induction false} CloseSees(s: State, a: EngineModel.After)
    requires s.groupsPending && (s.stage.GroupsStarted? || s.stage.Serving?) && s.groupsOn
    requires a.process.Some? && a.disk.state.pending.Some? ==> (s.groupsHold.Some? <==> a.process.value.holds)
    requires a.process.Some? && a.disk.state.pending.None? ==> !a.process.value.holds
    ensures SeesAfter(Run(s, CloseSteps(a)), a) && KeepOn(CloseSteps(a))
  {
    var first: seq<StepKind> := if a.disk.state.pending.Some? then [] else [GroupsClose, GroupsRelease];
    RunTwo(s, GroupsClose, GroupsRelease);
    RunWith(s, first, DeathSteps(a));
    RunDeath(Run(s, first), a);
    assert Run(s, []) == s;
    hide Run;
  }

  lemma {:induction false} StartSees(s: State, a: EngineModel.After)
    requires Inv(s) && s.stage.UpdateStarted?
    requires a.disk.state.pending.Some? ==> s.groupsPending
    requires a.process.Some? ==> (a.process.value.holds <==> a.disk.state.pending.Some? && s.lock.Free?)
    requires a.process.None? ==> a.disk.state.pending.Some?
    ensures var steps := [StartGroups(true, s.groupsPending && a.disk.state.pending.None?)] + DeathSteps(a);
            SeesAfter(Run(s, steps), a) && KeepOn(steps)
  {
    var first := [StartGroups(true, s.groupsPending && a.disk.state.pending.None?)];
    RunOne(s, first[0]);
    RunWith(s, first, DeathSteps(a));
    RunDeath(Run(s, first), a);
    hide Run;
  }

  lemma {:induction false} RollbackHolds(disk: EngineModel.Disk, p: EngineModel.Process, luck: EngineModel.RollbackLuck)
    requires p.st == disk.state && disk.state.pending.Some?
    ensures var a := EngineModel.Rollback(disk, p, luck);
            if a.process.Some? then a.disk.state.pending.None? && !a.process.value.holds else a.disk.state.pending.Some?
  {
  }

  lemma {:induction false} ConfirmHolds(disk: EngineModel.Disk, p: EngineModel.Process, revision: int,
                                        files: Option<seq<Psk.PskFile>>, luck: EngineModel.ConfirmLuck)
    requires p.st == disk.state && disk.state.pending.Some?
    ensures var a := EngineModel.Confirm(disk, p, revision, files, luck);
            a.process.Some? ==> a.process.value.holds == (a.disk.state.pending.Some? && p.holds)
  {
    RollbackHolds(disk, p, luck.back);
    hide EngineModel.Rollback, Psk.Unsafe;
  }

  /** Every event of the engine is a run of the protocol's steps, on the same windows, holds
      and life; so the engine keeps the protocol's invariant. */
  lemma {:induction false} EngineFollows(s: State, e: EngineRuns.Sys, event: EngineRuns.Event)
    requires Inv(s) && EngineRuns.Inv(e) && SeesEngine(s, e) && MeetsLock(s, event)
    ensures var s' := Run(s, StepsOf(e, event));
            Inv(s') && SeesEngine(s', EngineRuns.Step(e, event))
  {
    var steps := StepsOf(e, event);
    EventSees(s, e, event);
    hide Step, StepsOf, SeesEngine, EngineRuns.Inv, MeetsLock;
    KeepOnKeeps(s, steps);
    RunsExclude(s, steps);
  }

  lemma {:induction false} EventSees(s: State, e: EngineRuns.Sys, event: EngineRuns.Event)
    requires Inv(s) && EngineRuns.Inv(e) && SeesEngine(s, e) && MeetsLock(s, event)
    ensures SeesEngine(Run(s, StepsOf(e, event)), EngineRuns.Step(e, event)) && KeepOn(StepsOf(e, event))
  {
    match event
    case EApply(_, _, _) => ApplyEvent(s, e, event);
    case EConfirm(_, _, _) => CloseEvent(s, e, event);
    case ETimeout(_, _, _) => CloseEvent(s, e, event);
    case EStart(_, _, _) => StartEvent(s, e, event);
    case ECrash => RunOne(s, Die);
    case EEdit(_, _) =>
  }

  lemma {:induction false} ApplyEvent(s: State, e: EngineRuns.Sys, event: EngineRuns.Event)
    requires Inv(s) && EngineRuns.Inv(e) && SeesEngine(s, e) && MeetsLock(s, event) && event.EApply?
    ensures SeesEngine(Run(s, StepsOf(e, event)), EngineRuns.Step(e, event)) && KeepOn(StepsOf(e, event))
  {
    if e.process.Some? && !EngineRuns.Open(e) {
      ApplyHolds(e.disk, e.process.value, event.d, event.scene, event.applyLuck);
      var a := EngineModel.Apply(e.disk, e.process.value, event.d, event.scene, event.applyLuck);
      hide EngineModel.Apply, EngineRuns.Tears, EngineModel.PlanFor, EngineRuns.OpeningOf, ApplySteps, Run;
      ApplySees(s, a, event.scene.lockReason.None?);
      hide Inv;
    } else {
      hide EngineRuns.Tears, EngineModel.PlanFor, EngineRuns.OpeningOf, Inv;
    }
  }

  lemma {:induction false} CloseEvent(s: State, e: EngineRuns.Sys, event: EngineRuns.Event)
    requires Inv(s) && EngineRuns.Inv(e) && SeesEngine(s, e) && (event.EConfirm? || event.ETimeout?)
    ensures SeesEngine(Run(s, StepsOf(e, event)), EngineRuns.Step(e, event)) && KeepOn(StepsOf(e, event))
  {
    hide EngineRuns.Tears, Inv;
    if e.process.Some? && EngineRuns.Open(e) {
      var p := e.process.value;
      hide EngineModel.Rollback, CloseSteps;
      match event
      case EConfirm(revision, files, luck) =>
        ConfirmHolds(e.disk, p, revision, files, luck);
        hide EngineModel.Confirm, Run;
        CloseSees(s, EngineModel.Confirm(e.disk, p, revision, files, luck));
      case ETimeout(timer, at, luck) =>
        RollbackHolds(e.disk, p, luck);
        CloseSees(s, EngineModel.Timeout(e.disk, p, timer.0, luck));
    }
  }

  lemma {:induction false} StartEvent(s: State, e: EngineRuns.Sys, event: EngineRuns.Event)
    requires Inv(s) && EngineRuns.Inv(e) && SeesEngine(s, e) && MeetsLock(s, event) && event.EStart?
    ensures SeesEngine(Run(s, StepsOf(e, event)), EngineRuns.Step(e, event)) && KeepOn(StepsOf(e, event))
  {
    hide EngineRuns.Tears, EngineRuns.HoldsPlan;
    if e.process.None? {
      var a := EngineModel.Start(e.disk, event.now, event.lockFree, event.luck);
      if EngineRuns.Open(e) {
        RollbackHolds(e.disk, EngineModel.Process(e.disk.state, None, event.lockFree), event.luck);
      }
      hide EngineModel.Rollback, DeathSteps, Run;
      StartSees(s, a);
      hide Inv;
    }
  }

  // ---- the engine among the other writers ----

  /** The updater's and the plane's own steps. */
  predicate OfOthers(k: StepKind) {
    || k.StartUpdate? || k.StartPlane?
    || k.InstallBegin? || k.InstallFail? || k.InstallDone? || k.PlanEnds? || k.WatcherPoll?
    || k.PlaneBegin? || k.PlaneAbort? || k.PlanePersist? || k.PlaneClose? || k.PlaneRelease?
  }

  datatype Move = Engine(event: EngineRuns.Event) | Other(step: StepKind)

  /** The daemon: the protocol's state, and the engine with its disk. */
  datatype Daemon = Daemon(s: State, e: EngineRuns.Sys)

  function Moved(d: Daemon, m: Move): Daemon {
    match m
    case Engine(event) => Daemon(Run(d.s, StepsOf(d.e, event)), EngineRuns.Step(d.e, event))
    case Other(k) => Daemon(Step(d.s, k), d.e)
  }

  function AllMoved(d: Daemon, moves: seq<Move>): Daemon
    decreases |moves|
  {
    if moves == [] then d else AllMoved(Moved(d, moves[0]), moves[1..])
  }

  predicate Fits(d: Daemon, m: Move) {
    match m
    case Engine(event) => MeetsLock(d.s, event)
    case Other(k) => OfOthers(k)
  }

  predicate AllFit(d: Daemon, moves: seq<Move>)
    decreases |moves|
  {
    moves == [] || (Fits(d, moves[0]) && AllFit(Moved(d, moves[0]), moves[1..]))
  }

  ghost predicate DaemonInv(d: Daemon) { Inv(d.s) && EngineRuns.Inv(d.e) && SeesEngine(d.s, d.e) }

  lemma {:induction false} OthersLeave(s: State, e: EngineRuns.Sys, k: StepKind)
    requires Inv(s) && SeesEngine(s, e) && OfOthers(k)
    ensures Inv(Step(s, k)) && SeesEngine(Step(s, k), e)
  {
    StepInv(s, k);
    hide Inv;
  }

  lemma {:induction false} MoveKeeps(d: Daemon, m: Move)
    requires DaemonInv(d) && Fits(d, m)
    ensures DaemonInv(Moved(d, m))
  {
    hide Inv, EngineRuns.Inv, SeesEngine, Run, Step, EngineRuns.Step, MeetsLock, OfOthers, StepsOf;
    match m
    case Engine(event) =>
      EngineFollows(d.s, d.e, event);
      EngineRuns.StepInv(d.e, event);
    case Other(k) => OthersLeave(d.s, d.e, k);
  }

  /** The engine's applies, confirms, timers, deaths and starts, mixed with the other writers'
      steps in any order: never is a second window open beside the engine's, a live engine's
      window has the lock, and no start finds the lock taken. */
  lemma {:induction false} EngineAmongWriters(d: Daemon, moves: seq<Move>)
    requires DaemonInv(d) && AllFit(d, moves)
    ensures var end := AllMoved(d, moves);
            && DaemonInv(end)
            && (EngineRuns.Open(end.e) ==> !end.s.planOpen && !end.s.planePending)
            && (EngineRuns.Open(end.e) && end.e.process.Some? ==> end.s.lock.Held? && end.s.lock.holder == Groups && end.e.process.value.holds)
            && !(end.s.planOpen && end.s.planePending) && !end.s.refused
    decreases |moves|
  {
    if moves == [] {
      hide EngineRuns.Inv;
    } else {
      hide DaemonInv, Fits, Moved;
      MoveKeeps(d, moves[0]);
      EngineAmongWriters(Moved(d, moves[0]), moves[1..]);
    }
  }

  // ---- the updater and the plane ----

  /** The lock object is the protocol's lock. */
  predicate IsLock(lock: Lock, s: State)
    reads lock
  {
    (lock.cur == null <==> s.lock.Free?) && (lock.cur != null ==> lock.cur.info.holder == s.lock.holder)
  }

  /** The updater's hold is watched while it has the lock. */
  predicate IsUpdater(u: LockWriters.Updater, s: State)
    reads u, u.lock
  {
    && IsLock(u.lock, s) && s.installHold.None?
    && (u.hold != null && u.lock.cur == u.hold <==> s.lock.Held? && s.lock.token in s.watchers)
  }

  predicate IsPlane(pl: LockWriters.PlaneLock, s: State)
    reads pl, pl.lock
  {
    && IsLock(pl.lock, s) && (pl.hold != null ==> pl.hold.lock == pl.lock)
    && (pl.hold != null && pl.lock.cur == pl.hold <==> s.lock.Held? && s.planeHold == Some(s.lock.token))
  }

  function InstallSteps(kitInstalls: bool): seq<StepKind> { [InstallBegin, if kitInstalls then InstallDone else InstallFail] }

  method Install(u: LockWriters.Updater, id: string, kitInstalls: bool, ghost s: State)
      returns (res: Result<(), LockWriters.InstallError>)
    requires Inv(s) && s.stage.Serving? && IsUpdater(u, s)
    modifies u, u.lock
    ensures IsUpdater(u, Run(s, InstallSteps(kitInstalls)))
  {
    RunTwo(s, InstallBegin, InstallSteps(kitInstalls)[1]);
    res := u.Install(id, kitInstalls);
  }

  method Startup(u: LockWriters.Updater, plan: LockWriters.Reading, ghost s: State)
    requires Inv(s) && s.stage.Down? && IsUpdater(u, s) && (plan.Over() <==> !s.planOpen)
    modifies u, u.lock
    ensures IsUpdater(u, Step(s, StartUpdate))
  {
    u.Startup(plan);
  }

  /** One look of the watcher at the plan. */
  method Watch(u: LockWriters.Updater, plan: LockWriters.Reading, ghost s: State)
    requires Inv(s) && IsUpdater(u, s) && u.hold != null && u.lock.cur == u.hold && u.hold.lock == u.lock
    requires plan.Over() <==> !s.planOpen
    modifies u, u.lock
    ensures IsUpdater(u, Step(s, WatcherPoll(s.lock.token)))
  {
    var _ := u.ReleaseWhenDone(u.hold, [plan]);
  }

  method Acquire(pl: LockWriters.PlaneLock, id: string, ghost s: State) returns (ok: bool)
    requires Inv(s) && s.stage.Serving? && IsPlane(pl, s)
    modifies pl, pl.lock
    ensures IsPlane(pl, Step(s, PlaneBegin))
    ensures ok <==> s.lock.Free?
  {
    var reason;
    ok, reason := pl.Acquire(id);
  }

  method ReleaseHold(pl: LockWriters.PlaneLock, ghost s: State)
    requires Inv(s) && !s.planePending && IsPlane(pl, s)
    modifies pl, pl.lock
    ensures IsPlane(pl, Step(s, PlaneRelease))
  {
    pl.ReleaseHold();
  }
}
