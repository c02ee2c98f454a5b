/** The planner inside the engine: over any run of windows, the place that dropping all
    groups returns to stays where it was. */
module EngineDrift {
  import opened Wrappers
  import opened UciConfig
  import opened GroupsPlan
  import opened GroupsNoDrift
  import opened GroupsChains
  import opened EngineModel
  import opened EngineRuns

  /** The files, under this ledger, lead back to `base`. */
  ghost predicate At(w: File, n: File, ledger: Ledger, base: Base) {
    w.Parsed? && n.Parsed? && GoodHeld(Held(w.c, n.c, ledger)) && UndoHeld(Held(w.c, n.c, ledger)) == base
  }

  ghost predicate WindowAt(o: Opening, ledger: Ledger, base: Base) {
    At(o.wireless, o.network, ledger, base) && At(Parsed(o.planned.w), Parsed(o.planned.n), o.planned.ledger, base)
  }

  /** Both ways an open window can end lead back to `base`. */
  ghost predicate DriftInv(s: Sys, base: Base) {
    !s.spoiled ==>
      if Open(s) then s.opening.Some? && WindowAt(s.opening.value, s.disk.state.ledger, base)
      else At(s.disk.wireless, s.disk.network, s.disk.state.ledger, base)
  }

  lemma {:induction false} PlanReturns(disk: Disk, d: Desired, scene: Scene, r: Planned, base: Base)
    requires CleanBase(base) && At(disk.wireless, disk.network, disk.state.ledger, base)
    requires PlanFor(disk, disk.state.ledger, d, scene) == Ok(r)
    ensures At(Parsed(r.w), Parsed(r.n), r.ledger, base)
  {
    StepReturns(Held(disk.wireless.c, disk.network.c, disk.state.ledger), Request(d, scene.detected));
  }

  /** The step without looking into what At means. */
  lemma {:induction false} StepDrift(s: Sys, e: Event, base: Base)
    requires Inv(s) && DriftInv(s, base) && CleanBase(base)
    ensures DriftInv(Step(s, e), base)
  {
    StepFacts(s, e);
    match e
    case EApply(d, scene, luck) =>
      if s.process.Some? && !Open(s) && !s.spoiled {
        var plan := PlanAt(s, d, scene);
        if plan.Ok? {
          PlanReturns(s.disk, d, scene, plan.value, base);
        }
        ApplyDrift(s, e, d, scene, plan, Apply(s.disk, s.process.value, d, scene, luck), base);
      }
    case EConfirm(revision, files, luck) =>
      if s.process.Some? && Open(s) && !s.spoiled {
        ConfirmDrift(s, e, Confirm(s.disk, s.process.value, revision, files, luck), base);
      }
    case ETimeout(timer, at, luck) =>
    case EStart(now, lockFree, luck) =>
    case ECrash =>
    case EEdit(_, _) =>
  }

  lemma {:induction false} ApplyDrift(s: Sys, e: Event, d: Desired, scene: Scene, plan: Result<Planned, Refusal>, a: After, base: Base)
    requires Inv(s) && !Open(s) && s.process.Some? && !s.spoiled
    requires At(s.disk.wireless, s.disk.network, s.disk.state.ledger, base)
    requires plan.Ok? ==> At(Parsed(plan.value.w), Parsed(plan.value.n), plan.value.ledger, base)
    requires ApplyOk(s.disk, s.process.value, d, scene, OpeningOf(s.disk, plan), a)
    ensures DriftInv(Next(s, a, OpeningOf(s.disk, plan), d.revision, Tears(s, e)), base)
  {
  }

  lemma {:induction false} ConfirmDrift(s: Sys, e: Event, a: After, base: Base)
    requires Inv(s) && Open(s) && s.process.Some? && e.EConfirm? && !s.spoiled
    requires WindowAt(s.opening.value, s.disk.state.ledger, base)
    requires ConfirmOk(s.disk, s.process.value, s.opening.value, e.revision, e.files, a)
    ensures DriftInv(Next(s, a, None, 0, Tears(s, e)), base)
  {
  }

  /** No drift through the engine: over any run of applies, confirms, timeouts, process
      deaths and restarts, as long as others do not edit the files, restores can be written
      and no partly written window is confirmed, an idle device is always one undo away
      from the same configs. */
  lemma {:induction false} RunsDoNotDrift(s: Sys, events: seq<Event>, base: Base)
    requires Inv(s) && DriftInv(s, base) && CleanBase(base)
    ensures Inv(Run(s, events)) && DriftInv(Run(s, events), base)
    decreases |events|
  {
    if events != [] {
      StepInv(s, events[0]);
      StepDrift(s, events[0], base);
      RunsDoNotDrift(Step(s, events[0]), events[1..], base);
    }
  }

  /** In particular the engine's own request for no groups at all plans exactly that place. */
  lemma {:induction false} NoGroupsReturns(s: Sys, events: seq<Event>, base: Base, d: Desired, scene: Scene)
    requires Inv(s) && DriftInv(s, base) && CleanBase(base) && Valid(d) && d.vlans == []
    requires !Open(Run(s, events)) && !Run(s, events).spoiled
    ensures var plan := PlanAt(Run(s, events), d, scene);
            plan.Ok? && plan.value.w == base.w && plan.value.n == base.n
  {
    RunsDoNotDrift(s, events, base);
  }

  // ---- from the first start ----

  /** A device the engine never touched, before its daemon starts. */
  function Untouched(w: Config, n: Config): Sys {
    Sys(Disk(Parsed(w), Parsed(n), None, None, Stored(0, NO_LEDGER, None, None)), None, None, false, {}, {}, false)
  }

  lemma {:induction false} UntouchedIsBase(w: Config, n: Config)
    requires CleanBase(Base(w, n, None))
    ensures Undo(w, n, NO_LEDGER) == Base(w, n, None)
  {
    assert OwnedSet(NO_LEDGER, w, n) == {};
    DropKeepsAll(w, {});
    DropKeepsAll(n, {});
    assert RestoreDynAll(w, map[]) == w;
  }

  /** The whole promise: whatever happens to a device the engine never touched, once it is
      idle again a request for no groups plans its original configs, section for section
      (others' edits, restores that cannot be written and partly written windows that are
      confirmed aside). */
  lemma {:induction false} UntouchedDeviceReturns(w: Config, n: Config, events: seq<Event>, d: Desired, scene: Scene)
    requires WellNamed(w) && WellNamed(n) && CleanBase(Base(w, n, None)) && Valid(d) && d.vlans == []
    requires var end := Run(Untouched(w, n), events); !Open(end) && !end.spoiled
    ensures var plan := PlanAt(Run(Untouched(w, n), events), d, scene);
            plan.Ok? && plan.value.w == w && plan.value.n == n
  {
    UntouchedIsBase(w, n);
    var s := Untouched(w, n);
    assert Inv(s);
    assert GoodHeld(Held(w, n, NO_LEDGER)) && DriftInv(s, Base(w, n, None));
    hide Run, PlanAt, CleanBase, Valid, DriftInv, Inv;
    NoGroupsReturns(s, events, Base(w, n, None), d, scene);
  }

  // ---- the same request again ----

  /** The same state asked for: revision and confirm time aside. */
  predicate SameRequest(a: Desired, b: Desired) {
    a.trunk == b.trunk && a.ssids == b.ssids && a.vlans == b.vlans && a.stations == b.stations
  }

  lemma {:induction false} PlanOfRequest(w: Config, n: Config, a: Desired, b: Desired, detected: string, prev: Ledger)
    requires SameRequest(a, b) && a.revision >= 1 && b.revision >= 1
    ensures Plan(w, n, a, detected, prev) == Plan(w, n, b, detected, prev)
    ensures Valid(a) <==> Valid(b)
  {
    hide PlanNetwork, Undo, ManagedIfaces, Clash, MarkDynAll, DynBefore, WifiVlanSections, StationSectionsFrom, Entries,
         IfaceIssues, StationIssues, BindingKeys, ValidStation, ValidIfname, MacCount;
  }

  /** An apply that nothing hinders. */
  predicate Unhindered(e: Event) {
    e.EApply? && e.d.revision >= 1 && e.scene.lockReason.None? && !e.scene.luciPending && !e.scene.uncommitted && e.applyLuck.save.Done?
  }

  /** The device is idle with a plan's files and ledger, and the plan can be taken back: the
      same request under any other revision is kept at once, so without a check. */
  lemma {:induction false} RepeatedIsKeptAtOnce(s: Sys, h: Held, d: Desired, r: Planned, e: Event)
    requires Inv(s) && s.process.Some? && !Open(s) && Unhindered(e) && SameRequest(d, e.d)
    requires GoodHeld(h) && Plan(h.w, h.n, d, e.scene.detected, h.ledger) == Ok(r)
    requires TakesBack(UndoHeld(h), d, e.scene.detected, h.ledger.converted)
    requires s.disk.wireless == Parsed(r.w) && s.disk.network == Parsed(r.n) && s.disk.state.ledger == r.ledger
    ensures KeepsAtOnce(s, e) && PlanAt(s, e.d, e.scene) == Ok(r)
    ensures Step(s, e).disk == s.disk.(state := s.disk.state.(applied := e.d.revision))
  {
    Idempotent(h.w, h.n, d, e.scene.detected, h.ledger, r);
    assert Valid(d) && d.revision >= 1;
    PlanOfRequest(r.w, r.n, d, e.d, e.scene.detected, r.ledger);
    hide Valid, Plan, TakesBack, GoodHeld;
    KeptAtOnceExactly(s, e);
  }

  lemma {:induction false} RunAppend(s: Sys, a: seq<Event>, b: seq<Event>)
    ensures Run(s, a + b) == Run(Run(s, a), b)
    decreases |a|
  {
    hide Step;
    if a == [] {
      assert [] + b == b;
    } else {
      assert (a + b)[1..] == a[1..] + b;
      RunAppend(Step(s, a[0]), a[1..], b);
    }
  }

  lemma {:induction false} SpoiledStays(s: Sys, events: seq<Event>)
    requires s.spoiled
    ensures Run(s, events).spoiled
    decreases |events|
  {
    if events != [] {
      assert Step(s, events[0]).spoiled by { hide Tears, Apply, Confirm, Timeout, Start; }
      hide Step;
      SpoiledStays(Step(s, events[0]), events[1..]);
    }
  }

  lemma {:induction false} UnspoiledBefore(s: Sys, events: seq<Event>, i: nat)
    requires i <= |events| && !Run(s, events).spoiled
    ensures !Before(s, events, i).spoiled
  {
    hide Run;
    var a, b := events[..i], events[i..];
    assert a + b == events;
    RunAppend(s, a, b);
    if Run(s, a).spoiled {
      SpoiledStays(Run(s, a), b);
    }
  }

  /** Over every unspoiled run without edits by others, from a clean device: after a confirm,
      asking for the confirmed state again, under any revision, is kept at once. */
  lemma {:induction false} ConfirmedThenRepeated(s: Sys, events: seq<Event>, e: Event, base: Base) returns (i: nat)
    requires Inv(s) && !Open(s) && DriftInv(s, base) && CleanBase(base) && NoEdits(events)
    requires var before := Run(s, events); Confirms(before, e) && Step(before, e).process.Some? && !Step(before, e).spoiled
    ensures WindowFrom(s, events, i)
    ensures var end := Step(Run(s, events), e);
            forall again | Unhindered(again) && SameRequest(events[i].d, again.d) && again.scene.detected == events[i].scene.detected ::
              KeepsAtOnce(end, again) && Step(end, again).disk == end.disk.(state := end.disk.state.(applied := again.d.revision))
  {
    var h, r;
    i, h, r := ConfirmedIsPlan(s, events, e, base);
    var end := Step(Run(s, events), e);
    hide Run, Step, WindowFrom, TakesBack, GoodHeld, KeepsAtOnce, SameRequest, Unhindered, Inv, Plan;
    forall again | Unhindered(again) && SameRequest(events[i].d, again.d) && again.scene.detected == events[i].scene.detected
      ensures KeepsAtOnce(end, again) && Step(end, again).disk == end.disk.(state := end.disk.state.(applied := again.d.revision))
    {
      RepeatedIsKeptAtOnce(end, h, events[i].d, r, again);
    }
  }

  /** What such a device holds after the confirm. */
  lemma {:induction false} ConfirmedIsPlan(s: Sys, events: seq<Event>, e: Event, base: Base) returns (i: nat, h: Held, r: Planned)
    requires Inv(s) && !Open(s) && DriftInv(s, base) && CleanBase(base) && NoEdits(events)
    requires var before := Run(s, events); Confirms(before, e) && Step(before, e).process.Some? && !Step(before, e).spoiled
    ensures WindowFrom(s, events, i)
    ensures GoodHeld(h) && Plan(h.w, h.n, events[i].d, events[i].scene.detected, h.ledger) == Ok(r)
    ensures TakesBack(UndoHeld(h), events[i].d, events[i].scene.detected, h.ledger.converted)
    ensures var end := Step(Run(s, events), e);
            && Inv(end) && !Open(end) && end.disk.wireless == Parsed(r.w) && end.disk.network == Parsed(r.n)
            && end.disk.state.ledger == r.ledger
  {
    i := WindowHistory(s, events);
    RunInv(s, events);
    ConfirmedUntorn(s, events, e, i);
    RunDriftInv(s, events, i, base);
    ConfirmKeepsPlan(Run(s, events), e);
    StepInv(Run(s, events), e);
    var before := Before(s, events, i);
    hide Run, Step, Before, TornFrom, WindowFrom, CleanBase, Tears, Confirms, NoEdits, DriftInv, Inv, TakesBack, GoodHeld, Plan, TornExactly;
    h := Held(before.disk.wireless.c, before.disk.network.c, before.disk.state.ledger);
    r := PlanAt(before, events[i].d, events[i].scene).value;
    CleanPlan(h, events[i].d, events[i].scene.detected, r);
  }

  lemma {:induction false} CleanPlan(h: Held, d: Desired, detected: string, r: Planned)
    requires GoodHeld(h) && CleanBase(UndoHeld(h)) && Plan(h.w, h.n, d, detected, h.ledger) == Ok(r)
    ensures TakesBack(UndoHeld(h), d, detected, h.ledger.converted)
  {
    UndoValid(h.w, h.n, h.ledger);
    hide Undo, TakesBack, CleanBase, Valid, BuildOn;
    CleanIsReversible(UndoHeld(h), d, detected, h.ledger.converted, r);
  }

  lemma {:induction false} RunDriftInv(s: Sys, events: seq<Event>, i: nat, base: Base)
    requires Inv(s) && DriftInv(s, base) && CleanBase(base) && WindowFrom(s, events, i) && !Run(s, events).spoiled
    ensures var before := Before(s, events, i);
            At(before.disk.wireless, before.disk.network, before.disk.state.ledger, base)
  {
    hide Run, Inv, CleanBase, At;
    UnspoiledBefore(s, events, i);
    RunsDoNotDrift(s, events[..i], base);
  }

  /** A confirm that does not spoil was of a window that nothing tore. */
  lemma {:induction false} ConfirmedUntorn(s: Sys, events: seq<Event>, e: Event, i: nat)
    requires Inv(Run(s, events)) && Confirms(Run(s, events), e) && !Step(Run(s, events), e).spoiled
    ensures !Run(s, events).spoiled && !Run(s, events).torn && !Open(Step(Run(s, events), e))
    ensures HoldsPlan(Step(Run(s, events), e).disk, Run(s, events).opening.value)
  {
    hide Run, HoldsPlan, Tears;
    ConfirmKeepsPlan(Run(s, events), e);
  }
}
