/** Runs of the device-groups engine: applies, confirms, timeouts, process deaths at any
    write, restarts and edits by others, in any order. */
module EngineRuns {
  import opened Wrappers
  import opened UciConfig
  import opened GroupsPlan
  import opened GroupsNoDrift
  import opened GroupsChains
  import opened Psk
  import opened EngineModel

  datatype Event =
    | EApply(d: Desired, scene: Scene, applyLuck: ApplyLuck)
    | EConfirm(revision: int, files: Option<seq<PskFile>>, confirmLuck: ConfirmLuck)
    | ETimeout(timer: (int, int), at: int, luck: RollbackLuck)
    | ECrash
    | EStart(now: int, lockFree: bool, luck: RollbackLuck)
    | EEdit(wireless: File, network: File)

  /** The device, with history: the open window's plan, whether an event of the window tore it
      (or others edited its files), the timers this process armed, the revisions windows were
      opened for, and whether something outside the engine's promise happened (an edit by others, a restore
      that could not be written, a partly written window that was confirmed). */
  datatype Sys = Sys(disk: Disk, process: Option<Process>, opening: Option<Opening>, torn: bool,
                     timers: set<(int, int)>, used: set<int>, spoiled: bool)

  predicate Open(s: Sys) { s.disk.state.pending.Some? }

  function Armed(a: After): set<(int, int)> {
    if a.process.Some? && a.process.value.timer.Some? then {a.process.value.timer.value} else {}
  }

  /** The window an apply opens with a plan of what is on the disk. */
  function OpeningOf(disk: Disk, plan: Result<Planned, Refusal>): Option<Opening> {
    match plan
    case Ok(r) => Some(Opening(disk.wireless, disk.network, r))
    case Err(_) => None
  }

  function PlanAt(s: Sys, d: Desired, scene: Scene): Result<Planned, Refusal> {
    PlanFor(s.disk, s.disk.state.ledger, d, scene)
  }

  // ---- which deaths tear a window ----

  predicate ChangesWireless(o: Opening) { Parsed(o.planned.w) != o.wireless }
  predicate ChangesNetwork(o: Opening) { Parsed(o.planned.n) != o.network }

  predicate Dies(luck: RollbackLuck) { luck.wireless.Die? || luck.network.Die? || !luck.save.Done? }

  /** A rollback that dies after it put back a file that the plan changes. */
  predicate BackTears(o: Opening, luck: RollbackLuck) {
    Dies(luck) && !luck.wireless.Die? &&
    ((luck.wireless.Done? && ChangesWireless(o)) || (luck.network.Done? && ChangesNetwork(o)))
  }

  /** An apply that dies with a file unwritten that the plan changes (at the write, or in the
      rollback after it failed), or in the rollback after a failed reload. */
  predicate WriteTears(o: Opening, luck: ApplyLuck) {
    if ChangesWireless(o) && !luck.wireless.Done? then luck.wireless.Die? || Dies(luck.back)
    else if ChangesNetwork(o) && !luck.network.Done? then luck.network.Die? || Dies(luck.back)
    else luck.reloadFails && BackTears(o, luck.back)
  }

  /** The apply comes to its writes: nothing refuses it, the plan changes a file, and copies
      and window are saved. */
  predicate Writes(d: Desired, scene: Scene, o: Option<Opening>, luck: ApplyLuck) {
    && Valid(d) && scene.lockReason.None? && !scene.luciPending && !scene.uncommitted
    && o.Some? && (ChangesWireless(o.value) || ChangesNetwork(o.value))
    && luck.copyWireless.Done? && luck.copyNetwork.Done? && luck.save.Done?
  }

  /** The event dies and leaves the open window with a file other than its plan's: told from
      how its writes go and from which files the plan changes. */
  predicate Tears(s: Sys, e: Event) {
    match e
    case EApply(d, scene, luck) =>
      var o := OpeningOf(s.disk, PlanAt(s, d, scene));
      s.process.Some? && !Open(s) && Writes(d, scene, o, luck) && WriteTears(o.value, luck)
    case EConfirm(revision, files, luck) =>
      && s.process.Some? && Open(s) && s.opening.Some? && s.disk.state.pending.value.revision == revision
      && Unsafe(files, s.disk.state.pending.value.bindingKeys) && BackTears(s.opening.value, luck.back)
    case ETimeout(timer, at, luck) =>
      && s.process.Some? && timer in s.timers && timer.1 <= at
      && Open(s) && s.opening.Some? && s.disk.state.pending.value.revision == timer.0 && BackTears(s.opening.value, luck)
    case EStart(now, lockFree, luck) =>
      && s.process.None? && Open(s) && s.opening.Some? && s.disk.state.pending.value.deadline <= now
      && BackTears(s.opening.value, luck)
    case _ => false
  }

  // ---- the steps ----

  /** The history after an operation that came to `a`. */
  function Next(s: Sys, a: After, opening: Option<Opening>, revision: int, tears: bool): Sys {
    var open := a.disk.state.pending.Some?;
    var closed := Open(s) && !open;
    var now := if !open then None else if Open(s) then s.opening else opening;
    Sys(a.disk, a.process, now,
        open && (s.torn || tears),
        if a.process.None? then {} else s.timers + Armed(a),
        if open && !Open(s) then s.used + {revision} else s.used,
        s.spoiled
          || (a.outcome.RolledBack? && !(a.outcome.wirelessBack && a.outcome.networkBack))
          || (closed && !a.outcome.RolledBack? && s.torn))
  }

  function Step(s: Sys, e: Event): Sys {
    match e
    case EApply(d, scene, luck) =>
      if s.process.None? then s
      else
        Next(s, Apply(s.disk, s.process.value, d, scene, luck),
             OpeningOf(s.disk, PlanFor(s.disk, s.process.value.st.ledger, d, scene)), d.revision, Tears(s, e))
    case EConfirm(revision, files, luck) =>
      if s.process.None? then s
      else Next(s, Confirm(s.disk, s.process.value, revision, files, luck), None, 0, Tears(s, e))
    case ETimeout(timer, at, luck) =>
      if s.process.None? || timer !in s.timers || at < timer.1 then s
      else Next(s, Timeout(s.disk, s.process.value, timer.0, luck), None, 0, Tears(s, e))
    case ECrash => s.(process := None, timers := {})
    case EStart(now, lockFree, luck) =>
      if s.process.Some? then s
      else Next(s, Start(s.disk, now, lockFree, luck), None, 0, Tears(s, e))
    case EEdit(w, n) => s.(disk := s.disk.(wireless := w, network := n), torn := Open(s), spoiled := true)
  }

  function Run(s: Sys, events: seq<Event>): Sys
    decreases |events|
  {
    if events == [] then s else Run(Step(s, events[0]), events[1..])
  }

  // ---- the invariant ----

  /** The open window's ledger and copies. */
  ghost predicate WindowKept(disk: Disk, o: Opening) {
    && disk.state.pending.Some?
    && disk.rbWireless == Some(o.wireless) && disk.rbNetwork == Some(o.network)
    && disk.state.pending.value.ledger == o.planned.ledger
    && disk.state.pending.value.bindingKeys == o.planned.bindingKeys
  }

  predicate HoldsPlan(disk: Disk, o: Opening) {
    disk.wireless == Parsed(o.planned.w) && disk.network == Parsed(o.planned.n)
  }

  /** Each file is the plan's, or the one before. */
  predicate Between(disk: Disk, o: Opening) {
    && (disk.wireless == o.wireless || disk.wireless == Parsed(o.planned.w))
    && (disk.network == o.network || disk.network == Parsed(o.planned.n))
  }

  ghost predicate Inv(s: Sys) {
    && (s.process.Some? ==> s.process.value.st == s.disk.state)
    && (Open(s) <==> s.opening.Some?)
    && (Open(s) ==> WindowKept(s.disk, s.opening.value))
    && (Open(s) && !s.torn ==> HoldsPlan(s.disk, s.opening.value))
    && (s.torn ==> Open(s))
  }

  predicate SameConfirmed(a: Stored, b: Stored) { a.applied == b.applied && a.ledger == b.ledger }

  predicate InStep(a: After) {
    && (a.process.Some? ==> a.process.value.st == a.disk.state)
    && (a.process.None? <==> a.outcome.Died?)
  }

  /** Each file is back exactly as the copy's write went. */
  predicate FilesBack(a: After, disk: Disk, o: Opening) {
    && a.disk.wireless == (if a.outcome.RolledBack? && a.outcome.wirelessBack then o.wireless else disk.wireless)
    && a.disk.network == (if a.outcome.RolledBack? && a.outcome.networkBack then o.network else disk.network)
  }

  /** What a rollback comes to: it died with the window and its copies as they were, or the
      window is closed and nothing else of the state changed. */
  ghost predicate RollbackOk(disk: Disk, o: Opening, a: After) {
    && disk.state.pending.Some? && InStep(a) && SameConfirmed(a.disk.state, disk.state)
    && (a.process.None? ==> a.disk.state == disk.state && WindowKept(a.disk, o))
    && (a.process.Some? ==>
          && a.outcome.RolledBack? && a.disk.state.pending.None? && FilesBack(a, disk, o)
          && a.disk.state.lastRollback == Some(disk.state.pending.value.revision)
          && a.process.value == Process(a.disk.state, None, false))
  }

  lemma {:induction false} RollbackFacts(disk: Disk, p: Process, o: Opening, luck: RollbackLuck)
    requires p.st == disk.state && WindowKept(disk, o)
    ensures RollbackOk(disk, o, Rollback(disk, p, luck))
    ensures Rollback(disk, p, luck).outcome.RolledBack? ==>
              Rollback(disk, p, luck).outcome == RolledBack(luck.wireless.Done?, luck.network.Done?)
  {
  }

  /** What writing the window's files comes to: open with the plan on the disk, or died, or
      rolled back to the files it began with. */
  ghost predicate WriteOk(d2: Disk, d: Desired, o: Opening, now: int, a: After) {
    && InStep(a) && SameConfirmed(a.disk.state, d2.state)
    && (a.disk.state.pending.Some? ==> WindowKept(a.disk, o) && a.disk.state.pending.value == WindowOf(d, o.planned, o.network, now))
    && (a.disk.state.pending.None? ==> a.outcome.RolledBack?)
    && (a.outcome.Opened? ==> a.outcome == Opened(o) && HoldsPlan(a.disk, o) && a.disk.state.pending.Some?
                              && a.process.value.timer == Some((d.revision, a.disk.state.pending.value.deadline)))
    && (a.disk.state.pending.Some? && a.process.Some? ==> a.outcome.Opened?)
    && (a.outcome.RolledBack? ==>
          && a.disk.state.pending.None? && a.process.value.timer.None?
          && (a.outcome.wirelessBack ==> a.disk.wireless == o.wireless)
          && (a.outcome.networkBack ==> a.disk.network == o.network))
    && (a.outcome.Died? || a.outcome.Opened? || a.outcome.RolledBack?)
  }

  lemma {:induction false} WriteFacts(d2: Disk, p: Process, d: Desired, o: Opening, now: int, luck: ApplyLuck)
    requires p.st == d2.state && o.wireless == d2.wireless && o.network == d2.network
    requires d2.rbWireless == Some(o.wireless) && d2.rbNetwork == Some(o.network)
    ensures WriteOk(d2, d, o, now, WriteConfigs(d2, p, d, o.planned, now, luck))
  {
    var st := p.st.(pending := Some(WindowOf(d, o.planned, d2.network, now)));
    var d3 := d2.(state := st);
    var d4 := d3.(wireless := Parsed(o.planned.w));
    var d5 := d4.(network := Parsed(o.planned.n));
    var holding := Process(st, None, true);
    RollbackFacts(d3, holding, o, luck.back);
    RollbackFacts(d4, holding, o, luck.back);
    RollbackFacts(d5, holding, o, luck.back);
  }

  predicate SameFiles(a: Disk, b: Disk) { a.wireless == b.wireless && a.network == b.network }

  /** What an apply comes to when no window is open. */
  ghost predicate ApplyOk(disk: Disk, p: Process, d: Desired, scene: Scene, o: Option<Opening>, a: After) {
    && InStep(a)
    && (a.disk.state.pending.Some? || a.outcome.RolledBack? ==>
          o.Some? && SameConfirmed(a.disk.state, disk.state) && WriteOk(disk, d, o.value, scene.now, a))
    && (a.disk.state.pending.None? && !a.outcome.RolledBack? ==> SameFiles(a.disk, disk) && !a.outcome.Opened?)
    && (a.disk.state.pending.None? && !a.outcome.RolledBack? && !a.outcome.Noop? ==> a.disk.state == disk.state)
    && (a.outcome.Noop? ==> o.Some? && HoldsPlan(a.disk, o.value) && a.disk.state.pending.None?
                            && a.disk.state == disk.state.(applied := d.revision, ledger := o.value.planned.ledger))
    && (a.process.Some? && a.disk.state.pending.None? ==> a.process.value.timer.None? || a.process.value.timer == p.timer)
  }

  lemma {:induction false} ApplyFacts(disk: Disk, p: Process, d: Desired, scene: Scene, plan: Result<Planned, Refusal>, luck: ApplyLuck)
    requires p.st == disk.state && disk.state.pending.None?
    ensures ApplyOk(disk, p, d, scene, OpeningOf(disk, plan), ApplyWith(disk, p, d, scene, plan, luck))
  {
    if plan.Ok? {
      var d2 := disk.(rbWireless := Some(disk.wireless), rbNetwork := Some(disk.network));
      WriteFacts(d2, p, d, OpeningOf(disk, plan).value, scene.now, luck);
    }
  }

  /** What a confirm comes to while a window is open. */
  ghost predicate ConfirmOk(disk: Disk, p: Process, o: Opening, revision: int, files: Option<seq<PskFile>>, a: After) {
    && disk.state.pending.Some? && InStep(a) && !a.outcome.Opened?
    && (a.disk.state.pending.Some? ==> WindowKept(a.disk, o) && a.disk.state == disk.state)
    && (a.disk.state.pending.Some? && a.process.Some? ==> a.disk == disk)
    && (a.outcome.RolledBack? ==> RollbackOk(disk, o, a))
    && (a.disk.state.pending.Some? && a.disk != disk ==> RollbackOk(disk, o, a))
    && (a.disk.state.pending.None? && !a.outcome.RolledBack? ==>
          SameFiles(a.disk, disk) && a.disk.state.ledger == o.planned.ledger && a.disk.state.applied == revision
          && revision == disk.state.pending.value.revision && !Unsafe(files, o.planned.bindingKeys))
    && (a.process.Some? ==> a.process.value.timer.None? || a.process.value.timer == p.timer)
  }

  lemma {:induction false} ConfirmFacts(disk: Disk, p: Process, o: Opening, revision: int, files: Option<seq<PskFile>>, luck: ConfirmLuck)
    requires p.st == disk.state && WindowKept(disk, o)
    ensures ConfirmOk(disk, p, o, revision, files, Confirm(disk, p, revision, files, luck))
  {
    RollbackFacts(disk, p, o, luck.back);
  }

  /** What any event comes to: nothing, or one of the four operations. */
  lemma {:induction false} StepFacts(s: Sys, e: Event)
    requires Inv(s)
    ensures match e
            case EApply(d, scene, luck) =>
              s.process.Some? && !Open(s) ==>
                var a := Apply(s.disk, s.process.value, d, scene, luck);
                ApplyOk(s.disk, s.process.value, d, scene, OpeningOf(s.disk, PlanAt(s, d, scene)), a)
                && Step(s, e) == Next(s, a, OpeningOf(s.disk, PlanAt(s, d, scene)), d.revision, Tears(s, e))
            case EConfirm(revision, files, luck) =>
              s.process.Some? && Open(s) ==>
                var a := Confirm(s.disk, s.process.value, revision, files, luck);
                ConfirmOk(s.disk, s.process.value, s.opening.value, revision, files, a) && Step(s, e) == Next(s, a, None, 0, Tears(s, e))
            case ETimeout(timer, at, luck) =>
              s.process.Some? && Open(s) && timer in s.timers && timer.1 <= at && timer.0 == s.disk.state.pending.value.revision ==>
                var a := Rollback(s.disk, s.process.value, luck);
                RollbackOk(s.disk, s.opening.value, a) && Step(s, e) == Next(s, a, None, 0, Tears(s, e))
            case EStart(now, lockFree, luck) =>
              s.process.None? && Open(s) && s.disk.state.pending.value.deadline <= now ==>
                var a := Rollback(s.disk, Process(s.disk.state, None, lockFree), luck);
                RollbackOk(s.disk, s.opening.value, a) && Step(s, e) == Next(s, a, None, 0, Tears(s, e))
            case _ => true
  {
    match e
    case EApply(d, scene, luck) =>
      if s.process.Some? && !Open(s) {
        ApplyFacts(s.disk, s.process.value, d, scene, PlanAt(s, d, scene), luck);
      }
    case EConfirm(revision, files, luck) =>
      if s.process.Some? && Open(s) {
        ConfirmFacts(s.disk, s.process.value, s.opening.value, revision, files, luck);
      }
    case ETimeout(timer, at, luck) =>
      if s.process.Some? && Open(s) {
        RollbackFacts(s.disk, s.process.value, s.opening.value, luck);
      }
    case EStart(now, lockFree, luck) =>
      if Open(s) {
        RollbackFacts(s.disk, Process(s.disk.state, None, lockFree), s.opening.value, luck);
      }
    case ECrash =>
    case EEdit(_, _) =>
  }

  // ---- what tearing does to the files ----

  /** The files of a window that stays open: torn or not, as told. */
  predicate FilesAfter(disk: Disk, o: Opening, after: Disk, tears: bool) {
    && (HoldsPlan(disk, o) ==> (HoldsPlan(after, o) <==> !tears))
    && (Between(disk, o) ==> Between(after, o))
    && (Between(disk, o) && !HoldsPlan(disk, o) ==> !HoldsPlan(after, o))
  }

  lemma {:induction false} BackTearsExactly(disk: Disk, p: Process, o: Opening, luck: RollbackLuck)
    requires p.st == disk.state && WindowKept(disk, o)
    ensures var a := Rollback(disk, p, luck);
            a.disk.state.pending.Some? ==> FilesAfter(disk, o, a.disk, BackTears(o, luck))
  {
  }

  lemma {:induction false} ConfirmTearsExactly(disk: Disk, p: Process, o: Opening, revision: int, files: Option<seq<PskFile>>, luck: ConfirmLuck)
    requires p.st == disk.state && WindowKept(disk, o)
    ensures var a := Confirm(disk, p, revision, files, luck);
            var w := disk.state.pending.value;
            a.disk.state.pending.Some? ==>
              FilesAfter(disk, o, a.disk, w.revision == revision && Unsafe(files, w.bindingKeys) && BackTears(o, luck.back))
  {
    BackTearsExactly(disk, p, o, luck.back);
    hide BackTears, Rollback;
  }

  lemma {:induction false} WriteTearsExactly(d2: Disk, p: Process, d: Desired, o: Opening, now: int, luck: ApplyLuck)
    requires p.st == d2.state && o.wireless == d2.wireless && o.network == d2.network
    requires d2.rbWireless == Some(o.wireless) && d2.rbNetwork == Some(o.network)
    requires ChangesWireless(o) || ChangesNetwork(o)
    ensures var a := WriteConfigs(d2, p, d, o.planned, now, luck);
            a.disk.state.pending.Some? ==> Between(a.disk, o) && (HoldsPlan(a.disk, o) <==> !WriteTears(o, luck))
  {
    var st := p.st.(pending := Some(WindowOf(d, o.planned, d2.network, now)));
    var d3 := d2.(state := st);
    var d5 := d3.(wireless := Parsed(o.planned.w), network := Parsed(o.planned.n));
    BackTearsExactly(d5, Process(st, None, true), o, luck.back);
  }

  lemma {:induction false} ApplyTearsExactly(disk: Disk, p: Process, d: Desired, scene: Scene, plan: Result<Planned, Refusal>, luck: ApplyLuck)
    requires p.st == disk.state && disk.state.pending.None?
    ensures var a := ApplyWith(disk, p, d, scene, plan, luck);
            var o := OpeningOf(disk, plan);
            a.disk.state.pending.Some? ==>
              Writes(d, scene, o, luck) && Between(a.disk, o.value) && (HoldsPlan(a.disk, o.value) <==> !WriteTears(o.value, luck))
  {
    if plan.Ok? && Writes(d, scene, OpeningOf(disk, plan), luck) {
      var d2 := disk.(rbWireless := Some(disk.wireless), rbNetwork := Some(disk.network));
      hide WriteTears, Valid, WriteConfigs;
      WriteTearsExactly(d2, p, d, OpeningOf(disk, plan).value, scene.now, luck);
    } else {
      hide WriteTears, Valid, WriteConfigs;
    }
  }

  /** A window that stays open has its files as the event leaves them; a new one begins with
      files that are the plan's exactly when the apply does not tear. */
  ghost predicate TornFacts(s: Sys, e: Event) {
    var s' := Step(s, e);
    Open(s') && !e.EEdit? ==>
      && s'.opening.Some? && (s'.torn <==> s.torn || Tears(s, e))
      && if Open(s) then FilesAfter(s.disk, s'.opening.value, s'.disk, Tears(s, e))
         else Between(s'.disk, s'.opening.value) && (HoldsPlan(s'.disk, s'.opening.value) <==> !Tears(s, e))
  }

  lemma {:induction false} ApplyTorn(s: Sys, e: Event)
    requires Inv(s) && e.EApply?
    ensures TornFacts(s, e)
  {
    hide PlanFor, Valid;
    if s.process.Some? && !Open(s) {
      ApplyTearsExactly(s.disk, s.process.value, e.d, e.scene, PlanAt(s, e.d, e.scene), e.applyLuck);
      hide ApplyWith, Writes, WriteTears;
    }
  }

  lemma {:induction false} RestTorn(s: Sys, e: Event)
    requires Inv(s) && !e.EApply?
    ensures TornFacts(s, e)
  {
    hide BackTears, Rollback, Between, HoldsPlan, Unsafe;
    if Open(s) {
      hide Confirm;
      var o := s.opening.value;
      match e
      case EConfirm(revision, files, luck) =>
        if s.process.Some? { ConfirmTearsExactly(s.disk, s.process.value, o, revision, files, luck); }
      case ETimeout(timer, at, luck) =>
        if s.process.Some? { BackTearsExactly(s.disk, s.process.value, o, luck); }
      case EStart(now, lockFree, luck) =>
        BackTearsExactly(s.disk, Process(s.disk.state, None, lockFree), o, luck);
      case ECrash =>
      case EEdit(_, _) =>
    }
  }

  lemma {:induction false} StepTornFacts(s: Sys, e: Event)
    requires Inv(s)
    ensures TornFacts(s, e)
  {
    if e.EApply? { ApplyTorn(s, e); } else { RestTorn(s, e); }
  }

  /** Every step keeps the invariant. */
  lemma {:induction false} StepInv(s: Sys, e: Event)
    requires Inv(s)
    ensures Inv(Step(s, e))
  {
    StepFacts(s, e);
    StepTornFacts(s, e);
    hide Tears;
  }

  lemma {:induction false} RunInv(s: Sys, events: seq<Event>)
    requires Inv(s)
    ensures Inv(Run(s, events))
    decreases |events|
  {
    if events != [] {
      StepInv(s, events[0]);
      RunInv(Step(s, events[0]), events[1..]);
    }
  }

  // ---- rollback restores ----

  /** The window stays the same one, open after every event. */
  predicate OpenThroughout(s: Sys, events: seq<Event>)
    decreases |events|
  {
    Open(s) && (events == [] || OpenThroughout(Step(s, events[0]), events[1..]))
  }

  /** The history is exact about the files of an open window. */
  ghost predicate TornExactly(s: Sys) {
    Open(s) ==> s.opening.Some? && Between(s.disk, s.opening.value) && (s.torn <==> !HoldsPlan(s.disk, s.opening.value))
  }

  /** Without edits by others a window has its plan's files if and only if no event tore it. */
  lemma {:induction false} StepTorn(s: Sys, e: Event)
    requires Inv(s) && TornExactly(s) && !e.EEdit?
    ensures TornExactly(Step(s, e))
  {
    StepTornFacts(s, e);
    if Open(s) && Open(Step(s, e)) { StepKeepsOpening(s, e); }
    hide Tears, Step, Between, HoldsPlan;
  }

  predicate NoEdits(events: seq<Event>) { forall i | 0 <= i < |events| :: !events[i].EEdit? }

  lemma {:induction false} RunTorn(s: Sys, events: seq<Event>)
    requires Inv(s) && TornExactly(s) && NoEdits(events)
    ensures Inv(Run(s, events)) && TornExactly(Run(s, events))
    decreases |events|
  {
    if events != [] {
      assert !events[0].EEdit?;
      assert forall i | 0 <= i < |events[1..]| :: events[1..][i] == events[i + 1];
      hide Inv, Step, TornExactly;
      StepInv(s, events[0]);
      StepTorn(s, events[0]);
      RunTorn(Step(s, events[0]), events[1..]);
    }
  }

  /** A step inside a window keeps what it was opened with and the confirmed state. */
  lemma {:induction false} StepKeepsOpening(s: Sys, e: Event)
    requires Inv(s) && Open(s) && Open(Step(s, e))
    ensures Step(s, e).opening == s.opening
    ensures Step(s, e).disk.state.applied == s.disk.state.applied && Step(s, e).disk.state.ledger == s.disk.state.ledger
    ensures Step(s, e).disk.state.pending == s.disk.state.pending
  {
    StepFacts(s, e);
  }

  lemma {:induction false} OpenKeepsOpening(s: Sys, events: seq<Event>)
    requires Inv(s) && OpenThroughout(s, events)
    ensures Inv(Run(s, events)) && Open(Run(s, events)) && Run(s, events).opening == s.opening
    ensures Run(s, events).disk.state.applied == s.disk.state.applied && Run(s, events).disk.state.ledger == s.disk.state.ledger
    ensures Run(s, events).disk.state.pending == s.disk.state.pending
    decreases |events|
  {
    if events != [] {
      StepInv(s, events[0]);
      StepKeepsOpening(s, events[0]);
      OpenKeepsOpening(Step(s, events[0]), events[1..]);
    }
  }

  /** The event closes the open window by a rollback whose two writes went through. */
  predicate RollsBack(s: Sys, e: Event) {
    Open(s) && !Open(Step(s, e)) && s.process.Some? != e.EStart? &&
    match e
    case EConfirm(revision, files, luck) =>
      Unsafe(files, s.disk.state.pending.value.bindingKeys) && luck.back.wireless.Done? && luck.back.network.Done?
    case ETimeout(timer, at, luck) => luck.wireless.Done? && luck.network.Done?
    case EStart(now, lockFree, luck) => luck.wireless.Done? && luck.network.Done?
    case _ => false
  }

  lemma {:induction false} RollbackStep(s: Sys, e: Event)
    requires Inv(s) && RollsBack(s, e)
    ensures Step(s, e).disk.wireless == s.opening.value.wireless && Step(s, e).disk.network == s.opening.value.network
    ensures Step(s, e).disk.state.applied == s.disk.state.applied && Step(s, e).disk.state.ledger == s.disk.state.ledger
    ensures Step(s, e).disk.state.lastRollback == Some(s.disk.state.pending.value.revision)
  {
    StepFacts(s, e);
    match e
    case EConfirm(revision, files, luck) =>
      RollbackFacts(s.disk, s.process.value, s.opening.value, luck.back);
    case ETimeout(timer, at, luck) =>
      RollbackFacts(s.disk, s.process.value, s.opening.value, luck);
    case EStart(now, lockFree, luck) =>
      RollbackFacts(s.disk, Process(s.disk.state, None, lockFree), s.opening.value, luck);
  }

  /** Rollback restores: whatever happens while a window is open (failed and repeated
      confirms, timeouts, process deaths inside the apply or inside a rollback, restarts,
      edits by others), if it ends in a rollback then wireless and network are byte for byte
      what its apply read, and the confirmed ledger and revision are untouched. */
  lemma {:induction false} RollbackRestores(s: Sys, apply: Event, events: seq<Event>, last: Event)
    requires Inv(s) && !Open(s) && apply.EApply? && OpenThroughout(Step(s, apply), events)
    requires RollsBack(Run(Step(s, apply), events), last)
    ensures var end := Step(Run(Step(s, apply), events), last);
            && end.disk.wireless == s.disk.wireless && end.disk.network == s.disk.network
            && end.disk.state.applied == s.disk.state.applied && end.disk.state.ledger == s.disk.state.ledger
  {
    var s1 := Step(s, apply);
    assert Open(s1);
    StepInv(s, apply);
    StepFacts(s, apply);
    OpenKeepsOpening(s1, events);
    RollbackStep(Run(s1, events), last);
  }

  /** The same for an apply that rolls back before it answers (a write or the reload failed). */
  lemma {:induction false} FailedApplyRestores(s: Sys, d: Desired, scene: Scene, luck: ApplyLuck)
    requires Inv(s) && !Open(s) && s.process.Some?
    requires Apply(s.disk, s.process.value, d, scene, luck).outcome == RolledBack(true, true)
    ensures var end := Step(s, EApply(d, scene, luck));
            && end.disk.wireless == s.disk.wireless && end.disk.network == s.disk.network
            && end.disk.state.applied == s.disk.state.applied && end.disk.state.ledger == s.disk.state.ledger && !Open(end)
  {
    StepFacts(s, EApply(d, scene, luck));
  }

  /** The luck of the rollback an event may come to. */
  function BackLuck(e: Event): RollbackLuck
    requires e.ETimeout? || e.EStart? || e.EConfirm?
  {
    match e
    case ETimeout(_, _, luck) => luck
    case EStart(_, _, luck) => luck
    case EConfirm(_, _, luck) => luck.back
  }

  /** The event closes the open window by a rollback: a timer's, that of an overdue start, or
      that of a confirm whose PSK check fails. */
  predicate ClosesByRollback(s: Sys, e: Event) {
    Open(s) && !Open(Step(s, e)) && (e.EConfirm? ==> Unsafe(e.files, s.disk.state.pending.value.bindingKeys))
  }

  /** Exactly when a rollback gives a file back: its write went through, or the file was
      what it was already. The window closes either way. */
  lemma {:induction false} RollbackRestoresExactly(s: Sys, e: Event)
    requires Inv(s) && ClosesByRollback(s, e)
    ensures e.ETimeout? || e.EStart? || e.EConfirm?
    ensures var end := Step(s, e);
            var o := s.opening.value;
            && (end.disk.wireless == o.wireless <==> BackLuck(e).wireless.Done? || s.disk.wireless == o.wireless)
            && (end.disk.network == o.network <==> BackLuck(e).network.Done? || s.disk.network == o.network)
  {
    StepFacts(s, e);
    match e
    case EConfirm(revision, files, luck) =>
      RollbackFacts(s.disk, s.process.value, s.opening.value, luck.back);
    case ETimeout(timer, at, luck) =>
      RollbackFacts(s.disk, s.process.value, s.opening.value, luck);
    case EStart(now, lockFree, luck) =>
      RollbackFacts(s.disk, Process(s.disk.state, None, lockFree), s.opening.value, luck);
    case _ =>
  }

  // ---- confirm keeps the plan ----

  predicate Confirms(s: Sys, e: Event) {
    e.EConfirm? && Open(s) && s.process.Some? && !Open(Step(s, e))
    && !Unsafe(e.files, s.disk.state.pending.value.bindingKeys)
  }

  /** A confirmed revision is the planned one: its ledger is, its files are unless the window
      was torn or others edited them, and no PSK file gave a bound passphrase away. */
  lemma {:induction false} ConfirmKeepsPlan(s: Sys, e: Event)
    requires Inv(s) && Confirms(s, e)
    ensures var end := Step(s, e);
            var r := s.opening.value.planned;
            && end.disk.state.ledger == r.ledger && end.disk.state.applied == e.revision
            && !Unsafe(e.files, r.bindingKeys)
            && (!s.torn ==> HoldsPlan(end.disk, s.opening.value))
            && (TornExactly(s) ==> (HoldsPlan(end.disk, s.opening.value) <==> !s.torn))
            && end.spoiled == (s.spoiled || s.torn)
  {
    StepFacts(s, e);
  }

  lemma {:induction false} RunSplits(s: Sys, events: seq<Event>, e: Event)
    ensures Run(s, events + [e]) == Step(Run(s, events), e)
    decreases |events|
  {
    hide Step;
    if events == [] {
      assert ([] + [e])[1..] == [];
    } else {
      assert (events + [e])[1..] == events[1..] + [e];
      RunSplits(Step(s, events[0]), events[1..], e);
    }
  }

  /** The device before the run's j-th event. */
  function Before(s: Sys, events: seq<Event>, j: nat): Sys
    requires j <= |events|
  {
    Run(s, events[..j])
  }

  /** The run's i-th event opened the window that is open at its end. */
  ghost predicate WindowFrom(s: Sys, events: seq<Event>, i: nat) {
    && i < |events| && events[i].EApply? && !Open(Before(s, events, i))
    && forall j | i < j <= |events| :: Open(Before(s, events, j))
  }

  /** An event of the run, from the i-th on, tears the window. */
  ghost predicate TornFrom(s: Sys, events: seq<Event>, i: nat) {
    exists j | i <= j < |events| :: Tears(Before(s, events, j), events[j])
  }

  /** The history of the window at the end of a run. */
  lemma {:induction false} WindowHistory(s: Sys, events: seq<Event>) returns (i: nat)
    requires Inv(s) && !Open(s) && NoEdits(events) && Open(Run(s, events))
    ensures WindowFrom(s, events, i) && (Run(s, events).torn <==> TornFrom(s, events, i))
    ensures var before := Before(s, events, i);
            Run(s, events).opening == OpeningOf(before.disk, PlanAt(before, events[i].d, events[i].scene))
    decreases |events|
  {
    var n := |events| - 1;
    var prior, e := events[..n], events[n];
    assert events == prior + [e] && NoEdits(prior) && !e.EEdit?;
    RunSplits(s, prior, e);
    RunInv(s, prior);
    OneMore(s, prior, e);
    hide Run, WindowFrom, TornFrom, NoEdits, Tears, OpeningOf, PlanAt, Before;
    var before := Run(s, prior);
    StepTornFacts(before, e);
    if Open(before) {
      StepKeepsOpening(before, e);
      i := WindowHistory(s, prior);
      WindowGoesOn(s, prior, e, i);
    } else {
      OpensWithPlan(before, e);
      hide Inv, TornFacts, Step;
      i := n;
      WindowBegins(s, prior, e);
    }
  }

  lemma {:induction false} OpensWithPlan(s: Sys, e: Event)
    requires Inv(s) && !Open(s) && Open(Step(s, e))
    ensures e.EApply? && !s.torn && Step(s, e).opening == OpeningOf(s.disk, PlanAt(s, e.d, e.scene))
  {
    StepFacts(s, e);
    hide Tears, PlanAt, OpeningOf, WriteOk;
  }

  /** A run and one more event. */
  lemma {:induction false} OneMore(s: Sys, events: seq<Event>, e: Event)
    ensures var all, n := events + [e], |events|;
            && |all| == n + 1 && all[n] == e && Before(s, all, n) == Run(s, events) && Before(s, all, n + 1) == Run(s, all)
            && Before(s, events, n) == Run(s, events)
            && (forall j: nat | j < n :: all[j] == events[j])
            && (forall j: nat | j <= n :: Before(s, all, j) == Before(s, events, j))
  {
    hide Run;
    var all, n := events + [e], |events|;
    assert all[..n + 1] == all && events[..n] == events;
    forall j: nat | j <= n ensures Before(s, all, j) == Before(s, events, j) {
      assert all[..j] == events[..j];
    }
  }

  lemma {:induction false} WindowGoesOn(s: Sys, events: seq<Event>, e: Event, i: nat)
    requires WindowFrom(s, events, i) && Open(Run(s, events + [e]))
    ensures WindowFrom(s, events + [e], i)
    ensures TornFrom(s, events + [e], i) <==> TornFrom(s, events, i) || Tears(Run(s, events), e)
  {
    OneMore(s, events, e);
    hide Run, Tears, Before;
    var all, n := events + [e], |events|;
    if TornFrom(s, all, i) {
      var j: nat :| i <= j < |all| && Tears(Before(s, all, j), all[j]);
      assert j < n ==> Tears(Before(s, events, j), events[j]);
    }
    if TornFrom(s, events, i) {
      var j: nat :| i <= j < n && Tears(Before(s, events, j), events[j]);
      assert Tears(Before(s, all, j), all[j]);
    }
    assert Tears(Run(s, events), e) ==> Tears(Before(s, all, n), all[n]);
  }

  lemma {:induction false} WindowBegins(s: Sys, events: seq<Event>, e: Event)
    requires !Open(Run(s, events)) && e.EApply? && Open(Run(s, events + [e]))
    ensures WindowFrom(s, events + [e], |events|)
    ensures TornFrom(s, events + [e], |events|) <==> Tears(Run(s, events), e)
  {
    OneMore(s, events, e);
    hide Run, Tears, Before;
    var all, n := events + [e], |events|;
    assert Tears(Run(s, events), e) ==> Tears(Before(s, all, n), all[n]);
  }

  /** Over every run without edits by others: a confirmed revision has the files of the plan
      its window was opened with if and only if no event since tore the window, told from how
      the writes of that event went. */
  lemma {:induction false} ConfirmedRunsKeepPlan(s: Sys, events: seq<Event>, e: Event) returns (i: nat)
    requires Inv(s) && !Open(s) && NoEdits(events) && Confirms(Run(s, events), e)
    ensures WindowFrom(s, events, i)
    ensures var before := Before(s, events, i);
            var plan := PlanAt(before, events[i].d, events[i].scene);
            var end := Step(Run(s, events), e);
            plan.Ok? && end.disk.state.ledger == plan.value.ledger &&
            (end.disk.wireless == Parsed(plan.value.w) && end.disk.network == Parsed(plan.value.n) <==> !TornFrom(s, events, i))
  {
    RunTorn(s, events);
    ConfirmKeepsPlan(Run(s, events), e);
    hide Run, Step, PlanAt, TornFrom, WindowFrom, Before;
    i := WindowHistory(s, events);
  }

  // ---- what is kept was checked, or changed nothing ----

  /** The apply's plan is what the files hold already: it is kept at once. */
  predicate KeepsAtOnce(s: Sys, e: Event) {
    e.EApply? && s.process.Some? && !Open(s) &&
    Apply(s.disk, s.process.value, e.d, e.scene, e.applyLuck).outcome == Noop
  }

  /** Only two things change the confirmed revision and ledger: a confirm whose PSK check
      passes, and an apply whose plan changes nothing, which checks no PSK file. */
  lemma {:induction false} KeptExactlyBy(s: Sys, e: Event)
    requires Inv(s) && !SameConfirmed(Step(s, e).disk.state, s.disk.state)
    ensures Confirms(s, e) || KeepsAtOnce(s, e)
    ensures Confirms(s, e) ==> Step(s, e).disk.state.applied == e.revision
    ensures KeepsAtOnce(s, e) ==> Step(s, e).disk.state.applied == e.d.revision
  {
    StepFacts(s, e);
  }

  /** When an apply is kept at once: nothing stands in its way, its plan is what the files
      hold, and the state can be saved. */
  lemma {:induction false} KeptAtOnceExactly(s: Sys, e: Event)
    requires Inv(s) && e.EApply? && s.process.Some? && !Open(s)
    ensures KeepsAtOnce(s, e) <==>
              && Valid(e.d) && e.scene.lockReason.None? && !e.scene.luciPending && !e.scene.uncommitted && e.applyLuck.save.Done?
              && PlanAt(s, e.d, e.scene).Ok?
              && Parsed(PlanAt(s, e.d, e.scene).value.w) == s.disk.wireless
              && Parsed(PlanAt(s, e.d, e.scene).value.n) == s.disk.network
  {
    hide PlanFor, Valid;
    assert s.process.value.st == s.disk.state;
  }

  /** Why the second case matters: whatever the PSK files hold, such an apply keeps its
      revision, a bound passphrase that hostapd gives to every client included. */
  lemma {:induction false} KeptAtOnceUnchecked(s: Sys, e: Event, files: Option<seq<PskFile>>)
    requires Inv(s) && KeepsAtOnce(s, e) && Unsafe(files, PlanAt(s, e.d, e.scene).value.bindingKeys)
    ensures var end := Step(s, e);
            && end.disk.state.applied == e.d.revision && end.disk.state.ledger == PlanAt(s, e.d, e.scene).value.ledger
            && end.disk.state.pending.None? && SameFiles(end.disk, s.disk)
  {
    StepFacts(s, e);
  }

  /** A checked revision is safe: when it is confirmed, no readable PSK file gives a bound
      passphrase without outer blanks to every client. */
  lemma {:induction false} ConfirmedIsBound(s: Sys, e: Event, files: seq<PskFile>, i: nat, key: string)
    requires Inv(s) && Confirms(s, e) && e.files == Some(files) && i < |files|
    requires key in s.opening.value.planned.bindingKeys && NoOuterBlanks(key)
    ensures !GivesToEveryone(files[i], key)
  {
    SafeMeansBound(files, s.opening.value.planned.bindingKeys, i, key);
  }

  /** Over runs: the revision and ledger a run ends with are those of its start, or the last
      change of them was a confirm whose check passed or an apply that changed nothing. */
  lemma {:induction false} RunKeptBy(s: Sys, events: seq<Event>) returns (i: nat)
    requires Inv(s) && !SameConfirmed(Run(s, events).disk.state, s.disk.state)
    ensures i < |events|
    ensures var before := Run(s, events[..i]);
            Inv(before) && (Confirms(before, events[i]) || KeepsAtOnce(before, events[i])) &&
            SameConfirmed(Run(s, events).disk.state, Step(before, events[i]).disk.state)
    decreases |events|
  {
    var n := |events| - 1;
    RunSplits(s, events[..n], events[n]);
    assert events == events[..n] + [events[n]];
    var before := Run(s, events[..n]);
    RunInv(s, events[..n]);
    hide Inv, Step, Confirms, KeepsAtOnce;
    if SameConfirmed(Step(before, events[n]).disk.state, before.disk.state) {
      i := RunKeptBy(s, events[..n]);
      assert events[..n][..i] == events[..i];
    } else {
      i := n;
      KeptExactlyBy(before, events[n]);
    }
  }

  /** Why the exception: a process that dies before the first config is written comes back
      with the window open, and its confirm keeps the old files under the new ledger. */
  lemma {:induction false} TornWindowConfirmed(s: Sys, d: Desired, scene: Scene, r: Planned, luck: ApplyLuck, now: int,
                                               files: Option<seq<PskFile>>, sure: ConfirmLuck, calm: RollbackLuck)
    requires Inv(s) && !Open(s) && s.process.Some? && Valid(d)
    requires scene.lockReason.None? && !scene.luciPending && !scene.uncommitted
    requires PlanAt(s, d, scene) == Ok(r) && Parsed(r.w) != s.disk.wireless
    requires luck.copyWireless.Done? && luck.copyNetwork.Done? && luck.save.Done? && luck.wireless.Die?
    requires now < scene.now + ConfirmWindow(d.confirmSeconds)
    requires !Unsafe(files, r.bindingKeys) && sure.save.Done?
    ensures var end := Step(Step(Step(s, EApply(d, scene, luck)), EStart(now, true, calm)), EConfirm(d.revision, files, sure));
            && SameFiles(end.disk, s.disk) && end.disk.state.ledger == r.ledger && end.disk.state.applied == d.revision
            && end.spoiled
  {
    TornApply(s, d, scene, r, luck);
    StepInv(s, EApply(d, scene, luck));
    TornConfirm(Step(s, EApply(d, scene, luck)), now, files, sure, calm);
  }

  lemma {:induction false} TornConfirm(s: Sys, now: int, files: Option<seq<PskFile>>, sure: ConfirmLuck, calm: RollbackLuck)
    requires Inv(s) && Open(s) && s.process.None? && s.torn && now < s.disk.state.pending.value.deadline
    requires !Unsafe(files, s.disk.state.pending.value.bindingKeys) && sure.save.Done?
    ensures var w := s.disk.state.pending.value;
            var end := Step(Step(s, EStart(now, true, calm)), EConfirm(w.revision, files, sure));
            && SameFiles(end.disk, s.disk) && end.disk.state.ledger == w.ledger && end.disk.state.applied == w.revision
            && end.spoiled
  {
  }

  lemma {:induction false} TornApply(s: Sys, d: Desired, scene: Scene, r: Planned, luck: ApplyLuck)
    requires Inv(s) && !Open(s) && s.process.Some? && Valid(d)
    requires scene.lockReason.None? && !scene.luciPending && !scene.uncommitted
    requires PlanAt(s, d, scene) == Ok(r) && Parsed(r.w) != s.disk.wireless
    requires luck.copyWireless.Done? && luck.copyNetwork.Done? && luck.save.Done? && luck.wireless.Die?
    ensures var s1 := Step(s, EApply(d, scene, luck));
            && SameFiles(s1.disk, s.disk) && s1.process.None? && s1.torn
            && s1.disk.state == s.disk.state.(pending := Some(WindowOf(d, r, s.disk.network, scene.now)))
  {
  }

  /** A death inside a rollback does the same: one file is back, the window is still open. */
  lemma {:induction false} DiedInRollbackConfirmed(s: Sys, unsafe: Option<seq<PskFile>>, luck: ConfirmLuck, now: int,
                                                   files: Option<seq<PskFile>>, sure: ConfirmLuck, calm: RollbackLuck)
    requires Inv(s) && Open(s) && !s.torn && s.process.Some? && now < s.disk.state.pending.value.deadline
    requires s.opening.value.wireless != Parsed(s.opening.value.planned.w)
    requires var w := s.disk.state.pending.value; Unsafe(unsafe, w.bindingKeys) && !Unsafe(files, w.bindingKeys)
    requires luck.back.wireless.Done? && luck.back.network.Die? && sure.save.Done?
    ensures var w := s.disk.state.pending.value;
            var s1 := Step(s, EConfirm(w.revision, unsafe, luck));
            var end := Step(Step(s1, EStart(now, true, calm)), EConfirm(w.revision, files, sure));
            && end.disk.wireless == s.opening.value.wireless
            && end.disk.state.ledger == s.opening.value.planned.ledger && end.spoiled
  {
    var w := s.disk.state.pending.value;
    var e := EConfirm(w.revision, unsafe, luck);
    StepInv(s, e);
    assert Step(s, e).torn && Step(s, e).disk.wireless == s.opening.value.wireless;
    TornConfirm(Step(s, e), now, files, sure, calm);
  }

  // ---- an unconfirmed window ends ----

  /** The open window of a live process has its timer: for its revision, at its deadline. */
  ghost predicate TimerArmed(s: Sys) {
    Open(s) && s.process.Some? ==> s.process.value.timer == Some(TimerOf(s)) && TimerOf(s) in s.timers
  }

  function TimerOf(s: Sys): (int, int)
    requires Open(s)
  {
    (s.disk.state.pending.value.revision, s.disk.state.pending.value.deadline)
  }

  lemma {:induction false} StepArmed(s: Sys, e: Event)
    requires Inv(s) && TimerArmed(s)
    ensures TimerArmed(Step(s, e))
  {
    hide PlanAt, PlanFor, HoldsPlan, SameFiles, Unsafe, OpeningOf, OpenWindow, WriteConfigs, Tears;
    StepFacts(s, e);
  }

  lemma {:induction false} RunArmed(s: Sys, events: seq<Event>)
    requires Inv(s) && TimerArmed(s)
    ensures Inv(Run(s, events)) && TimerArmed(Run(s, events))
    decreases |events|
  {
    if events != [] {
      hide Inv, TimerArmed, Step;
      StepInv(s, events[0]);
      StepArmed(s, events[0]);
      RunArmed(Step(s, events[0]), events[1..]);
    }
  }

  /** What ends an open window by itself: its timer while the process lives, the next start
      when it does not. */
  function Ending(s: Sys, at: int, lockFree: bool, luck: RollbackLuck): Event
    requires Open(s)
  {
    if s.process.Some? then ETimeout(TimerOf(s), at, luck) else EStart(at, lockFree, luck)
  }

  /** Nobody has to confirm: after any run that leaves a window open, once its deadline has
      passed its own timer, or the next start of a process that died, closes it with both
      files as its apply found them and the confirmed state as it was. */
  lemma {:induction false} UnconfirmedEnds(s: Sys, events: seq<Event>, at: int, lockFree: bool, luck: RollbackLuck)
    requires Inv(s) && TimerArmed(s)
    requires var before := Run(s, events); Open(before) && before.disk.state.pending.value.deadline <= at
    requires luck.wireless.Done? && luck.network.Done? && luck.save.Done?
    ensures var before := Run(s, events);
            var end := Step(before, Ending(before, at, lockFree, luck));
            && before.opening.Some? && !Open(end) && end.process.Some? && SameConfirmed(end.disk.state, before.disk.state)
            && end.disk.wireless == before.opening.value.wireless && end.disk.network == before.opening.value.network
  {
    RunArmed(s, events);
    var before := Run(s, events);
    hide Run;
    EndingCloses(before, at, lockFree, luck);
  }

  lemma {:induction false} EndingCloses(s: Sys, at: int, lockFree: bool, luck: RollbackLuck)
    requires Inv(s) && TimerArmed(s) && Open(s) && s.disk.state.pending.value.deadline <= at
    requires luck.wireless.Done? && luck.network.Done? && luck.save.Done?
    ensures var end := Step(s, Ending(s, at, lockFree, luck));
            && !Open(end) && end.process.Some? && SameConfirmed(end.disk.state, s.disk.state)
            && end.disk.wireless == s.opening.value.wireless && end.disk.network == s.opening.value.network
  {
    hide Tears, HoldsPlan;
  }

  // ---- no early timeouts ----

  /** Timers belong to windows of their own revision, whose deadline is their time. */
  ghost predicate TimersKept(s: Sys) {
    && (s.process.Some? && s.process.value.timer.Some? ==> s.process.value.timer.value in s.timers)
    && (forall t | t in s.timers :: t.0 in s.used)
    && (Open(s) ==> s.disk.state.pending.value.revision in s.used)
    && (Open(s) ==> forall t | t in s.timers && t.0 == s.disk.state.pending.value.revision ::
          t.1 == s.disk.state.pending.value.deadline)
  }

  /** No window is opened for a revision that had one before. */
  predicate FreshRevisions(s: Sys, events: seq<Event>)
    decreases |events|
  {
    events == [] ||
    ((events[0].EApply? ==> events[0].d.revision !in s.used || Open(s)) && FreshRevisions(Step(s, events[0]), events[1..]))
  }

  lemma {:induction false} StepTimers(s: Sys, e: Event)
    requires Inv(s) && TimersKept(s) && (e.EApply? ==> e.d.revision !in s.used || Open(s))
    ensures TimersKept(Step(s, e))
  {
    hide PlanAt, PlanFor, HoldsPlan, SameFiles, Unsafe, OpeningOf, OpenWindow, WriteConfigs;
    StepFacts(s, e);
  }

  lemma {:induction false} RunTimers(s: Sys, events: seq<Event>)
    requires Inv(s) && TimersKept(s) && FreshRevisions(s, events)
    ensures Inv(Run(s, events)) && TimersKept(Run(s, events))
    decreases |events|
  {
    if events != [] {
      StepInv(s, events[0]);
      StepTimers(s, events[0]);
      RunTimers(Step(s, events[0]), events[1..]);
    }
  }

  /** With revisions that are not reused, no timer ends a window before its deadline,
      however late an old timer fires. */
  lemma {:induction false} NoEarlyTimeout(s: Sys, events: seq<Event>, timer: (int, int), at: int, luck: RollbackLuck)
    requires Inv(s) && TimersKept(s) && FreshRevisions(s, events)
    requires Open(Run(s, events)) && at < Run(s, events).disk.state.pending.value.deadline
    ensures Step(Run(s, events), ETimeout(timer, at, luck)) == Run(s, events)
  {
    RunTimers(s, events);
    var end := Run(s, events);
    if end.process.Some? && timer in end.timers && timer.1 <= at {
      assert timer.0 != end.disk.state.pending.value.revision;
      assert end.timers + Armed(Timeout(end.disk, end.process.value, timer.0, luck)) == end.timers;
    }
  }
}
