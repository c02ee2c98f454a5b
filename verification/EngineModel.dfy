/** The confirm-or-rollback window of the device-groups engine on values: what each
    operation does to the disk and to the process, with the process dying at any write. */
module EngineModel {
  import opened Wrappers
  import opened UciConfig
  import opened GroupsPlan
  import opened Psk

  /** A config file: parsed, or something the parser rejects. A missing file is empty. */
  datatype File = Parsed(c: Config) | Garbled(bytes: string)

  datatype Pending = Pending(revision: int, deadline: int, ledger: Ledger, network: bool, bindingKeys: seq<string>)

  /** state.json. */
  datatype Stored = Stored(applied: int, ledger: Ledger, pending: Option<Pending>, lastRollback: Option<int>)

  datatype Disk = Disk(wireless: File, network: File, rbWireless: Option<File>, rbNetwork: Option<File>, state: Stored)

  /** What the running process holds besides: its copy of the state, its timer's revision
      and time, and the write lock. */
  datatype Process = Process(st: Stored, timer: Option<(int, int)>, holds: bool)

  /** How one write goes: the process may die before it takes effect. */
  datatype Fate = Done | Fail | Die

  datatype RollbackLuck = RollbackLuck(wireless: Fate, network: Fate, save: Fate)
  datatype ApplyLuck = ApplyLuck(copyWireless: Fate, copyNetwork: Fate, save: Fate, wireless: Fate, network: Fate,
                                 reloadFails: bool, back: RollbackLuck)
  datatype ConfirmLuck = ConfirmLuck(save: Fate, removeWireless: Fate, removeNetwork: Fate, back: RollbackLuck)

  /** What an apply finds on the device. */
  datatype Scene = Scene(detected: string, luciPending: bool, uncommitted: bool, lockReason: Option<string>, now: int)

  /** The plan a window was opened with. */
  datatype Opening = Opening(wireless: File, network: File, planned: Planned)

  /** An apply that ends in a rollback answers apply_failed, a confirm that does
      unsafe_binding. */
  datatype Outcome =
    | Idle
    | Refused(why: Refusal)
    | Repeated
    | Noop
    | Opened(opening: Opening)
    | Confirmed
    | RolledBack(wirelessBack: bool, networkBack: bool)
    | Died

  /** An operation's result: the disk, the process (None: it died) and what happened. */
  datatype After = After(disk: Disk, process: Option<Process>, outcome: Outcome)

  const MIN_CONFIRM := 30
  const MAX_CONFIRM := 600
  const DEFAULT_CONFIRM := 120

  function ConfirmWindow(seconds: int): int {
    var c := if seconds == 0 then DEFAULT_CONFIRM else seconds;
    if c < MIN_CONFIRM then MIN_CONFIRM else if c > MAX_CONFIRM then MAX_CONFIRM else c
  }

  // ---- rollback ----

  function Restored(file: File, copy: Option<File>, fate: Fate): File {
    if fate.Done? && copy.Some? then copy.value else file
  }

  /** Puts the copies back and closes the window. The state is written last. */
  function Rollback(disk: Disk, p: Process, luck: RollbackLuck): After
    requires p.st.pending.Some?
  {
    if luck.wireless.Die? then After(disk, None, Died)
    else
      var d1 := disk.(wireless := Restored(disk.wireless, disk.rbWireless, luck.wireless));
      if luck.network.Die? then After(d1, None, Died)
      else
        var d2 := d1.(network := Restored(d1.network, d1.rbNetwork, luck.network));
        if !luck.save.Done? then After(d2, None, Died)
        else
          var st := p.st.(pending := None, lastRollback := Some(p.st.pending.value.revision));
          After(d2.(state := st), Some(Process(st, None, false)),
                RolledBack(luck.wireless.Done? && disk.rbWireless.Some?, luck.network.Done? && disk.rbNetwork.Some?))
  }

  // ---- apply ----

  /** The writes of an apply, once its plan is known to change something. */
  function OpenWindow(disk: Disk, p: Process, d: Desired, r: Planned, now: int, luck: ApplyLuck): After {
    if luck.copyWireless.Die? then After(disk, None, Died)
    else if luck.copyWireless.Fail? then After(disk, Some(p), Refused(ApplyFailed))
    else
      var d1 := disk.(rbWireless := Some(disk.wireless));
      if luck.copyNetwork.Die? then After(d1, None, Died)
      else if luck.copyNetwork.Fail? then After(d1, Some(p), Refused(ApplyFailed))
      else
        var d2 := d1.(rbNetwork := Some(disk.network));
        if !luck.save.Done? then After(d2, None, Died)
        else WriteConfigs(d2, p, d, r, now, luck)
  }

  function WindowOf(d: Desired, r: Planned, network: File, now: int): Pending {
    Pending(d.revision, now + ConfirmWindow(d.confirmSeconds), r.ledger, Parsed(r.n) != network, r.bindingKeys)
  }

  /** From the saved window on: the configs, then the reload, then the timer. */
  function WriteConfigs(d2: Disk, p: Process, d: Desired, r: Planned, now: int, luck: ApplyLuck): After {
    var st := p.st.(pending := Some(WindowOf(d, r, d2.network, now)));
    var d3 := d2.(state := st);
    var holding := Process(st, None, true);
    if Parsed(r.w) != d2.wireless && luck.wireless.Die? then After(d3, None, Died)
    else if Parsed(r.w) != d2.wireless && luck.wireless.Fail? then Rollback(d3, holding, luck.back)
    else
      var d4 := d3.(wireless := Parsed(r.w));
      if Parsed(r.n) != d2.network && luck.network.Die? then After(d4, None, Died)
      else if Parsed(r.n) != d2.network && luck.network.Fail? then Rollback(d4, holding, luck.back)
      else
        var d5 := d4.(network := Parsed(r.n));
        if luck.reloadFails then Rollback(d5, holding, luck.back)
        else After(d5, Some(holding.(timer := Some((d.revision, st.pending.value.deadline)))),
                   Opened(Opening(d2.wireless, d2.network, r)))
  }

  /** What the planner makes of the files. */
  function PlanFor(disk: Disk, ledger: Ledger, d: Desired, scene: Scene): Result<Planned, Refusal> {
    if disk.wireless.Garbled? || disk.network.Garbled? then Err(ConfigUnreadable)
    else Plan(disk.wireless.c, disk.network.c, d, scene.detected, ledger)
  }

  /** An apply, given what the planner makes of the files. */
  function ApplyWith(disk: Disk, p: Process, d: Desired, scene: Scene, plan: Result<Planned, Refusal>, luck: ApplyLuck): After {
    if p.st.pending.Some? then
      After(disk, Some(p), if p.st.pending.value.revision == d.revision then Repeated else Refused(Busy("groups_pending")))
    else if !Valid(d) then After(disk, Some(p), Refused(BadParams))
    else if scene.lockReason.Some? then After(disk, Some(p), Refused(Busy(scene.lockReason.value)))
    else if scene.luciPending then After(disk, Some(p), Refused(Busy("luci_pending")))
    else if scene.uncommitted then After(disk, Some(p), Refused(Uncommitted))
    else
      match plan
      case Err(e) => After(disk, Some(p), Refused(e))
      case Ok(r) =>
        if Parsed(r.w) == disk.wireless && Parsed(r.n) == disk.network then
          var st := p.st.(applied := d.revision, ledger := r.ledger);
          if !luck.save.Done? then After(disk, None, Died)
          else After(disk.(state := st), Some(p.(st := st)), Noop)
        else OpenWindow(disk, p, d, r, scene.now, luck)
  }

  function Apply(disk: Disk, p: Process, d: Desired, scene: Scene, luck: ApplyLuck): After {
    ApplyWith(disk, p, d, scene, PlanFor(disk, p.st.ledger, d, scene), luck)
  }

  // ---- confirm, timeout, start ----

  function Confirm(disk: Disk, p: Process, revision: int, files: Option<seq<PskFile>>, luck: ConfirmLuck): After {
    match p.st.pending
    case None => After(disk, Some(p), if p.st.applied == revision then Idle else Refused(NotPending))
    case Some(w) =>
      if w.revision != revision then After(disk, Some(p), Refused(NotPending))
      else if Unsafe(files, w.bindingKeys) then
        Rollback(disk, p, luck.back)
      else if !luck.save.Done? then After(disk, None, Died)
      else
        var st := p.st.(applied := revision, ledger := w.ledger, pending := None);
        var d1 := disk.(state := st);
        if luck.removeWireless.Die? then After(d1, None, Died)
        else
          var d2 := if luck.removeWireless.Done? then d1.(rbWireless := None) else d1;
          if luck.removeNetwork.Die? then After(d2, None, Died)
          else
            After(if luck.removeNetwork.Done? then d2.(rbNetwork := None) else d2,
                  Some(Process(st, None, false)), Confirmed)
  }

  /** A timer's function: it compares revisions only. */
  function Timeout(disk: Disk, p: Process, revision: int, luck: RollbackLuck): After {
    if p.st.pending.Some? && p.st.pending.value.revision == revision then Rollback(disk, p, luck)
    else After(disk, Some(p), Idle)
  }

  /** New and Start in one step: the process is what the disk says; an overdue window rolls
      back, any other gets its timer. */
  function Start(disk: Disk, now: int, lockFree: bool, luck: RollbackLuck): After {
    var p := Process(disk.state, None, disk.state.pending.Some? && lockFree);
    if disk.state.pending.None? then After(disk, Some(p), Idle)
    else if disk.state.pending.value.deadline <= now then Rollback(disk, p, luck)
    else After(disk, Some(p.(timer := Some((disk.state.pending.value.revision, disk.state.pending.value.deadline)))), Idle)
  }
}
