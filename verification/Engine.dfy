/** The engine as it runs: state, timer and hold in fields, the disk written one file at a
    time, and the process able to die at every write. Each method is proved against the
    operation of EngineModel it implements. */
module Engine {
  import opened Wrappers
  import opened UciConfig
  import opened GroupsPlan
  import opened GroupsPlanner
  import opened Psk
  import opened WriteLock
  import opened EngineModel

  /** The disk, and whether the process that writes to it still lives. */
  class Device {
    var wireless: File
    var network: File
    var rbWireless: Option<File>
    var rbNetwork: Option<File>
    var state: Stored
    var alive: bool

    ghost function Disk(): Disk
      reads this
    {
      EngineModel.Disk(wireless, network, rbWireless, rbNetwork, state)
    }

    constructor (wireless: File, network: File, state: Stored)
      ensures Disk() == EngineModel.Disk(wireless, network, None, None, state) && alive
    {
      this.wireless, this.network, this.state := wireless, network, state;
      rbWireless, rbNetwork, alive := None, None, true;
    }

    method WriteWireless(f: File, fate: Fate) returns (ok: bool)
      requires alive
      modifies this
      ensures ok == fate.Done? && alive == !fate.Die?
      ensures Disk() == if fate.Done? then old(Disk()).(wireless := f) else old(Disk())
    {
      ok, alive := fate.Done?, !fate.Die?;
      if ok {
        wireless := f;
      }
    }

    method WriteNetwork(f: File, fate: Fate) returns (ok: bool)
      requires alive
      modifies this
      ensures ok == fate.Done? && alive == !fate.Die?
      ensures Disk() == if fate.Done? then old(Disk()).(network := f) else old(Disk())
    {
      ok, alive := fate.Done?, !fate.Die?;
      if ok {
        network := f;
      }
    }

    /** The rollback copies: written before a window, removed (None) after its confirm. */
    method WriteCopyWireless(f: Option<File>, fate: Fate) returns (ok: bool)
      requires alive
      modifies this
      ensures ok == fate.Done? && alive == !fate.Die?
      ensures Disk() == if fate.Done? then old(Disk()).(rbWireless := f) else old(Disk())
    {
      ok, alive := fate.Done?, !fate.Die?;
      if ok {
        rbWireless := f;
      }
    }

    method WriteCopyNetwork(f: Option<File>, fate: Fate) returns (ok: bool)
      requires alive
      modifies this
      ensures ok == fate.Done? && alive == !fate.Die?
      ensures Disk() == if fate.Done? then old(Disk()).(rbNetwork := f) else old(Disk())
    {
      ok, alive := fate.Done?, !fate.Die?;
      if ok {
        rbNetwork := f;
      }
    }

    /** Saving the state is taken to succeed unless the process dies. */
    method Save(st: Stored, fate: Fate)
      requires alive
      modifies this
      ensures alive == fate.Done?
      ensures Disk() == if fate.Done? then old(Disk()).(state := st) else old(Disk())
    {
      alive := fate.Done?;
      if alive {
        state := st;
      }
    }
  }

  class Engine {
    const dev: Device
    const lock: Lock
    var st: Stored
    var timer: Option<(int, int)>
    var hold: Hold?

    ghost predicate Consistent()
      reads this, dev, lock
    {
      dev.alive && (hold != null ==> hold.lock == lock && lock.cur == hold)
    }

    ghost function Process(): Process
      reads this
    {
      EngineModel.Process(st, timer, hold != null)
    }

    /** The device, the process and the answer are what the operation comes to; a live
        process leaves the lock to itself or as it was. */
    ghost predicate CameTo(a: After, outcome: Outcome)
      reads this, dev, lock
    {
      && dev.Disk() == a.disk && outcome == a.outcome
      && (a.process.Some? <==> dev.alive)
      && (a.process.Some? ==> Consistent() && Process() == a.process.value)
    }

    /** New: the state is read back from the disk. */
    constructor (dev: Device, lock: Lock)
      requires dev.alive
      ensures this.dev == dev && this.lock == lock && Consistent()
      ensures Process() == EngineModel.Process(dev.state, None, false)
    {
      this.dev, this.lock := dev, lock;
      st, timer, hold := dev.state, None, null;
    }

    method ReleaseLock()
      requires hold != null ==> hold.lock == lock && lock.cur == hold
      modifies this`hold, lock
      ensures hold == null
      ensures old(hold) != null ==> lock.cur == null
      ensures old(hold) == null ==> lock.cur == old(lock.cur)
    {
      Release(hold);
      hold := null;
    }

    /** In place, EngineModel.Rollback; each write can be the last one of the process. */
    method RollbackLocked(luck: RollbackLuck) returns (outcome: Outcome)
      requires Consistent() && st.pending.Some?
      modifies this`st, this`timer, this`hold, dev, lock
      ensures CameTo(Rollback(old(dev.Disk()), old(Process()), luck), outcome)
      ensures dev.alive ==> lock.cur == if old(hold) == null then old(lock.cur) else null
    {
      ghost var disk, p := dev.Disk(), Process();
      timer := None;
      var wirelessBack, networkBack := false, false;
      if dev.rbWireless.Some? {
        wirelessBack := dev.WriteWireless(dev.rbWireless.value, luck.wireless);
      } else {
        dev.alive := !luck.wireless.Die?;
      }
      if !dev.alive { return Died; }
      if dev.rbNetwork.Some? {
        networkBack := dev.WriteNetwork(dev.rbNetwork.value, luck.network);
      } else {
        dev.alive := !luck.network.Die?;
      }
      if !dev.alive { return Died; }
      st := st.(pending := None, lastRollback := Some(st.pending.value.revision));
      dev.Save(st, luck.save);
      if !dev.alive { return Died; }
      ReleaseLock();
      outcome := RolledBack(wirelessBack, networkBack);
    }

    ghost function SceneOf(detected: string, luciPending: bool, uncommitted: bool, now: int): Scene
      reads lock
    {
      Scene(detected, luciPending, uncommitted,
            if lock.cur == null then None else Some(lock.cur.info.holder.Reason()), now)
    }

    /** From the saved window on. */
    method WriteWindow(d: Desired, r: Planned, now: int, luck: ApplyLuck, h: Hold) returns (outcome: Outcome)
      requires dev.alive && h.lock == lock && lock.cur == h && luck.save.Done?
      modifies this`st, this`timer, this`hold, dev, lock
      ensures CameTo(WriteConfigs(old(dev.Disk()), old(Process()), d, r, now, luck), outcome)
      ensures dev.alive && hold == null ==> lock.cur == null
    {
      var before, wChanged, nChanged := dev.wireless, Parsed(r.w) != dev.wireless, Parsed(r.n) != dev.network;
      ghost var opening := Opening(dev.wireless, dev.network, r);
      var deadline := now + ConfirmWindow(d.confirmSeconds);
      var beforeN := dev.network;
      st := st.(pending := Some(Pending(d.revision, deadline, r.ledger, nChanged, r.bindingKeys)));
      // The hold moves from the call to the engine.
      hold, timer := h, None;
      dev.Save(st, luck.save);
      if wChanged {
        var ok := dev.WriteWireless(Parsed(r.w), luck.wireless);
        if !dev.alive { return Died; }
        if !ok {
          outcome := RollbackLocked(luck.back);
          return;
        }
      }
      if nChanged {
        var ok := dev.WriteNetwork(Parsed(r.n), luck.network);
        if !dev.alive { return Died; }
        if !ok {
          outcome := RollbackLocked(luck.back);
          return;
        }
      }
      if luck.reloadFails {
        outcome := RollbackLocked(luck.back);
        return;
      }
      timer := Some((d.revision, deadline));
      outcome := Opened(Opening(before, beforeN, r));
    }

    /** Apply with the lock taken; it is released unless a window was opened. */
    method ApplyHolding(d: Desired, scene: Scene, luck: ApplyLuck, h: Hold) returns (outcome: Outcome)
      requires dev.alive && hold == null && h.lock == lock && lock.cur == h
      requires st.pending.None? && GroupsPlan.Valid(d) && scene.lockReason.None?
      requires dev.wireless.Parsed? ==> UniqueNames(dev.wireless.c)
      requires dev.network.Parsed? ==> UniqueNames(dev.network.c)
      modifies this`st, this`timer, this`hold, dev, lock
      ensures dev.Disk() == EngineModel.Apply(old(dev.Disk()), old(Process()), d, scene, luck).disk
      ensures CameTo(EngineModel.Apply(old(dev.Disk()), old(Process()), d, scene, luck), outcome)
      ensures dev.alive && hold == null ==> lock.cur == null
    {
      hide GroupsPlan.Plan, GroupsPlan.Valid, EngineModel.OpenWindow, UniqueNames;
      if scene.luciPending {
        Release(h);
        return Refused(Busy("luci_pending"));
      }
      if scene.uncommitted {
        Release(h);
        return Refused(Uncommitted);
      }
      if dev.wireless.Garbled? || dev.network.Garbled? {
        Release(h);
        return Refused(ConfigUnreadable);
      }
      var wc := new ConfigFile("wireless", dev.wireless.c);
      var nc := new ConfigFile("network", dev.network.c);
      var res := GroupsPlanner.Plan(wc, nc, d, scene.detected, st.ledger);
      if res.Err? {
        Release(h);
        return Refused(res.error);
      }
      var r := res.value;
      if Parsed(r.w) == dev.wireless && Parsed(r.n) == dev.network {
        st := st.(applied := d.revision, ledger := r.ledger);
        dev.Save(st, luck.save);
        if !dev.alive { return Died; }
        Release(h);
        return Noop;
      }
      outcome := WriteCopies(d, r, scene.now, luck, h);
    }

    /** Both copies, then the window. */
    method WriteCopies(d: Desired, r: Planned, now: int, luck: ApplyLuck, h: Hold) returns (outcome: Outcome)
      requires dev.alive && hold == null && h.lock == lock && lock.cur == h && st.pending.None?
      modifies this`st, this`timer, this`hold, dev, lock
      ensures CameTo(EngineModel.OpenWindow(old(dev.Disk()), old(Process()), d, r, now, luck), outcome)
      ensures dev.alive && hold == null ==> lock.cur == null
    {
      var ok := dev.WriteCopyWireless(Some(dev.wireless), luck.copyWireless);
      if !dev.alive { return Died; }
      if !ok {
        Release(h);
        return Refused(ApplyFailed);
      }
      ok := dev.WriteCopyNetwork(Some(dev.network), luck.copyNetwork);
      if !dev.alive { return Died; }
      if !ok {
        Release(h);
        return Refused(ApplyFailed);
      }
      if !luck.save.Done? {
        dev.alive := false;
        return Died;
      }
      outcome := WriteWindow(d, r, now, luck, h);
    }

    /** The refusals that need no lock, then the rest with the lock held. */
    method Apply(d: Desired, detected: string, luciPending: bool, uncommitted: bool, now: int, luck: ApplyLuck)
        returns (outcome: Outcome)
      requires Consistent() && (st.pending.None? ==> hold == null)
      requires dev.wireless.Parsed? ==> UniqueNames(dev.wireless.c)
      requires dev.network.Parsed? ==> UniqueNames(dev.network.c)
      modifies this`st, this`timer, this`hold, dev, lock
      ensures CameTo(EngineModel.Apply(old(dev.Disk()), old(Process()), d, old(SceneOf(detected, luciPending, uncommitted, now)), luck), outcome)
      ensures dev.alive && hold == null ==> lock.cur == old(lock.cur)
    {
      if st.pending.Some? {
        return if st.pending.value.revision == d.revision then Repeated else Refused(Busy("groups_pending"));
      }
      if !GroupsPlan.Valid(d) {
        return Refused(BadParams);
      }
      var h := lock.TryAcquire(Groups, "groups");
      if h.Err? {
        return Refused(Busy(h.error.holder.Reason()));
      }
      outcome := ApplyHolding(d, Scene(detected, luciPending, uncommitted, None, now), luck, h.value);
    }

    /** Commits the open window, or ends it by a rollback when the PSK files are unsafe. */
    method Confirm(revision: int, files: Option<seq<PskFile>>, luck: ConfirmLuck) returns (outcome: Outcome)
      requires Consistent()
      modifies this`st, this`timer, this`hold, dev, lock
      ensures CameTo(EngineModel.Confirm(old(dev.Disk()), old(Process()), revision, files, luck), outcome)
    {
      if st.pending.None? || st.pending.value.revision != revision {
        if st.pending.None? && st.applied == revision {
          return Idle;
        }
        return Refused(NotPending);
      }
      var w := st.pending.value;
      var unsafe := CheckPSKFiles(files, w.bindingKeys);
      if unsafe {
        outcome := RollbackLocked(luck.back);
        return;
      }
      timer := None;
      st := st.(applied := revision, ledger := w.ledger, pending := None);
      dev.Save(st, luck.save);
      if !dev.alive { return Died; }
      ReleaseLock();
      var _ := dev.WriteCopyWireless(None, luck.removeWireless);
      if !dev.alive { return Died; }
      var _ := dev.WriteCopyNetwork(None, luck.removeNetwork);
      outcome := if dev.alive then Confirmed else Died;
    }

    /** The timer's function. */
    method TimerFired(revision: int, luck: RollbackLuck) returns (outcome: Outcome)
      requires Consistent()
      modifies this`st, this`timer, this`hold, dev, lock
      ensures CameTo(Timeout(old(dev.Disk()), old(Process()), revision, luck), outcome)
    {
      if st.pending.Some? && st.pending.value.revision == revision {
        outcome := RollbackLocked(luck);
      } else {
        outcome := Idle;
      }
    }

    /** A process that begins with a window on disk: a free lock is taken for it, then it is
        rolled back when overdue, or its timer armed. */
    method Start(now: int, luck: RollbackLuck) returns (outcome: Outcome)
      requires Consistent() && Process() == EngineModel.Process(dev.state, None, false)
      modifies this`st, this`timer, this`hold, dev, lock
      ensures CameTo(EngineModel.Start(old(dev.Disk()), now, old(lock.cur) == null, luck), outcome)
    {
      if st.pending.None? {
        return Idle;
      }
      var h := lock.TryAcquire(Groups, "groups");
      if h.Ok? {
        hold := h.value;
      }
      if st.pending.value.deadline <= now {
        outcome := RollbackLocked(luck);
        return;
      }
      timer := Some((st.pending.value.revision, st.pending.value.deadline));
      outcome := Idle;
    }
  }
}
