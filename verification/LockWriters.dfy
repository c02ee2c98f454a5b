/** The updater and the Wi-Fi plane around the write lock, on their own fields. */
module LockWriters {
  import opened Wrappers
  import opened WriteLock

  /** What one look at the update plan on disk gives. */
  datatype Reading = Unreadable | Plan(id: string, terminal: bool) {
    predicate Over() { Unreadable? || terminal }
  }

  /** install's refusals: another update is busy, another writer's change is pending. */
  datatype InstallError = Busy(reason: string) | BusyPendingApply(reason: string) | KitFailed

  function BusyError(info: Info): InstallError {
    if info.holder.Update? then Busy(info.holder.Reason()) else BusyPendingApply(info.holder.Reason())
  }

  /** What a refused install answers, holder by holder. */
  lemma {:induction false} BusyExactly(info: Info)
    ensures info.holder == Update ==> BusyError(info) == Busy("update_pending")
    ensures info.holder == Groups ==> BusyError(info) == BusyPendingApply("groups_pending")
    ensures info.holder == Plane ==> BusyError(info) == BusyPendingApply("plane_pending")
  {
  }

  /** A plan is over when it ended, and when it cannot be read. */
  lemma {:induction false} OverExactly(id: string)
    ensures Unreadable.Over() && Plan(id, true).Over() && !Plan(id, false).Over()
  {
  }

  class Updater {
    const lock: Lock
    var hold: Hold?

    constructor (lock: Lock)
      ensures this.lock == lock && hold == null
    {
      this.lock, hold := lock, null;
    }

    /** Locks, then calls the kit; only an accepted install leaves the lock taken. */
    method Install(id: string, kitInstalls: bool) returns (res: Result<(), InstallError>)
      modifies this, lock
      ensures match old(lock.Holding())
              case Some(info) => res == Err(BusyError(info)) && lock.cur == old(lock.cur) && hold == old(hold)
              case None =>
                if kitInstalls then res == Ok(()) && lock.Holding() == Some(Info(Update, id)) && lock.cur == hold
                else res == Err(KitFailed) && lock.cur == null && hold == old(hold)
    {
      var h := lock.TryAcquire(Update, id);
      if h.Err? {
        return Err(BusyError(h.error));
      }
      if !kitInstalls {
        Release(h.value);
        return Err(KitFailed);
      }
      hold := h.value;
      return Ok(());
    }

    /** Takes the lock again for a plan that an earlier process began. */
    method Startup(plan: Reading)
      modifies this, lock
      ensures plan.Over() ==> lock.cur == old(lock.cur) && hold == old(hold)
      ensures !plan.Over() && old(lock.cur) == null ==> lock.Holding() == Some(Info(Update, plan.id)) && lock.cur == hold
      ensures !plan.Over() && old(lock.cur) != null ==> lock.cur == old(lock.cur) && hold == old(hold)
    {
      if plan.Over() {
        return;
      }
      var h := lock.TryAcquire(Update, plan.id);
      if h.Ok? {
        hold := h.value;
      }
    }

    /** The watcher of one hold, over the plan readings of its ticks: it frees the hold at the
        first reading that says the plan is over, and looks no further. */
    method ReleaseWhenDone(h: Hold, readings: seq<Reading>) returns (looked: nat)
      requires h.lock == lock
      modifies this, lock
      ensures looked <= |readings|
      ensures forall i | 0 <= i < looked - 1 :: !readings[i].Over()
      ensures old(lock.cur) == h ==>
                if looked > 0 && readings[looked - 1].Over()
                then lock.cur == null && (old(hold) == h ==> hold == null)
                else looked == |readings| && lock.cur == h && hold == old(hold)
      ensures old(lock.cur) != h ==> looked == 0 && lock.cur == old(lock.cur) && hold == old(hold)
    {
      looked := 0;
      while looked < |readings| && h.Active()
        invariant looked <= |readings| && lock.cur == old(lock.cur) && hold == old(hold)
        invariant old(lock.cur) != h ==> looked == 0
        invariant forall i | 0 <= i < looked :: !readings[i].Over()
      {
        looked := looked + 1;
        if readings[looked - 1].Over() {
          if hold == h {
            hold := null;
          }
          Release(h);
          return;
        }
      }
    }
  }

  /** The write lock as the plane's lock. */
  class PlaneLock {
    const lock: Lock
    var hold: Hold?

    constructor (lock: Lock)
      ensures this.lock == lock && hold == null
    {
      this.lock, hold := lock, null;
    }

    method Acquire(id: string) returns (ok: bool, reason: string)
      modifies this, lock
      ensures match old(lock.Holding())
              case Some(info) => !ok && reason == info.holder.Reason() && lock.cur == old(lock.cur) && hold == old(hold)
              case None => ok && reason == "" && lock.Holding() == Some(Info(Plane, id)) && lock.cur == hold && hold.lock == lock
    {
      var h := lock.TryAcquire(Plane, id);
      if h.Err? {
        return false, h.error.holder.Reason();
      }
      hold := h.value;
      return true, "";
    }

    /** A hold that lost the lock, or none, frees nothing. */
    method ReleaseHold()
      requires hold != null ==> hold.lock == lock
      modifies this, lock
      ensures hold == null
      ensures old(hold) != null && old(lock.cur) == old(hold) ==> lock.cur == null
      ensures old(hold) == null || old(lock.cur) != old(hold) ==> lock.cur == old(lock.cur)
    {
      var h := hold;
      hold := null;
      Release(h);
    }
  }
}
