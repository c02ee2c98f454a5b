/** The write lock: in memory, with the holder's name, shared by three writers. */
module WriteLock {
  import opened Wrappers

  datatype Holder = Groups | Plane | Update {
    function Reason(): string {
      match this
      case Groups => "groups_pending"
      case Plane => "plane_pending"
      case Update => "update_pending"
    }
  }

  datatype Info = Info(holder: Holder, id: string)

  class Hold {
    const lock: Lock
    const info: Info

    constructor (lock: Lock, info: Info)
      ensures this.lock == lock && this.info == info
    {
      this.lock := lock;
      this.info := info;
    }

    predicate Active()
      reads lock
    {
      lock.cur == this
    }
  }

  class Lock {
    var cur: Hold?

    constructor ()
      ensures cur == null
    {
      cur := null;
    }

    /** The lock as the protocol sees it: who holds it. */
    function Holding(): Option<Info>
      reads this
    {
      if cur == null then None else Some(cur.info)
    }

    /** Never waits: a taken lock is refused with its holder, the same writer's included. */
    method TryAcquire(holder: Holder, id: string) returns (res: Result<Hold, Info>)
      modifies this
      ensures match old(Holding())
              case Some(info) => res == Err(info) && cur == old(cur)
              case None => res.Ok? && fresh(res.value) && res.value.lock == this && cur == res.value
                           && Holding() == Some(Info(holder, id))
    {
      if cur != null {
        return Err(cur.info);
      }
      var h := new Hold(this, Info(holder, id));
      cur := h;
      return Ok(h);
    }
  }

  /** Frees the lock if this hold still has it; safe on no hold and more than once. */
  method Release(hold: Hold?)
    modifies if hold == null then {} else {hold.lock}
    ensures hold != null && old(hold.lock.cur) == hold ==> hold.lock.cur == null
    ensures hold != null && old(hold.lock.cur) != hold ==> hold.lock.cur == old(hold.lock.cur)
  {
    if hold != null && hold.lock.cur == hold {
      hold.lock.cur := null;
    }
  }
}
