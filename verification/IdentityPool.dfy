/**
  The status of an identity pool and its transitions
  (`update_status` of src/identity_pool/identity_pool_resource.rs:256-309).
 */
module IdentityPool {
  import opened Wrappers

  /** The phases Initialized, Failed, Ready and InUse of an identity; NoStatus before the first write. */
  datatype IdPhase = NoStatus | Init | Broken | Free | InUse

  /** Phases and, sharing the source's enumeration, the events that `update_status` accepts. */
  datatype PoolPhase =
    | Initialized | Failed | OutOfSync | Ready | Deleting
    | Locked | Unlocked | IdentityCreated | IdentityDeleted

  datatype PoolStatus = PoolStatus(phase: PoolPhase, size: int, locked: int)

  const NEW_POOL := PoolStatus(Initialized, 0, 0)

  /** The phase that follows every change of a counter. */
  function BalancePhase(size: int, locked: int): PoolPhase {
    if size >= locked then Ready else OutOfSync
  }

  function SizeChange(event: PoolPhase): int {
    if event == IdentityCreated then 1 else if event == IdentityDeleted then -1 else 0
  }

  function LockedChange(event: PoolPhase): int {
    if event == Locked then 1 else if event == Unlocked then -1 else 0
  }

  predicate IsCounterEvent(event: PoolPhase) {
    event == Locked || event == Unlocked || event == IdentityCreated || event == IdentityDeleted
  }

  /** The status `update_status` stores, in memory and in the API. */
  function NextStatus(status: PoolStatus, event: PoolPhase): PoolStatus {
    if event == Deleting then status
    else
      var size := status.size + SizeChange(event);
      var locked := status.locked + LockedChange(event);
      PoolStatus(if IsCounterEvent(event) then BalancePhase(size, locked) else event, size, locked)
  }

  /**
    The counter events change one counter by one, and the phase then says whether there are as many
    identities as locks; every other event changes only the phase, and Deleting changes nothing.
   */
  lemma EventEffects(status: PoolStatus, event: PoolPhase)
    ensures
      var next := NextStatus(status, event);
      && next.size == status.size + (if event == IdentityCreated then 1 else if event == IdentityDeleted then -1 else 0)
      && next.locked == status.locked + (if event == Locked then 1 else if event == Unlocked then -1 else 0)
      && (next.size != status.size || next.locked != status.locked ==>
            next.phase == if next.size >= next.locked then Ready else OutOfSync)
      && (next.size == status.size && next.locked == status.locked ==>
            next.phase == if event == Deleting then status.phase else event)
  {
  }

  /** A pool object: the copy the operator works on and the status the API server stores. */
  class Pool {
    var status: Option<PoolStatus>
    var published: Option<PoolStatus>

    constructor (status: Option<PoolStatus>)
      ensures this.status == status && published == status
    {
      this.status := status;
      published := status;
    }

    method UpdateStatus(phase: PoolPhase)
      modifies this
      ensures phase == Deleting ==> status == old(status) && published == old(published)
      ensures phase != Deleting ==>
                && published == status
                && status == Some(NextStatus(if old(status).Some? then old(status).value else NEW_POOL, phase))
    {
      var next := if status.Some? then status.value else NEW_POOL;
      if phase == Deleting {
        return;
      }
      next := next.(phase := phase);
      if phase == IdentityCreated {
        next := next.(size := next.size + 1);
        if next.size >= next.locked {
          next := next.(phase := Ready);
        } else {
          next := next.(phase := OutOfSync);
        }
      } else if phase == IdentityDeleted {
        next := next.(size := next.size - 1);
        if next.size >= next.locked {
          next := next.(phase := Ready);
        } else {
          next := next.(phase := OutOfSync);
        }
      }
      if phase == Locked {
        next := next.(locked := next.locked + 1);
        if next.size >= next.locked {
          next := next.(phase := Ready);
        } else {
          next := next.(phase := OutOfSync);
        }
      } else if phase == Unlocked {
        next := next.(locked := next.locked - 1);
        if next.size >= next.locked {
          next := next.(phase := Ready);
        } else {
          next := next.(phase := OutOfSync);
        }
      }
      published := Some(next);
      status := Some(next);
    }
  }
}
