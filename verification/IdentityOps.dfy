/**
  The operations on identities as the source writes them, one statement after another, and their
  place in the protocol: a call that is not interrupted is a run of the protocol's steps
  (src/hoprd/hoprd_resource.rs:271-325, src/identity_hoprd/identity_hoprd_resource.rs:99-319).
 */
module IdentityOps {
  import opened Wrappers
  import opened IdentityPool
  import opened IdentityLock
  import opened IdentityTheorems

  lemma Run3(cfg: Config, s: State, a: Action, b: Action, c: Action)
    ensures Run(cfg, s, [a, b, c]) == Step(cfg, Step(cfg, Step(cfg, s, a), b), c)
  {
    assert [a, b, c] == [a] + [b, c];
    RunConcat(cfg, s, [a], [b, c]);
    Run1(cfg, s, a);
    Run2(cfg, Step(cfg, s, a), b, c);
  }

  /** The identity a node asks for is in the pool it asks for, which is in memory, and may be given to it. */
  predicate Obtainable(cfg: Config, s: State, n: Name)
    requires n in cfg.want
  {
    var pool, x := cfg.want[n].pool, cfg.want[n].identity;
    && pool in s.mem && x in s.ids && x in cfg.poolOf && cfg.poolOf[x] == pool
    && (s.ids[x].phase == Free || (s.ids[x].phase == InUse && s.ids[x].holder == Some(x)))
  }

  /** Only the phase and the holder of one identity have changed. */
  predicate Relabeled(before: map<Name, Identity>, after: map<Name, Identity>, x: Name, phase: IdPhase, holder: Option<Name>) {
    && x in before && x in after && after == before[x := after[x]]
    && after[x].phase == phase && after[x].holder == holder && after[x].stage == before[x].stage
  }

  /** Only the counters of one pool have changed, by the given numbers, and the API shows the same status as the memory. */
  predicate Recounted(before: State, after: State, p: Name, locked: int, size: int) {
    && p in before.mem && p in after.mem && after.mem == before.mem[p := after.mem[p]]
    && after.mem[p].status.locked == before.mem[p].status.locked + locked
    && after.mem[p].status.size == before.mem[p].status.size + size
    && after.mem[p].status.phase == (if after.mem[p].status.size >= after.mem[p].status.locked then Ready else OutOfSync)
    && after.api == before.api[p := after.mem[p].status]
  }

  lemma BumpRecounts(before: State, s: State, p: Name, event: PoolPhase, drift: int)
    requires p in s.mem && before.mem == s.mem && before.api == s.api && IsCounterEvent(event)
    ensures Recounted(before, Bump(s, p, event, drift), p,
                      if event == Locked then 1 else if event == Unlocked then -1 else 0,
                      if event == IdentityCreated then 1 else if event == IdentityDeleted then -1 else 0)
  {
    EventEffects(s.mem[p].status, event);
  }

  class Store {
    const cfg: Config
    var ids: map<Name, Identity>
    var nodes: map<Name, NodePc>
    var mem: map<Name, Cached>
    var api: map<Name, PoolStatus>
    ghost var stale: set<Name>
    ghost var raced: bool
    var mutex: Option<Name>

    constructor (cfg: Config)
      ensures this.cfg == cfg && Contents() == Start()
    {
      this.cfg := cfg;
      ids, nodes, mem, api := map[], map[], map[], map[];
      stale, raced, mutex := {}, false, None;
    }

    ghost function Contents(): State
      reads this
    {
      State(ids, nodes, mem, api, stale, mutex, raced)
    }

    /** `update_identity_pool` */
    method ReplaceCached(p: Name, copy: Cached)
      modifies `mem
      ensures mem == old(mem)[p := copy]
    {
      mem := mem - {p};
      mem := mem[p := copy];
      assert mem == old(mem)[p := copy];
    }

    /** Updates a cached pool, publishes its status and puts the copy back into the cache; `drift` is bookkeeping. */
    method UpdatePool(p: Name, event: PoolPhase, drift: int)
      requires p in mem && IsCounterEvent(event)
      modifies `mem, `api, `stale
      ensures Contents() == Bump(old(Contents()), p, event, drift)
    {
      var cached := mem[p];
      var pool := new Pool(Some(cached.status));
      pool.UpdateStatus(event);
      var status := pool.status.value;
      assert status == NextStatus(cached.status, event) == pool.published.value;
      api := api[p := pool.published.value];
      stale := stale - {p};
      ReplaceCached(p, Cached(status, cached.lockDrift, cached.sizeDrift + drift));
    }

    /** The first identity of the pool with the requested name, when it is Ready or recorded as held by its own name. */
    method GetReadyIdentity(pool: Name, identity: Name) returns (r: Option<Identity>)
      ensures r == if identity in ids && identity in cfg.poolOf && cfg.poolOf[identity] == pool
                      && (ids[identity].phase == Free || (ids[identity].phase == InUse && ids[identity].holder == Some(identity)))
                   then Some(ids[identity]) else None
    {
      if identity !in ids || identity !in cfg.poolOf || cfg.poolOf[identity] != pool {
        return None;
      }
      var found := ids[identity];
      if found.phase == Free {
        return Some(found);
      } else if found.phase == InUse && found.holder == Some(identity) {
        return Some(found);
      }
      return None;
    }

    /** Writes InUse with the node as the holder and counts the lock. */
    method MarkLocked(n: Name, x: Name, pool: Name)
      requires x in ids && pool in mem
      modifies `ids, `mem, `api, `stale, `raced
      ensures
        var s := old(Contents());
        Contents() == Bump(SetId(s, x, s.ids[x].(phase := InUse, holder := Some(n))).(raced := s.raced || s.ids[x].stage != Live), pool, Locked, 0)
    {
      raced := raced || ids[x].stage != Live;
      ids := ids[x := ids[x].(phase := InUse, holder := Some(n))];
      UpdatePool(pool, Locked, 0);
    }

    /**
      `lock_identity`: an uninterrupted call is the three lock steps. It succeeds exactly when the
      requested pool is in memory and the requested identity belongs to it and is Ready, or InUse
      with its own name as the holder; a Ready one is then InUse for the node and counted.
     */
    method LockIdentity(n: Name) returns (locked: bool)
      requires n in cfg.want && n in nodes && nodes[n] == Idle && mutex == None
      modifies this
      ensures Contents() == Run(cfg, old(Contents()), [LockRead(n), LockPhase(n), LockCount(n)])
      ensures locked <==> Obtainable(cfg, old(Contents()), n)
      ensures nodes == if locked then old(nodes)[n := Obtained] else old(nodes)
      ensures locked && old(ids)[cfg.want[n].identity].phase == Free ==>
                && Relabeled(old(ids), ids, cfg.want[n].identity, InUse, Some(n))
                && Recounted(old(Contents()), Contents(), cfg.want[n].pool, 1, 0)
      ensures !locked || old(ids)[cfg.want[n].identity].phase == InUse ==>
                ids == old(ids) && mem == old(mem) && api == old(api)
    {
      LockRun(cfg, Contents(), n);
      LockIsGranted(cfg, Contents(), n);
      locked := false;
      var request := cfg.want[n];
      if request.pool in mem {
        var identity := GetReadyIdentity(request.pool, request.identity);
        if identity.Some? {
          var alreadyLocked := identity.value.phase == InUse;
          if !alreadyLocked {
            MarkLocked(n, request.identity, request.pool);
          }
          nodes := nodes[n := Obtained];
          locked := true;
        }
      }
    }

    /**
      `unlock`, called by the `delete` of a node that reads the identity it was given; it stops
      after the first write when the pool is not in memory.
     */
    method UnlockIdentity(n: Name) returns (completed: bool)
      requires n in cfg.want && n in nodes && nodes[n] == Releasing && mutex == None
      modifies this
      ensures Contents() == Run(cfg, old(Contents()), [ReadIdentity(n), UnlockPhase(n), UnlockCount(n)])
      ensures completed == (n in nodes && nodes[n] == Released)
      ensures
        var x := cfg.want[n].identity;
        var inUse := x in old(ids) && old(ids)[x].phase == InUse;
        && (completed <==> !inUse || cfg.Pool(x) in old(mem))
        && (inUse ==> Relabeled(old(ids), ids, x, Free, None))
        && (inUse && completed ==> Recounted(old(Contents()), Contents(), cfg.Pool(x), -1, 0))
        && (!inUse ==> ids == old(ids))
        && (!inUse || !completed ==> mem == old(mem) && api == old(api))
    {
      UnlockRun(cfg, Contents(), n);
      ghost var s := Contents();
      var x := cfg.Wanted(n);
      if x in ids && ids[x].phase == InUse {
        ids := ids[x := ids[x].(phase := Free, holder := None)];
        if cfg.Pool(x) !in mem {
          nodes := nodes[n := UnlockWritten];
          return false;
        }
        UpdatePool(cfg.Pool(x), Unlocked, 0);
        BumpRecounts(s, s.(ids := ids), cfg.Pool(x), Unlocked, 0);
      }
      nodes := nodes[n := Released];
      return true;
    }

    /** `create` of an identity; it needs a published pool that is Ready. */
    method CreateIdentity(x: Name) returns (updated: bool)
      requires x in ids && ids[x] == Identity(NoStatus, None, New) && mutex == None
      modifies this
      ensures Contents() == Run(cfg, old(Contents()), [IdentityInit(x), IdentityCount(x), IdentityReady(x)])
      ensures updated == (cfg.Pool(x) in old(api) && old(api)[cfg.Pool(x)].phase == Ready && cfg.Pool(x) in old(mem))
      ensures updated ==> ids == old(ids)[x := Identity(Free, None, Live)] && Recounted(old(Contents()), Contents(), cfg.Pool(x), 0, 1)
      ensures !updated ==>
                && mem == old(mem) && api == old(api)
                && ids == if cfg.Pool(x) in old(api) && old(api)[cfg.Pool(x)].phase == Ready
                          then old(ids)[x := Identity(Init, None, Uncountable)] else old(ids)
    {
      CreateRun(cfg, Contents(), x);
      ghost var s := Contents();
      if cfg.Pool(x) !in api || api[cfg.Pool(x)].phase != Ready {
        return false;
      }
      ids := ids[x := Identity(Init, None, Initializing)];
      updated := false;
      if cfg.Pool(x) in mem {
        UpdatePool(cfg.Pool(x), IdentityCreated, 0);
        BumpRecounts(s, s.(ids := ids), cfg.Pool(x), IdentityCreated, 0);
        updated := true;
      }
      if updated {
        ids := ids[x := Identity(Free, None, Live)];
      } else {
        ids := ids[x := Identity(Init, None, Uncountable)];
      }
    }

    /** The counter update of `delete`, when the pool is in memory. */
    method Uncount(x: Name)
      requires x in ids
      modifies `mem, `api, `stale, `raced
      ensures Contents() == Uncounted(cfg, old(Contents()), x)
      ensures if cfg.Pool(x) in old(mem) then Recounted(old(Contents()), Contents(), cfg.Pool(x), 0, -1)
              else mem == old(mem) && api == old(api)
    {
      UncountedRecounts(cfg, Contents(), x);
      if cfg.Pool(x) in mem {
        raced := raced || ids[x].stage != Live;
        UpdatePool(cfg.Pool(x), IdentityDeleted, if ids[x].stage == Live then 0 else -1);
      }
    }

    /** `delete` of an identity with a status, acting on its current phase: an InUse identity stays. */
    method DeleteIdentity(x: Name) returns (deleted: bool)
      requires x in ids && (ids[x].stage == Live || ids[x].stage == Uncountable) && mutex == None
      modifies this
      ensures Contents() == Run(cfg, old(Contents()), [IdentityRemove(x, old(ids)[x].phase), IdentityUncount(x), IdentityFinish(x)])
      ensures deleted == (old(ids)[x].phase != InUse) == (x !in ids)
      ensures ids == if deleted then old(ids) - {x} else old(ids)
      ensures if deleted && cfg.Pool(x) in old(mem) then Recounted(old(Contents()), Contents(), cfg.Pool(x), 0, -1)
              else mem == old(mem) && api == old(api)
    {
      DeleteRun(cfg, Contents(), x);
      if ids[x].phase == InUse {
        return false;
      }
      Uncount(x);
      ids := ids - {x};
      return true;
    }
  }

  lemma LockSteps(cfg: Config, s: State, n: Name)
    ensures Run(cfg, s, [LockRead(n), LockPhase(n), LockCount(n)]) == CountLock(cfg, WriteLockPhase(cfg, ReadForLock(cfg, s, n), n), n)
  {
    Run3(cfg, s, LockRead(n), LockPhase(n), LockCount(n));
  }

  lemma UnlockSteps(cfg: Config, s: State, n: Name)
    ensures Run(cfg, s, [ReadIdentity(n), UnlockPhase(n), UnlockCount(n)]) ==
            CountUnlock(cfg, WriteUnlockPhase(cfg, ReadForUnlock(cfg, s, n), n), n)
  {
    Run3(cfg, s, ReadIdentity(n), UnlockPhase(n), UnlockCount(n));
  }

  lemma DeleteSteps(cfg: Config, s: State, x: Name, seen: IdPhase)
    ensures Run(cfg, s, [IdentityRemove(x, seen), IdentityUncount(x), IdentityFinish(x)]) ==
            FinishIdentity(cfg, UncountIdentity(cfg, RemoveIdentity(cfg, s, x, seen), x), x)
  {
    Run3(cfg, s, IdentityRemove(x, seen), IdentityUncount(x), IdentityFinish(x));
  }

  lemma CreateSteps(cfg: Config, s: State, x: Name)
    ensures Run(cfg, s, [IdentityInit(x), IdentityCount(x), IdentityReady(x)]) ==
            ReadyIdentity(cfg, CountIdentity(cfg, InitIdentity(cfg, s, x), x), x)
  {
    Run3(cfg, s, IdentityInit(x), IdentityCount(x), IdentityReady(x));
  }

  lemma LockRun(cfg: Config, s: State, n: Name)
    requires n in cfg.want && n in s.nodes && s.nodes[n] == Idle && s.mutex == None
    ensures
      var x := cfg.Wanted(n);
      Run(cfg, s, [LockRead(n), LockPhase(n), LockCount(n)]) ==
      match ReadGrant(cfg, s, n)
      case Refused => s
      case Relock => SetNode(s, n, Obtained)
      case Fresh =>
        SetNode(Bump(SetId(s, x, s.ids[x].(phase := InUse, holder := Some(n))).(raced := s.raced || s.ids[x].stage != Live),
                     cfg.Pool(x), Locked, 0), n, Obtained)
  {
    LockSteps(cfg, s, n);
    if ReadGrant(cfg, s, n) == Fresh {
      FreshLock(cfg, s, n);
    }
  }

  lemma FreshLock(cfg: Config, s: State, n: Name)
    requires n in s.nodes && s.nodes[n] == Idle && s.mutex == None && ReadGrant(cfg, s, n) == Fresh
    ensures
      var x := cfg.Wanted(n);
      CountLock(cfg, WriteLockPhase(cfg, ReadForLock(cfg, s, n), n), n) ==
      SetNode(Bump(SetId(s, x, s.ids[x].(phase := InUse, holder := Some(n))).(raced := s.raced || s.ids[x].stage != Live),
                   cfg.Pool(x), Locked, 0), n, Obtained)
  {
    var x := cfg.Wanted(n);
    var read := ReadForLock(cfg, s, n);
    assert read == s.(nodes := s.nodes[n := Granted], mutex := Some(n));
    var written := WriteLockPhase(cfg, read, n);
    assert written == s.(ids := s.ids[x := s.ids[x].(phase := InUse, holder := Some(n))], nodes := s.nodes[n := Granted][n := PhaseWritten],
                         mutex := Some(n), raced := s.raced || s.ids[x].stage != Live);
    assert s.nodes[n := Granted][n := PhaseWritten][n := Obtained] == s.nodes[n := Obtained];
  }

  lemma UnlockRun(cfg: Config, s: State, n: Name)
    requires n in cfg.want && n in s.nodes && s.nodes[n] == Releasing && s.mutex == None
    ensures
      var x := cfg.Wanted(n);
      Run(cfg, s, [ReadIdentity(n), UnlockPhase(n), UnlockCount(n)]) ==
      if !IsInUse(s, x) then SetNode(s, n, Released)
      else if cfg.Pool(x) in s.mem then
        SetNode(Bump(SetId(s, x, s.ids[x].(phase := Free, holder := None)), cfg.Pool(x), Unlocked, 0), n, Released)
      else SetNode(SetId(s, x, s.ids[x].(phase := Free, holder := None)), n, UnlockWritten)
  {
    UnlockSteps(cfg, s, n);
    if IsInUse(s, cfg.Wanted(n)) {
      UnlockInUse(cfg, s, n);
    }
  }

  lemma UnlockInUse(cfg: Config, s: State, n: Name)
    requires n in s.nodes && s.nodes[n] == Releasing && s.mutex == None
    requires IsInUse(s, cfg.Wanted(n))
    ensures
      var x := cfg.Wanted(n);
      CountUnlock(cfg, WriteUnlockPhase(cfg, ReadForUnlock(cfg, s, n), n), n) ==
      if cfg.Pool(x) in s.mem then
        SetNode(Bump(SetId(s, x, s.ids[x].(phase := Free, holder := None)), cfg.Pool(x), Unlocked, 0), n, Released)
      else SetNode(SetId(s, x, s.ids[x].(phase := Free, holder := None)), n, UnlockWritten)
  {
    var x := cfg.Wanted(n);
    var read := ReadForUnlock(cfg, s, n);
    assert read == s.(nodes := s.nodes[n := UnlockRead]);
    var written := WriteUnlockPhase(cfg, read, n);
    assert written == s.(ids := s.ids[x := s.ids[x].(phase := Free, holder := None)], nodes := s.nodes[n := UnlockRead][n := UnlockWritten]);
    assert s.nodes[n := UnlockRead][n := UnlockWritten][n := Released] == s.nodes[n := Released];
    assert s.nodes[n := UnlockRead][n := UnlockWritten] == s.nodes[n := UnlockWritten];
  }

  lemma CreateRun(cfg: Config, s: State, x: Name)
    requires x in s.ids && s.ids[x] == Identity(NoStatus, None, New) && s.mutex == None
    ensures
      Run(cfg, s, [IdentityInit(x), IdentityCount(x), IdentityReady(x)]) ==
      if cfg.Pool(x) !in s.api || s.api[cfg.Pool(x)].phase != Ready then s
      else if cfg.Pool(x) in s.mem then SetId(Bump(s, cfg.Pool(x), IdentityCreated, 0), x, Identity(Free, None, Live))
      else SetId(s, x, Identity(Init, None, Uncountable))
  {
    CreateSteps(cfg, s, x);
    if cfg.Pool(x) in s.api && s.api[cfg.Pool(x)].phase == Ready {
      CreateInReadyPool(cfg, s, x);
    }
  }

  lemma {:induction false} CreateInReadyPool(cfg: Config, s: State, x: Name)
    requires x in s.ids && s.ids[x] == Identity(NoStatus, None, New) && s.mutex == None
    requires cfg.Pool(x) in s.api && s.api[cfg.Pool(x)].phase == Ready
    ensures
      ReadyIdentity(cfg, CountIdentity(cfg, InitIdentity(cfg, s, x), x), x) ==
      if cfg.Pool(x) in s.mem then SetId(Bump(s, cfg.Pool(x), IdentityCreated, 0), x, Identity(Free, None, Live))
      else SetId(s, x, Identity(Init, None, Uncountable))
  {
    var init := Identity(Init, None, Initializing);
    assert InitIdentity(cfg, s, x) == SetId(s, x, init);
    CountInitialized(cfg, s, x, init);
    assert s.ids[x := init][x := init.(stage := Counted)][x := Identity(Free, None, Live)] == s.ids[x := Identity(Free, None, Live)];
    assert s.ids[x := init][x := init.(stage := Uncountable)] == s.ids[x := Identity(Init, None, Uncountable)];
  }

  lemma CountInitialized(cfg: Config, s: State, x: Name, init: Identity)
    requires init.stage == Initializing && s.mutex == None
    ensures
      CountIdentity(cfg, SetId(s, x, init), x) ==
      if cfg.Pool(x) in s.mem then Bump(s, cfg.Pool(x), IdentityCreated, 0).(ids := s.ids[x := init][x := init.(stage := Counted)])
      else s.(ids := s.ids[x := init][x := init.(stage := Uncountable)])
  {
  }

  /** What `delete` leaves of the state once it has passed its guard. */
  function Uncounted(cfg: Config, s: State, x: Name): State
    requires x in s.ids
  {
    var counted := s.ids[x].stage == Live;
    if cfg.Pool(x) in s.mem then Bump(s, cfg.Pool(x), IdentityDeleted, if counted then 0 else -1).(raced := s.raced || !counted)
    else s
  }

  lemma UncountedRecounts(cfg: Config, s: State, x: Name)
    requires x in s.ids
    ensures if cfg.Pool(x) in s.mem then Recounted(s, Uncounted(cfg, s, x), cfg.Pool(x), 0, -1)
            else Uncounted(cfg, s, x) == s
  {
    if cfg.Pool(x) in s.mem {
      BumpRecounts(s, s, cfg.Pool(x), IdentityDeleted, if s.ids[x].stage == Live then 0 else -1);
    }
  }

  lemma DeleteRun(cfg: Config, s: State, x: Name)
    requires x in s.ids && (s.ids[x].stage == Live || s.ids[x].stage == Uncountable) && s.mutex == None
    ensures
      Run(cfg, s, [IdentityRemove(x, s.ids[x].phase), IdentityUncount(x), IdentityFinish(x)]) ==
      if s.ids[x].phase == InUse then s else DropId(Uncounted(cfg, s, x), x)
  {
    DeleteSteps(cfg, s, x, s.ids[x].phase);
    if s.ids[x].phase != InUse {
      DeleteFree(cfg, s, x);
    }
  }

  lemma UncountStarted(cfg: Config, s: State, x: Name)
    requires x in s.ids && (s.ids[x].stage == Live || s.ids[x].stage == Uncountable) && s.mutex == None
    ensures
      var start, end := s.ids[x].(stage := Removing(s.ids[x].stage == Live)), s.ids[x].(stage := Removed);
      UncountIdentity(cfg, s.(ids := s.ids[x := start]), x) == Uncounted(cfg, s, x).(ids := s.ids[x := start][x := end])
  {
  }

  lemma {:induction false} DeleteFree(cfg: Config, s: State, x: Name)
    requires x in s.ids && (s.ids[x].stage == Live || s.ids[x].stage == Uncountable) && s.mutex == None && s.ids[x].phase != InUse
    ensures
      FinishIdentity(cfg, UncountIdentity(cfg, RemoveIdentity(cfg, s, x, s.ids[x].phase), x), x) ==
      DropId(Uncounted(cfg, s, x), x)
  {
    var v := s.ids[x];
    var start, end := v.(stage := Removing(v.stage == Live)), v.(stage := Removed);
    var removing := RemoveIdentity(cfg, s, x, v.phase);
    assert removing == s.(ids := s.ids[x := start]);
    UncountStarted(cfg, s, x);
    assert s.ids[x := start][x := end] - {x} == s.ids - {x};
  }

  /* What the steps achieve. */

  /**
    With the lock free, the three lock steps of a waiting node give it an identity if and only if
    the identity it asks for belongs to the pool it asks for, which is in memory, and is Ready, or
    InUse with its own name as the holder. A Ready one is then InUse for the node, and `locked` of
    the pool has grown by one in memory and in the API; all else is as before.
   */
  lemma {:induction false} LockIsGranted(cfg: Config, s: State, n: Name)
    requires n in cfg.want && n in s.nodes && s.nodes[n] == Idle && s.mutex == None
    ensures
      var x, t := cfg.want[n].identity, Run(cfg, s, [LockRead(n), LockPhase(n), LockCount(n)]);
      && (n in t.nodes && t.nodes[n] == Obtained <==> Obtainable(cfg, s, n))
      && t.nodes == s.nodes[n := if Obtainable(cfg, s, n) then Obtained else Idle] && t.mutex == None
      && (Obtainable(cfg, s, n) && s.ids[x].phase == Free ==>
            Relabeled(s.ids, t.ids, x, InUse, Some(n)) && Recounted(s, t, cfg.want[n].pool, 1, 0))
      && (!Obtainable(cfg, s, n) || s.ids[x].phase == InUse ==> t.ids == s.ids && t.mem == s.mem && t.api == s.api)
  {
    LockRun(cfg, s, n);
    assert s.nodes[n := Idle] == s.nodes;
    var x := cfg.want[n].identity;
    if Obtainable(cfg, s, n) && s.ids[x].phase == Free {
      BumpRecounts(s, SetId(s, x, s.ids[x].(phase := InUse, holder := Some(n))).(raced := s.raced || s.ids[x].stage != Live),
                   cfg.Pool(x), Locked, 0);
    }
  }

  /** So in every reached state with the lock free, a waiting node with a proper request for a Ready identity of a registered pool obtains it. */
  lemma {:induction false} ReadyIsObtained(cfg: Config, actions: seq<Action>, n: Name)
    requires cfg.Proper(n)
    requires
      var s, x := Reached(cfg, actions), cfg.want[n].identity;
      && n in s.nodes && s.nodes[n] == Idle && s.mutex == None
      && cfg.want[n].pool in s.mem && x in s.ids && s.ids[x].phase == Free
    ensures
      var s, x := Reached(cfg, actions), cfg.want[n].identity;
      var t := Reached(cfg, actions + [LockRead(n), LockPhase(n), LockCount(n)]);
      && t.nodes == s.nodes[n := Obtained] && IsInUse(t, x) && t.ids[x].holder == Some(n)
      && Recounted(s, t, cfg.want[n].pool, 1, 0)
  {
    LockIsGranted(cfg, Reached(cfg, actions), n);
    RunConcat(cfg, Start(), actions, [LockRead(n), LockPhase(n), LockCount(n)]);
  }

  /** With the lock free, the release of a running node frees the identity it asked for, if that is InUse and its pool in memory. */
  lemma {:induction false} ReleaseGivesBack(cfg: Config, s: State, n: Name)
    requires n in cfg.want && n in s.nodes && s.nodes[n] == Running && s.mutex == None
    requires IsInUse(s, cfg.want[n].identity) && cfg.Pool(cfg.want[n].identity) in s.mem
    ensures
      var x, t := cfg.want[n].identity, Run(cfg, s, ReleaseSeq(n));
      && t.nodes == s.nodes[n := Released] && t.mutex == None
      && Relabeled(s.ids, t.ids, x, Free, None) && Recounted(s, t, cfg.Pool(x), -1, 0)
  {
    var x := cfg.want[n].identity;
    var releasing := SetNode(s, n, Releasing);
    var release := [ReadIdentity(n), UnlockPhase(n), UnlockCount(n)];
    Run1(cfg, s, StartRelease(n));
    ReleaseBegins(cfg, s, n);
    RunConcat(cfg, s, [StartRelease(n)], release);
    assert [StartRelease(n)] + release == [StartRelease(n), ReadIdentity(n), UnlockPhase(n), UnlockCount(n)];
    UnlockGivesBack(cfg, releasing, n);
    SetTwice(s.nodes, n, Releasing, Released);
  }

  lemma ReleaseBegins(cfg: Config, s: State, n: Name)
    requires n in s.nodes && s.nodes[n] == Running
    ensures Step(cfg, s, StartRelease(n)) == SetNode(s, n, Releasing)
  {
  }

  lemma SetTwice(nodes: map<Name, NodePc>, n: Name, a: NodePc, b: NodePc)
    ensures nodes[n := a][n := b] == nodes[n := b]
  {
  }

  lemma {:induction false} UnlockGivesBack(cfg: Config, s: State, n: Name)
    requires n in cfg.want && n in s.nodes && s.nodes[n] == Releasing && s.mutex == None
    requires IsInUse(s, cfg.want[n].identity) && cfg.Pool(cfg.want[n].identity) in s.mem
    ensures
      var x, t := cfg.want[n].identity, Run(cfg, s, [ReadIdentity(n), UnlockPhase(n), UnlockCount(n)]);
      && t.nodes == s.nodes[n := Released] && t.mutex == None
      && Relabeled(s.ids, t.ids, x, Free, None) && Recounted(s, t, cfg.Pool(x), -1, 0)
  {
    var x := cfg.want[n].identity;
    UnlockRun(cfg, s, n);
    BumpRecounts(s, SetId(s, x, s.ids[x].(phase := Free, holder := None)), cfg.Pool(x), Unlocked, 0);
  }

  function LockSeq(n: Name): seq<Action> {
    [LockRead(n), LockPhase(n), LockCount(n)]
  }

  function ReleaseSeq(n: Name): seq<Action> {
    [StartRelease(n), ReadIdentity(n), UnlockPhase(n), UnlockCount(n)]
  }

  /** The steps of a node that obtains an identity, runs, is deleted and disappears. */
  function WholeLife(n: Name): seq<Action> {
    LockSeq(n) + ([AddFinalizer(n)] + (ReleaseSeq(n) + [NodeGone(n)]))
  }

  /**
    A node that obtains a Ready identity and is deleted again leaves identities and counters as
    they were before, whatever they were.
   */
  lemma {:induction false} LifeRestores(cfg: Config, s: State, n: Name)
    requires cfg.Proper(n) && n in s.nodes && s.nodes[n] == Idle && s.mutex == None
    requires Obtainable(cfg, s, n) && s.ids[cfg.want[n].identity].phase == Free && s.ids[cfg.want[n].identity].holder == None
    ensures
      var t, p := Run(cfg, s, WholeLife(n)), cfg.want[n].pool;
      && t.ids == s.ids && t.nodes == s.nodes - {n} && t.mutex == None
      && Recounted(s, t, p, 0, 0)
  {
    var p, lock, release := cfg.want[n].pool, LockSeq(n), ReleaseSeq(n);
    LifeInParts(cfg, s, n);
    LockIsGranted(cfg, s, n);
    var a := Run(cfg, s, lock);
    var b := a.(nodes := a.nodes[n := Running]);
    ObtainedRuns(cfg, a, n);
    ReleaseGivesBack(cfg, b, n);
    var c := Run(cfg, b, release);
    ReleasedDisappears(cfg, c, n);
    LifeKeepsIds(s.ids, a.ids, c.ids, cfg.want[n].identity, n);
    RecountedTwice(s, a, c, p);
  }

  lemma ObtainedRuns(cfg: Config, s: State, n: Name)
    requires n in s.nodes && s.nodes[n] == Obtained
    ensures Step(cfg, s, AddFinalizer(n)) == s.(nodes := s.nodes[n := Running])
  {
  }

  lemma ReleasedDisappears(cfg: Config, s: State, n: Name)
    requires n in s.nodes && s.nodes[n] == Released
    ensures Step(cfg, s, NodeGone(n)) == s.(nodes := s.nodes - {n})
  {
  }

  lemma LifeKeepsIds(before: map<Name, Identity>, locked: map<Name, Identity>, after: map<Name, Identity>, x: Name, n: Name)
    requires x in before && before[x].phase == Free && before[x].holder == None
    requires Relabeled(before, locked, x, InUse, Some(n)) && Relabeled(locked, after, x, Free, None)
    ensures after == before
  {
    assert after[x] == before[x];
  }

  /** The steps of the life one part after another. */
  lemma LifeInParts(cfg: Config, s: State, n: Name)
    ensures Run(cfg, s, WholeLife(n)) ==
            Step(cfg, Run(cfg, Step(cfg, Run(cfg, s, LockSeq(n)), AddFinalizer(n)), ReleaseSeq(n)), NodeGone(n))
  {
    var a := Run(cfg, s, LockSeq(n));
    RunConcat(cfg, s, LockSeq(n), [AddFinalizer(n)] + (ReleaseSeq(n) + [NodeGone(n)]));
    RunConcat(cfg, a, [AddFinalizer(n)], ReleaseSeq(n) + [NodeGone(n)]);
    Run1(cfg, a, AddFinalizer(n));
    var b := Step(cfg, a, AddFinalizer(n));
    RunConcat(cfg, b, ReleaseSeq(n), [NodeGone(n)]);
    Run1(cfg, Run(cfg, b, ReleaseSeq(n)), NodeGone(n));
  }

  lemma RecountedTwice(s: State, a: State, t: State, p: Name)
    requires Recounted(s, a, p, 1, 0) && Recounted(a, t, p, -1, 0)
    ensures Recounted(s, t, p, 0, 0)
  {
    assert t.mem == s.mem[p := t.mem[p]];
    assert t.api == s.api[p := t.mem[p].status];
  }

  /**
    The races of the identity controller: a modification that writes a phase while the identity is
    InUse (an edit of its fixed fields, or a copy read before the lock), and a deletion that begins
    with a copy read before the lock. The first takes the lock away and writes nothing to the
    counters, which stay one too high; the second leaves the lock for now.
   */
  lemma StaleCopiesRace(cfg: Config, s: State, x: Name, phase: IdPhase, seen: IdPhase)
    requires IsInUse(s, x) && s.ids[x].stage == Live && cfg.Pool(x) in s.mem
    requires (phase == Free || phase == Broken) && seen != InUse
    ensures
      var t, p := Step(cfg, s, IdentityModify(x, phase)), cfg.Pool(x);
      && Relabeled(s.ids, t.ids, x, phase, None) && t.raced && t.api == s.api
      && p in t.mem && t.mem[p].status == s.mem[p].status && t.mem[p].lockDrift == s.mem[p].lockDrift + 1
    ensures
      var t := Step(cfg, s, IdentityRemove(x, seen));
      && IsInUse(t, x) && t.ids[x].holder == s.ids[x].holder && t.ids[x].stage == Removing(true) && t.raced
      && t.api == s.api && t.mem == s.mem
  {
  }

  /** A pool that is created and registered can be used at once, whatever other pools there are. */
  lemma PoolIsRegistered(cfg: Config, s: State, p: Name)
    requires p !in s.api && p !in s.mem
    ensures Run(cfg, s, [PoolCreate(p), PoolRegister(p)]) ==
            s.(api := s.api[p := PoolStatus(Ready, 0, 0)], mem := s.mem[p := Cached(PoolStatus(Ready, 0, 0), 0, 0)])
  {
    Run2(cfg, s, PoolCreate(p), PoolRegister(p));
  }

  /** A new identity of a Ready pool in memory becomes Ready and is counted, whatever other identities the pool has. */
  lemma {:induction false} IdentityIsCreated(cfg: Config, s: State, x: Name)
    requires x in cfg.poolOf && x !in s.ids && s.mutex == None
    requires cfg.Pool(x) in s.mem && cfg.Pool(x) in s.api && s.api[cfg.Pool(x)].phase == Ready
    ensures
      var t := Run(cfg, s, [IdentityNew(x)] + [IdentityInit(x), IdentityCount(x), IdentityReady(x)]);
      && t.ids == s.ids[x := Identity(Free, None, Live)] && t.nodes == s.nodes && t.mutex == None
      && Recounted(s, t, cfg.Pool(x), 0, 1)
  {
    var born := SetId(s, x, Identity(NoStatus, None, New));
    RunConcat(cfg, s, [IdentityNew(x)], [IdentityInit(x), IdentityCount(x), IdentityReady(x)]);
    Run1(cfg, s, IdentityNew(x));
    IdentityIsBorn(cfg, s, x);
    CreateRun(cfg, born, x);
    BumpRecounts(s, born, cfg.Pool(x), IdentityCreated, 0);
    assert s.ids[x := Identity(NoStatus, None, New)][x := Identity(Free, None, Live)] == s.ids[x := Identity(Free, None, Live)];
  }

  lemma IdentityIsBorn(cfg: Config, s: State, x: Name)
    requires x in cfg.poolOf && x !in s.ids
    ensures Step(cfg, s, IdentityNew(x)) == SetId(s, x, Identity(NoStatus, None, New))
  {
  }

  /** A Live identity that is not InUse is deleted and taken out of the count of its pool. */
  lemma {:induction false} IdentityIsDeleted(cfg: Config, s: State, x: Name)
    requires x in s.ids && s.ids[x].stage == Live && s.ids[x].phase != InUse && s.mutex == None && cfg.Pool(x) in s.mem
    ensures
      var t := Run(cfg, s, [IdentityRemove(x, s.ids[x].phase), IdentityUncount(x), IdentityFinish(x)]);
      t.ids == s.ids - {x} && t.nodes == s.nodes && t.mutex == None && Recounted(s, t, cfg.Pool(x), 0, -1)
  {
    DeleteRun(cfg, s, x);
    UncountedRecounts(cfg, s, x);
  }

  /**
    An identity that disappears between the read and the write of a lock lets the node try again;
    one that disappears between those of an unlock strands the node, which no later step of the
    protocol changes: its release is never completed.
   */
  lemma {:induction false} StrandedStays(cfg: Config, s: State, n: Name, actions: seq<Action>)
    requires n in s.nodes && cfg.Wanted(n) !in s.ids
    ensures s.nodes[n] == Granted ==> Step(cfg, s, LockPhase(n)) == s.(nodes := s.nodes[n := Idle], mutex := None)
    ensures s.nodes[n] == UnlockRead ==>
              var t := Run(cfg, s, [UnlockPhase(n)] + actions);
              n in t.nodes && t.nodes[n] == Stranded
  {
    if s.nodes[n] == UnlockRead {
      RunConcat(cfg, s, [UnlockPhase(n)], actions);
      Run1(cfg, s, UnlockPhase(n));
      StrandedForGood(cfg, Step(cfg, s, UnlockPhase(n)), n, actions);
    }
  }

  lemma {:induction false} StrandedForGood(cfg: Config, s: State, n: Name, actions: seq<Action>)
    requires n in s.nodes && s.nodes[n] == Stranded
    ensures n in Run(cfg, s, actions).nodes && Run(cfg, s, actions).nodes[n] == Stranded
    decreases |actions|
  {
    if actions != [] {
      StrandedStep(cfg, s, n, actions[0]);
      StrandedForGood(cfg, Step(cfg, s, actions[0]), n, actions[1..]);
    }
  }

  lemma StrandedStep(cfg: Config, s: State, n: Name, a: Action)
    requires n in s.nodes && s.nodes[n] == Stranded
    ensures n in Step(cfg, s, a).nodes && Step(cfg, s, a).nodes[n] == Stranded
  {
    if IsCreationStep(a) {
      CreationKeepsNodes(cfg, s, a);
    } else if IsRemovalStep(a) {
      RemovalKeepsNodes(cfg, s, a);
    } else if IsLockStep(a) {
      StrandedLockStep(cfg, s, n, a);
    } else if IsReleaseStep(a) {
      StrandedReleaseStep(cfg, s, n, a);
    }
  }

  lemma CreationKeepsNodes(cfg: Config, s: State, a: Action)
    requires IsCreationStep(a)
    ensures Step(cfg, s, a).nodes == s.nodes
  {
  }

  lemma RemovalKeepsNodes(cfg: Config, s: State, a: Action)
    requires IsRemovalStep(a)
    ensures Step(cfg, s, a).nodes == s.nodes
  {
  }

  lemma StrandedLockStep(cfg: Config, s: State, n: Name, a: Action)
    requires IsLockStep(a) && n in s.nodes && s.nodes[n] == Stranded
    ensures n in Step(cfg, s, a).nodes && Step(cfg, s, a).nodes[n] == Stranded
  {
  }

  lemma StrandedReleaseStep(cfg: Config, s: State, n: Name, a: Action)
    requires IsReleaseStep(a) && n in s.nodes && s.nodes[n] == Stranded
    ensures n in Step(cfg, s, a).nodes && Step(cfg, s, a).nodes[n] == Stranded
  {
  }
}
