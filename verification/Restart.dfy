/**
  A restart of the operator in any state of the identity lock protocol: the controllers lose their
  place, the in-memory state is filled from the API, and the repair runs before they start again
  (src/main.rs:84-86, src/context_data.rs:27-131; the reconciliations that follow are those of
  src/hoprd/hoprd_controller.rs:47-65 and src/identity_hoprd/identity_hoprd_controller.rs:43-59).
 */
module Restart {
  import opened Wrappers
  import opened IdentityPool
  import opened IdentityLock
  import opened IdentityTheorems
  import opened IdentityOps
  import Repair = StartupRepair

  /* What the controllers find. */

  /** The identity is InUse for a node that does not exist. */
  predicate HolderMissing(s: State, x: Name) {
    IsInUse(s, x) && s.ids[x].holder.Some? && s.ids[x].holder.value !in s.nodes
  }

  /**
    Where the controller of an identity finds itself: without a finalizer it creates the identity
    again; one that was interrupted before Ready was written is never taken up again.
   */
  function StageAgain(stage: Stage, phase: IdPhase): Stage {
    if stage == New then New else if phase == Init || phase == NoStatus then Uncountable else Live
  }

  /** The repair frees an identity whose holder does not exist. */
  function IdAgain(s: State, x: Name): Identity
    requires x in s.ids
  {
    if HolderMissing(s, x) then Identity(Free, None, StageAgain(s.ids[x].stage, Free))
    else s.ids[x].(stage := StageAgain(s.ids[x].stage, s.ids[x].phase))
  }

  /** A node without a finalizer is created again; one in phase Deleting is left alone. */
  function PcAgain(pc: NodePc): NodePc {
    match pc
    case Idle => Idle
    case Granted => Idle
    case PhaseWritten => Idle
    case Obtained => Idle
    case Running => Running
    case _ => Stranded
  }

  type Statuses = map<Name, PoolStatus>

  /** The protocol's state after the restart, apart from the in-memory state. */
  function Resumed(s: State, memory: Statuses, published: Statuses): State {
    State(
      map x | x in s.ids :: IdAgain(s, x),
      map n | n in s.nodes :: PcAgain(s.nodes[n]),
      map[],
      published,
      (set p | p in published && p in memory && published[p] != memory[p]),
      None,
      false)
  }

  /** A pool in memory; its drifts are the errors of its counters. */
  function PoolAgain(cfg: Config, r: State, p: Name, status: PoolStatus): Cached {
    Cached(status, status.locked - |InUseOf(cfg, r, p)|, status.size - |CountedOf(cfg, r, p)|)
  }

  /** The protocol's state after a restart that leaves the given statuses in memory and in the API. */
  function Restarted(cfg: Config, s: State, memory: Statuses, published: Statuses): State {
    var r := Resumed(s, memory, published);
    r.(mem := map p | p in memory :: PoolAgain(cfg, r, p, memory[p]))
  }

  /* The invariants after a restart. */

  /** An identity that has a finalizer belongs to a published pool. */
  predicate RootedAt(cfg: Config, s: State, x: Name) {
    x in s.ids && s.ids[x].stage != New ==> cfg.Pool(x) in s.api
  }

  ghost predicate Rooted(cfg: Config, s: State) {
    forall x :: RootedAt(cfg, s, x)
  }

  lemma IdentityStepKeepsRootedAt(cfg: Config, s: State, a: Action, x: Name)
    requires RootedAt(cfg, s, x) && IsIdentityStep(a)
    ensures RootedAt(cfg, Step(cfg, s, a), x)
  {
    if IsCreationStep(a) {
      CreationStepKeepsRootedAt(cfg, s, a, x);
    } else {
      RemovalStepKeepsRootedAt(cfg, s, a, x);
    }
  }

  lemma CreationStepKeepsRootedAt(cfg: Config, s: State, a: Action, x: Name)
    requires RootedAt(cfg, s, x) && IsCreationStep(a)
    ensures RootedAt(cfg, Step(cfg, s, a), x)
  {
  }

  lemma RemovalStepKeepsRootedAt(cfg: Config, s: State, a: Action, x: Name)
    requires RootedAt(cfg, s, x) && IsRemovalStep(a)
    ensures RootedAt(cfg, Step(cfg, s, a), x)
  {
  }

  lemma LockStepKeepsRootedAt(cfg: Config, s: State, a: Action, x: Name)
    requires RootedAt(cfg, s, x) && IsLockStep(a)
    ensures RootedAt(cfg, Step(cfg, s, a), x)
  {
  }

  lemma ReleaseStepKeepsRootedAt(cfg: Config, s: State, a: Action, x: Name)
    requires RootedAt(cfg, s, x) && IsReleaseStep(a)
    ensures RootedAt(cfg, Step(cfg, s, a), x)
  {
  }

  lemma StepKeepsRootedAt(cfg: Config, s: State, a: Action, x: Name)
    requires RootedAt(cfg, s, x)
    ensures RootedAt(cfg, Step(cfg, s, a), x)
  {
    if IsIdentityStep(a) {
      IdentityStepKeepsRootedAt(cfg, s, a, x);
    } else if IsLockStep(a) {
      LockStepKeepsRootedAt(cfg, s, a, x);
    } else if IsReleaseStep(a) {
      ReleaseStepKeepsRootedAt(cfg, s, a, x);
    } else {
      assert s.api.Keys <= Step(cfg, s, a).api.Keys;
    }
  }

  lemma {:induction false} RunKeepsRooted(cfg: Config, s: State, actions: seq<Action>)
    requires Rooted(cfg, s)
    ensures Rooted(cfg, Run(cfg, s, actions))
    decreases |actions|
  {
    if actions != [] {
      forall x ensures RootedAt(cfg, Step(cfg, s, actions[0]), x) {
        StepKeepsRootedAt(cfg, s, actions[0], x);
      }
      RunKeepsRooted(cfg, Step(cfg, s, actions[0]), actions[1..]);
    }
  }

  lemma RestartedNodeAt(cfg: Config, s: State, memory: Statuses, published: Statuses, n: Name)
    requires Inv(cfg, s) && memory.Keys == s.api.Keys
    ensures NodeAt(cfg, Restarted(cfg, s, memory, published), n)
  {
    assert NodeAt(cfg, s, n) && PublishedAt(s, cfg.Pool(cfg.Wanted(n)));
  }

  lemma RestartedIdAt(cfg: Config, s: State, memory: Statuses, published: Statuses, x: Name)
    requires Inv(cfg, s) && RootedAt(cfg, s, x) && memory.Keys == s.api.Keys
    ensures IdAt(cfg, Restarted(cfg, s, memory, published), x)
  {
    assert IdAt(cfg, s, x) && PublishedAt(s, cfg.Pool(x));
  }

  lemma RestartedPool(cfg: Config, s: State, memory: Statuses, published: Statuses, p: Name)
    requires p in memory
    ensures
      var t := Restarted(cfg, s, memory, published);
      var m := t.mem[p];
      && m == PoolAgain(cfg, Resumed(s, memory, published), p, memory[p])
      && m.status.locked + |LockingOf(cfg, t, p)| == |InUseOf(cfg, t, p)| + |UnlockingOf(cfg, t, p)| + m.lockDrift
      && m.status.size == |CountedOf(cfg, t, p)| + m.sizeDrift
  {
    var r := Resumed(s, memory, published);
    SameCounts(cfg, r, Restarted(cfg, s, memory, published), p);
    assert LockingOf(cfg, r, p) == {} && UnlockingOf(cfg, r, p) == {};
  }

  lemma RestartedCounters(cfg: Config, s: State, memory: Statuses, published: Statuses)
    ensures Counters(cfg, Restarted(cfg, s, memory, published))
  {
    var t := Restarted(cfg, s, memory, published);
    forall p | p in t.mem
      ensures t.mem[p].status.locked + |LockingOf(cfg, t, p)| == |InUseOf(cfg, t, p)| + |UnlockingOf(cfg, t, p)| + t.mem[p].lockDrift
      ensures t.mem[p].status.size == |CountedOf(cfg, t, p)| + t.mem[p].sizeDrift
    {
      RestartedPool(cfg, s, memory, published, p);
    }
  }

  lemma RestartedPublished(cfg: Config, s: State, memory: Statuses, published: Statuses, p: Name)
    requires memory.Keys == published.Keys
    ensures PublishedAt(Restarted(cfg, s, memory, published), p)
  {
  }

  /** A restart keeps the invariant of the protocol, with the errors of the counters as drifts. */
  lemma RestartKeepsInvariant(cfg: Config, s: State, memory: Statuses, published: Statuses)
    requires Inv(cfg, s) && Rooted(cfg, s) && memory.Keys == published.Keys == s.api.Keys
    ensures Inv(cfg, Restarted(cfg, s, memory, published))
  {
    var t := Restarted(cfg, s, memory, published);
    forall n ensures NodeAt(cfg, t, n) {
      RestartedNodeAt(cfg, s, memory, published, n);
    }
    forall x ensures IdAt(cfg, t, x) {
      assert RootedAt(cfg, s, x);
      RestartedIdAt(cfg, s, memory, published, x);
    }
    forall p ensures PublishedAt(t, p) {
      RestartedPublished(cfg, s, memory, published, p);
    }
    RestartedCounters(cfg, s, memory, published);
  }

  /** Holders stay right over a restart. */
  lemma RestartKeepsHeld(cfg: Config, s: State, memory: Statuses, published: Statuses)
    requires Held(cfg, s)
    ensures Held(cfg, Restarted(cfg, s, memory, published))
  {
    var t := Restarted(cfg, s, memory, published);
    forall n ensures HoldAt(cfg, t, n) {
      assert HoldAt(cfg, s, n);
    }
    forall x ensures LiveAt(t, x) {
      assert LiveAt(s, x);
    }
  }

  predicate NoError(m: Cached) {
    m.lockDrift == 0 && m.sizeDrift == 0
  }

  lemma NoDriftExactly(cfg: Config, s: State, memory: Statuses, published: Statuses)
    ensures NoDrift(Restarted(cfg, s, memory, published)) <==>
            forall p :: p in memory ==> NoError(PoolAgain(cfg, Resumed(s, memory, published), p, memory[p]))
  {
    var t := Restarted(cfg, s, memory, published);
    forall p | p in memory ensures t.mem[p] == PoolAgain(cfg, Resumed(s, memory, published), p, memory[p]) {
    }
  }

  /* What the repair leaves in memory and in the API. */

  /** What the API lists, in one namespace. */
  function Listing(cfg: Config, namespace: string, s: State): Repair.Store {
    Repair.Store(
      (set n | n in s.nodes :: Repair.Ref(namespace, n)),
      map x | x in s.ids :: Repair.Ref(namespace, x) := Repair.Listed(cfg.Pool(x), s.ids[x].phase, s.ids[x].holder),
      map p | p in s.api :: Repair.Ref(namespace, p) := Some(s.api[p]))
  }

  function InMemory(u: Repair.Store, r: Repair.Ref): PoolStatus
    requires r in u.pools && u.pools[r].Some?
  {
    Repair.StatusAfterCounts(u.pools[r], u.UnlockCount(r));
    u.InMemory(r).value
  }

  function Published(u: Repair.Store, r: Repair.Ref): PoolStatus
    requires r in u.pools && u.pools[r].Some?
  {
    Repair.StatusAfterCounts(u.pools[r], u.UnlockCount(r));
    u.Published(r).value
  }

  function MemoryOf(cfg: Config, namespace: string, s: State): Statuses {
    map p | p in s.api :: InMemory(Listing(cfg, namespace, s), Repair.Ref(namespace, p))
  }

  function PublishedOf(cfg: Config, namespace: string, s: State): Statuses {
    map p | p in s.api :: Published(Listing(cfg, namespace, s), Repair.Ref(namespace, p))
  }

  /** The pools of the listed store have distinct keys, and holders are recorded as the repair expects. */
  lemma ListingIsProper(cfg: Config, namespace: string, s: State)
    requires Inv(cfg, s)
    ensures
      var u := Listing(cfg, namespace, s);
      Repair.DistinctKeys(u.pools.Keys) && Repair.HolderIffInUse(u.ids)
  {
    var u := Listing(cfg, namespace, s);
    forall a, b | a in u.pools && b in u.pools && a.Key() == b.Key() ensures a == b {
      assert a.Key()[|namespace| + 1..] == a.name && b.Key()[|namespace| + 1..] == b.name;
    }
    forall r | r in u.ids ensures u.ids[r].holder.Some? <==> u.ids[r].phase == InUse {
      assert IdAt(cfg, s, r.name);
    }
  }

  lemma ListingIsComplete(cfg: Config, namespace: string, s: State)
    requires Inv(cfg, s)
    ensures Listing(cfg, namespace, s).Complete()
  {
    var u := Listing(cfg, namespace, s);
    forall r | r in u.ids && Repair.Unlocks(r, u.ids[r], u.Keys()) ensures Repair.PoolOf(r, u.ids[r]) in u.pools {
      assert IdAt(cfg, s, r.name) && PublishedAt(s, cfg.Pool(r.name));
    }
  }

  /** In every state the protocol reaches, the repair completes: no orphaned identity is without its pool. */
  lemma RestartCompletes(cfg: Config, namespace: string, actions: seq<Action>, cache: Repair.Cache)
    requires
      var u := Listing(cfg, namespace, Reached(cfg, actions));
      Repair.CacheOf(cache, u.pools)
    ensures
      var u := Listing(cfg, namespace, Reached(cfg, actions));
      Repair.CanRepair(u.ids, u.Keys(), cache.Keys)
  {
    StartIsGood(cfg);
    RunKeeps(cfg, Start(), actions);
    ListingIsComplete(cfg, namespace, Reached(cfg, actions));
    Repair.RepairCompletes(cache, Listing(cfg, namespace, Reached(cfg, actions)));
  }

  /** The keys of nodes in one namespace tell them apart: an identity is orphaned exactly when its holder does not exist. */
  lemma OrphanedByKey(cfg: Config, namespace: string, s: State, x: Name)
    requires x in s.ids && s.ids[x].phase == InUse && s.ids[x].holder.Some?
    ensures
      var u := Listing(cfg, namespace, s);
      Repair.Unlocks(Repair.Ref(namespace, x), u.ids[Repair.Ref(namespace, x)], u.Keys()) <==> s.ids[x].holder.value !in s.nodes
  {
    var u := Listing(cfg, namespace, s);
    var h := Repair.Ref(namespace, s.ids[x].holder.value);
    forall n | n in u.nodes && n.Key() == h.Key() ensures n == h {
      assert n.Key()[|namespace| + 1..] == n.name && h.Key()[|namespace| + 1..] == h.name;
    }
    assert h in u.nodes ==> h.Key() in u.Keys();
  }

  /** The repair frees exactly the identities whose holder does not exist, and keeps the others as they are. */
  lemma RepairIsResumption(cfg: Config, namespace: string, s: State, x: Name)
    requires Inv(cfg, s) && x in s.ids
    ensures
      var repaired := Listing(cfg, namespace, s).Ids()[Repair.Ref(namespace, x)];
      repaired == Repair.Listed(cfg.Pool(x), IdAgain(s, x).phase, IdAgain(s, x).holder)
  {
    assert IdAt(cfg, s, x);
    if s.ids[x].phase == InUse {
      OrphanedByKey(cfg, namespace, s, x);
    }
  }

  /* The error of the counters. */

  function Embedded(namespace: string, names: set<Name>): set<Repair.Ref> {
    set x | x in names :: Repair.Ref(namespace, x)
  }

  lemma {:induction false} EmbeddedSize(namespace: string, names: set<Name>)
    ensures |Embedded(namespace, names)| == |names|
    decreases |names|
  {
    if names == {} {
      assert Embedded(namespace, {}) == {};
    } else {
      var x :| x in names;
      EmbeddedSize(namespace, names - {x});
      assert Embedded(namespace, names) == Embedded(namespace, names - {x}) + {Repair.Ref(namespace, x)};
    }
  }

  /** The identities the repair counts as held are the InUse ones, before it and after it. */
  lemma HeldBefore(cfg: Config, namespace: string, s: State, p: Name)
    requires Inv(cfg, s)
    ensures |Repair.HeldMembers(Listing(cfg, namespace, s).ids, Repair.Ref(namespace, p))| == |InUseOf(cfg, s, p)|
  {
    var ids := Listing(cfg, namespace, s).ids;
    forall x | x in s.ids
      ensures ids[Repair.Ref(namespace, x)].pool == cfg.Pool(x)
      ensures IsInUse(s, x) <==> Repair.IsHeld(ids[Repair.Ref(namespace, x)])
    {
      assert IdAt(cfg, s, x);
    }
    HeldNames(cfg, namespace, ids, s, p);
  }

  lemma StillHeld(cfg: Config, namespace: string, s: State, x: Name)
    requires Inv(cfg, s) && x in s.ids
    ensures
      var repaired := Listing(cfg, namespace, s).Ids()[Repair.Ref(namespace, x)];
      repaired.pool == cfg.Pool(x) && (Repair.IsHeld(repaired) <==> IdAgain(s, x).phase == InUse)
  {
    assert IdAt(cfg, s, x);
    RepairIsResumption(cfg, namespace, s, x);
  }

  lemma RepairedNames(cfg: Config, namespace: string, s: State)
    ensures forall q :: q in Listing(cfg, namespace, s).Ids() <==> q.namespace == namespace && q.name in s.ids
  {
  }

  lemma HeldAfter(cfg: Config, namespace: string, s: State, r: State, p: Name)
    requires Inv(cfg, s) && r.ids == map x | x in s.ids :: IdAgain(s, x)
    ensures |Repair.HeldMembers(Listing(cfg, namespace, s).Ids(), Repair.Ref(namespace, p))| == |InUseOf(cfg, r, p)|
  {
    var repaired := Listing(cfg, namespace, s).Ids();
    RepairedNames(cfg, namespace, s);
    forall x | x in r.ids
      ensures repaired[Repair.Ref(namespace, x)].pool == cfg.Pool(x)
      ensures IsInUse(r, x) <==> Repair.IsHeld(repaired[Repair.Ref(namespace, x)])
    {
      StillHeld(cfg, namespace, s, x);
    }
    HeldNames(cfg, namespace, repaired, r, p);
  }

  lemma HeldNames(cfg: Config, namespace: string, ids: Repair.Identities, r: State, p: Name)
    requires forall x :: x in ids <==> x.namespace == namespace && x.name in r.ids
    requires forall x :: x in r.ids ==> ids[Repair.Ref(namespace, x)].pool == cfg.Pool(x)
    requires forall x :: x in r.ids ==> (IsInUse(r, x) <==> Repair.IsHeld(ids[Repair.Ref(namespace, x)]))
    ensures |Repair.HeldMembers(ids, Repair.Ref(namespace, p))| == |InUseOf(cfg, r, p)|
  {
    assert Repair.HeldMembers(ids, Repair.Ref(namespace, p)) == Embedded(namespace, InUseOf(cfg, r, p));
    EmbeddedSize(namespace, InUseOf(cfg, r, p));
  }

  /** The error with which a pool starts again is that of its listed counters against the store. */
  lemma DriftIsListedError(cfg: Config, namespace: string, s: State, r: State, p: Name)
    requires Inv(cfg, s) && p in s.api && r.ids == map x | x in s.ids :: IdAgain(s, x)
    ensures
      var m := PoolAgain(cfg, r, p, MemoryOf(cfg, namespace, s)[p]);
      && m.lockDrift == s.api[p].locked - |InUseOf(cfg, s, p)|
      && m.sizeDrift == s.api[p].size - |CountedOf(cfg, r, p)|
  {
    MemoryError(cfg, namespace, s, p);
    HeldBefore(cfg, namespace, s, p);
    HeldAfter(cfg, namespace, s, r, p);
  }

  lemma MemoryError(cfg: Config, namespace: string, s: State, p: Name)
    requires Inv(cfg, s) && p in s.api
    ensures
      var u, q, status := Listing(cfg, namespace, s), Repair.Ref(namespace, p), MemoryOf(cfg, namespace, s)[p];
      && status.size == s.api[p].size
      && status.locked - |Repair.HeldMembers(u.Ids(), q)| == s.api[p].locked - |Repair.HeldMembers(u.ids, q)|
  {
    var u, q := Listing(cfg, namespace, s), Repair.Ref(namespace, p);
    ListingIsProper(cfg, namespace, s);
    ListingIsComplete(cfg, namespace, s);
    Repair.RepairedCounts(u, q);
    Repair.StatusAfterCounts(u.pools[q], u.UnlockCount(q));
  }

  /* The theorems. */

  /** The state after a restart whose repair is that of `Synchronize`. */
  function AfterRestart(cfg: Config, namespace: string, s: State): State {
    Restarted(cfg, s, MemoryOf(cfg, namespace, s), PublishedOf(cfg, namespace, s))
  }

  /** The listed counters of a pool were right for the identities as the restart finds them. */
  predicate ListedRight(cfg: Config, namespace: string, s: State, p: Name)
    requires p in s.api
  {
    s.api[p].locked == |InUseOf(cfg, s, p)| && s.api[p].size == |CountedOf(cfg, AfterRestart(cfg, namespace, s), p)|
  }

  /** A restart leaves holders right and the counters exact if and only if the listed counters of every pool were right. */
  lemma RestartIsClean(cfg: Config, namespace: string, s: State)
    requires Inv(cfg, s) && Held(cfg, s)
    ensures Held(cfg, AfterRestart(cfg, namespace, s))
    ensures Clean(cfg, AfterRestart(cfg, namespace, s)) <==> forall p :: p in s.api ==> ListedRight(cfg, namespace, s, p)
  {
    var memory, published := MemoryOf(cfg, namespace, s), PublishedOf(cfg, namespace, s);
    RestartKeepsHeld(cfg, s, memory, published);
    NoDriftExactly(cfg, s, memory, published);
    var r := Resumed(s, memory, published);
    forall p | p in s.api ensures NoError(PoolAgain(cfg, r, p, memory[p])) <==> ListedRight(cfg, namespace, s, p) {
      ErrorIsListed(cfg, namespace, s, p);
    }
  }

  lemma ErrorIsListed(cfg: Config, namespace: string, s: State, p: Name)
    requires Inv(cfg, s) && p in s.api
    ensures
      var r := Resumed(s, MemoryOf(cfg, namespace, s), PublishedOf(cfg, namespace, s));
      NoError(PoolAgain(cfg, r, p, MemoryOf(cfg, namespace, s)[p])) <==> ListedRight(cfg, namespace, s, p)
  {
    var r := Resumed(s, MemoryOf(cfg, namespace, s), PublishedOf(cfg, namespace, s));
    DriftIsListedError(cfg, namespace, s, r, p);
    SameCounts(cfg, r, AfterRestart(cfg, namespace, s), p);
  }

  /** After a restart the phase of a pool compares its counters if an identity of it was freed, and otherwise exactly if the listed phase did. */
  lemma ComparedExactly(cfg: Config, namespace: string, s: State, p: Name)
    requires p in s.api
    ensures ComparedAt(AfterRestart(cfg, namespace, s), p) <==>
              || Listing(cfg, namespace, s).UnlockCount(Repair.Ref(namespace, p)) > 0
              || s.api[p].phase == BalancePhase(s.api[p].size, s.api[p].locked)
  {
    var u, q := Listing(cfg, namespace, s), Repair.Ref(namespace, p);
    Repair.StatusAfterCounts(u.pools[q], u.UnlockCount(q));
    assert AfterRestart(cfg, namespace, s).mem[p].status == MemoryOf(cfg, namespace, s)[p];
  }

  /** All identities of a pool, in use or not, counted or not. */
  function MembersOf(cfg: Config, s: State, p: Name): set<Name> {
    set x | x in s.ids && cfg.Pool(x) == p
  }

  /** An identity of the pool is InUse for a node that does not exist. */
  predicate HasOrphan(cfg: Config, s: State, p: Name) {
    exists x :: x in s.ids && cfg.Pool(x) == p && HolderMissing(s, x)
  }

  lemma MemberNames(cfg: Config, namespace: string, s: State, p: Name)
    ensures |Repair.Members(Listing(cfg, namespace, s).ids, Repair.Ref(namespace, p))| == |MembersOf(cfg, s, p)|
  {
    var ids := Listing(cfg, namespace, s).ids;
    forall x | x in s.ids ensures ids[Repair.Ref(namespace, x)].pool == cfg.Pool(x) {
    }
    assert Repair.Members(ids, Repair.Ref(namespace, p)) == Embedded(namespace, MembersOf(cfg, s, p));
    EmbeddedSize(namespace, MembersOf(cfg, s, p));
  }

  /** The keys of pools in one namespace tell them apart: the repair frees an identity of a pool exactly when the pool has an orphan. */
  lemma FreedExactly(cfg: Config, namespace: string, s: State, p: Name)
    requires Inv(cfg, s)
    ensures Listing(cfg, namespace, s).UnlockCount(Repair.Ref(namespace, p)) > 0 <==> HasOrphan(cfg, s, p)
  {
    var u, q := Listing(cfg, namespace, s), Repair.Ref(namespace, p);
    var unlocked := Repair.UnlockedAt(u.ids.Keys, u.ids, u.Keys(), q.Key());
    if x :| x in s.ids && cfg.Pool(x) == p && HolderMissing(s, x) {
      OrphanIsFreed(cfg, namespace, s, x);
      assert Repair.Ref(namespace, x) in unlocked;
    }
    if r :| r in unlocked {
      FreedIsOrphan(cfg, namespace, s, p, r);
      assert r.name in s.ids;
    }
  }

  lemma {:induction false} OrphanIsFreed(cfg: Config, namespace: string, s: State, x: Name)
    requires Inv(cfg, s) && x in s.ids && HolderMissing(s, x)
    ensures
      var u, q := Listing(cfg, namespace, s), Repair.Ref(namespace, cfg.Pool(x));
      Repair.Ref(namespace, x) in Repair.UnlockedAt(u.ids.Keys, u.ids, u.Keys(), q.Key())
  {
    OrphanedByKey(cfg, namespace, s, x);
  }

  lemma {:induction false} FreedIsOrphan(cfg: Config, namespace: string, s: State, p: Name, r: Repair.Ref)
    requires Inv(cfg, s)
    requires
      var u := Listing(cfg, namespace, s);
      r in Repair.UnlockedAt(u.ids.Keys, u.ids, u.Keys(), Repair.Ref(namespace, p).Key())
    ensures r.name in s.ids && cfg.Pool(r.name) == p && HolderMissing(s, r.name)
  {
    assert IdAt(cfg, s, r.name);
    OrphanedByKey(cfg, namespace, s, r.name);
    SameKey(namespace, cfg.Pool(r.name), p);
  }

  lemma SameKey(namespace: string, a: Name, b: Name)
    requires Repair.Ref(namespace, a).Key() == Repair.Ref(namespace, b).Key()
    ensures a == b
  {
    assert Repair.Ref(namespace, a).Key()[|namespace| + 1..] == a && Repair.Ref(namespace, b).Key()[|namespace| + 1..] == b;
  }

  /**
    After a restart a pool is published with the number of all its identities and of those that
    are then InUse, and as Ready, unless its listed counters were these already and it had no
    orphan: then it keeps its listed phase.
   */
  lemma RestartPublishes(cfg: Config, namespace: string, s: State, p: Name)
    requires Inv(cfg, s) && p in s.api
    ensures
      var t := AfterRestart(cfg, namespace, s);
      var listedTrue := s.api[p].size == |MembersOf(cfg, s, p)| && s.api[p].locked == |InUseOf(cfg, s, p)|;
      && p in t.api && t.api[p].size == |MembersOf(cfg, s, p)| && t.api[p].locked == |InUseOf(cfg, t, p)|
      && t.api[p].phase == (if listedTrue && !HasOrphan(cfg, s, p) then s.api[p].phase else Ready)
  {
    var u, q, t := Listing(cfg, namespace, s), Repair.Ref(namespace, p), AfterRestart(cfg, namespace, s);
    ListingIsProper(cfg, namespace, s);
    ListingIsComplete(cfg, namespace, s);
    Repair.RepairPublishes(u, q);
    Repair.RepairedCounts(u, q);
    MemberNames(cfg, namespace, s, p);
    FreedExactly(cfg, namespace, s, p);
    HeldBefore(cfg, namespace, s, p);
    HeldAfter(cfg, namespace, s, t, p);
    assert t.api[p] == u.Published(q).value;
  }

  predicate IsInitialising(s: State, x: Name) {
    x in s.ids && s.ids[x] == Identity(Init, None, Initializing)
  }

  /**
    After a restart a new identity of a pool can be initialised if and only if the pool was listed
    as Ready, or its listed counters were wrong, or an identity of it was freed.
   */
  lemma NewIdentityAfterRestart(cfg: Config, namespace: string, s: State, x: Name)
    requires Inv(cfg, s) && x in s.ids && s.ids[x].stage == New && cfg.Pool(x) in s.api
    ensures
      var p, t := cfg.Pool(x), AfterRestart(cfg, namespace, s);
      IsInitialising(Step(cfg, t, IdentityInit(x)), x) <==>
        || s.api[p].phase == Ready || HasOrphan(cfg, s, p)
        || s.api[p].size != |MembersOf(cfg, s, p)| || s.api[p].locked != |InUseOf(cfg, s, p)|
  {
    var p, t := cfg.Pool(x), AfterRestart(cfg, namespace, s);
    RestartPublishes(cfg, namespace, s, p);
    InitExactly(cfg, t, x);
  }

  lemma InitExactly(cfg: Config, s: State, x: Name)
    requires x in s.ids && s.ids[x].stage == New && cfg.Pool(x) in s.api
    ensures IsInitialising(Step(cfg, s, IdentityInit(x)), x) <==> s.api[cfg.Pool(x)].phase == Ready
  {
  }

  /** What holds in the runs from any state with right holders. */
  lemma RunsFrom(cfg: Config, start: State, actions: seq<Action>, p: Name)
    requires Inv(cfg, start) && Held(cfg, start) && Disciplined(cfg) && p in start.mem && !Run(cfg, start, actions).raced
    ensures
      var t := Run(cfg, start, actions);
      && Exclusive(cfg, t) && p in t.mem
      && t.mem[p].status.locked + |LockingOf(cfg, t, p)| == |InUseOf(cfg, t, p)| + |UnlockingOf(cfg, t, p)| + start.mem[p].lockDrift
      && t.mem[p].status.size == |CountedOf(cfg, t, p)| + start.mem[p].sizeDrift
  {
    RunKeeps(cfg, start, actions);
    RunKeepsHeld(cfg, start, actions);
    HeldIsExclusive(cfg, Run(cfg, start, actions));
  }

  /**
    What lasts over runs and restarts: the invariant, identities with their pools, and holders
    that are right.
   */
  ghost predicate Sound(cfg: Config, s: State) {
    Inv(cfg, s) && Rooted(cfg, s) && Held(cfg, s)
  }

  lemma StartIsSound(cfg: Config)
    ensures Sound(cfg, Start())
  {
    StartIsGood(cfg);
  }

  lemma RunKeepsSound(cfg: Config, s: State, actions: seq<Action>)
    requires Sound(cfg, s) && Disciplined(cfg) && !Run(cfg, s, actions).raced
    ensures Sound(cfg, Run(cfg, s, actions))
  {
    RunKeeps(cfg, s, actions);
    RunKeepsHeld(cfg, s, actions);
    RunKeepsRooted(cfg, s, actions);
  }

  lemma RestartKeepsRooted(cfg: Config, namespace: string, s: State)
    requires Rooted(cfg, s)
    ensures Rooted(cfg, AfterRestart(cfg, namespace, s))
  {
    forall x ensures RootedAt(cfg, AfterRestart(cfg, namespace, s), x) {
      assert RootedAt(cfg, s, x);
    }
  }

  lemma RestartKeepsSound(cfg: Config, namespace: string, s: State)
    requires Sound(cfg, s)
    ensures Sound(cfg, AfterRestart(cfg, namespace, s))
  {
    RestartKeepsInvariant(cfg, s, MemoryOf(cfg, namespace, s), PublishedOf(cfg, namespace, s));
    RestartKeepsHeld(cfg, s, MemoryOf(cfg, namespace, s), PublishedOf(cfg, namespace, s));
    RestartKeepsRooted(cfg, namespace, s);
  }

  /**
    After a restart, in every run without races under the naming discipline, no identity is held
    twice, and the counters of every pool differ from the store, up to writes in progress, by
    exactly the error of the counters that were listed.
   */
  lemma RunsAfterRestart(cfg: Config, namespace: string, s: State, actions: seq<Action>, p: Name)
    requires Sound(cfg, s) && Disciplined(cfg) && p in s.api
    requires !Run(cfg, AfterRestart(cfg, namespace, s), actions).raced
    ensures
      var start := AfterRestart(cfg, namespace, s);
      var t := Run(cfg, start, actions);
      && Exclusive(cfg, t) && p in t.mem
      && t.mem[p].status.locked + |LockingOf(cfg, t, p)| ==
           |InUseOf(cfg, t, p)| + |UnlockingOf(cfg, t, p)| + s.api[p].locked - |InUseOf(cfg, s, p)|
      && t.mem[p].status.size == |CountedOf(cfg, t, p)| + s.api[p].size - |CountedOf(cfg, start, p)|
  {
    var memory, published := MemoryOf(cfg, namespace, s), PublishedOf(cfg, namespace, s);
    var r := Resumed(s, memory, published);
    RestartKeepsSound(cfg, namespace, s);
    DriftIsListedError(cfg, namespace, s, r, p);
    SameCounts(cfg, r, AfterRestart(cfg, namespace, s), p);
    RunsFrom(cfg, AfterRestart(cfg, namespace, s), actions, p);
  }

  /* Lives: runs separated by restarts. */

  /** The state after several runs with a restart between any two of them. */
  function Life(cfg: Config, namespace: string, s: State, runs: seq<seq<Action>>): State
    decreases |runs|
  {
    if runs == [] then s
    else
      var t := Run(cfg, s, runs[0]);
      if |runs| == 1 then t else Life(cfg, namespace, AfterRestart(cfg, namespace, t), runs[1..])
  }

  predicate RaceFree(cfg: Config, namespace: string, s: State, runs: seq<seq<Action>>)
    decreases |runs|
  {
    runs != [] ==>
      var t := Run(cfg, s, runs[0]);
      !t.raced && (|runs| > 1 ==> RaceFree(cfg, namespace, AfterRestart(cfg, namespace, t), runs[1..]))
  }

  lemma {:induction false} LifeKeepsSound(cfg: Config, namespace: string, s: State, runs: seq<seq<Action>>)
    requires Sound(cfg, s) && Disciplined(cfg) && RaceFree(cfg, namespace, s, runs)
    ensures Sound(cfg, Life(cfg, namespace, s, runs))
    decreases |runs|
  {
    if runs != [] {
      RunKeepsSound(cfg, s, runs[0]);
      var t := Run(cfg, s, runs[0]);
      if |runs| > 1 {
        RestartKeepsSound(cfg, namespace, t);
        LifeKeepsSound(cfg, namespace, AfterRestart(cfg, namespace, t), runs[1..]);
      }
    }
  }

  /**
    In every race-free life from the empty store, with any number of restarts at any moments, the
    naming discipline keeps the identities exclusive, holders right and the conservation law.
   */
  lemma LivesAreSound(cfg: Config, namespace: string, runs: seq<seq<Action>>)
    requires Disciplined(cfg) && RaceFree(cfg, namespace, Start(), runs)
    ensures
      var s := Life(cfg, namespace, Start(), runs);
      Exclusive(cfg, s) && Held(cfg, s) && Counters(cfg, s) && Listing(cfg, namespace, s).Complete()
  {
    StartIsSound(cfg);
    LifeKeepsSound(cfg, namespace, Start(), runs);
    HeldIsExclusive(cfg, Life(cfg, namespace, Start(), runs));
    ListingIsComplete(cfg, namespace, Life(cfg, namespace, Start(), runs));
  }

  ghost predicate ExclusiveLife(cfg: Config, namespace: string, runs: seq<seq<Action>>) {
    RaceFree(cfg, namespace, Start(), runs) ==> Exclusive(cfg, Life(cfg, namespace, Start(), runs))
  }

  /** Every race-free life keeps the identities exclusive if and only if the naming discipline holds. */
  lemma LivesExclusionExact(cfg: Config, namespace: string)
    ensures (forall runs :: ExclusiveLife(cfg, namespace, runs)) <==> Disciplined(cfg)
  {
    if Disciplined(cfg) {
      forall runs ensures ExclusiveLife(cfg, namespace, runs) {
        if RaceFree(cfg, namespace, Start(), runs) {
          LivesAreSound(cfg, namespace, runs);
        }
      }
    } else {
      ExclusionExact(cfg);
      var actions :| !Reached(cfg, actions).raced && !Exclusive(cfg, Reached(cfg, actions));
      assert !ExclusiveLife(cfg, namespace, [actions]);
    }
  }

  /* Restarts inside a lock. */

  /** A restart frees the identity of a node that has disappeared. */
  lemma RestartFreesOrphan(cfg: Config, namespace: string, s: State, x: Name, h: Name)
    requires Inv(cfg, s) && Orphaned(s, x, h)
    ensures
      var v := AfterRestart(cfg, namespace, s).ids[x];
      if h in s.nodes then v.phase == InUse && v.holder == Some(h) else v.phase == Free && v.holder == None
  {
  }

  /**
    A running node keeps its identity over a restart, and its later release gives the identity
    back, with `locked` of the pool one lower.
   */
  lemma RunningNodeSurvives(cfg: Config, namespace: string, s: State, n: Name)
    requires Sound(cfg, s) && n in cfg.want && n in s.nodes && s.nodes[n] == NodePc.Running
    ensures
      var x, t := cfg.want[n].identity, AfterRestart(cfg, namespace, s);
      var u := Run(cfg, t, ReleaseSeq(n));
      && n in t.nodes && t.nodes[n] == NodePc.Running && IsInUse(t, x) && t.ids[x].holder == Some(n)
      && u.nodes == t.nodes[n := Released] && Relabeled(t.ids, u.ids, x, Free, None) && Recounted(t, u, cfg.want[n].pool, -1, 0)
  {
    assert NodeAt(cfg, s, n) && HoldAt(cfg, s, n);
    RestartKeepsSound(cfg, namespace, s);
    var t := AfterRestart(cfg, namespace, s);
    assert NodeAt(cfg, t, n) && HoldAt(cfg, t, n);
    ReleaseGivesBack(cfg, t, n);
  }

  /**
    A node that is interrupted between the two writes of its lock: the listed counters are wrong,
    and after the restart the identity is InUse for the node, which does not hold it.
   */
  lemma InterruptedLockOccurs(cfg: Config, namespace: string, h: Name) returns (actions: seq<Action>)
    requires cfg.Proper(h)
    ensures
      var s, x := Reached(cfg, actions), cfg.Wanted(h);
      && !s.raced && s.stale == {} && cfg.Pool(x) in s.api && !ListedRight(cfg, namespace, s, cfg.Pool(x))
      && h in AfterRestart(cfg, namespace, s).nodes && Orphaned(AfterRestart(cfg, namespace, s), x, h)
      && (Disciplined(cfg) ==> Sound(cfg, s))
  {
    actions := ReachOneWritten(cfg, h);
    WrittenIsInterrupted(cfg, namespace, cfg.Wanted(h), h);
    StartIsSound(cfg);
    if Disciplined(cfg) {
      RunKeepsSound(cfg, Start(), actions);
    }
  }

  lemma WrittenIsInterrupted(cfg: Config, namespace: string, x: Name, h: Name)
    requires cfg.Wanted(h) == x
    ensures
      var s := OneWritten(cfg.Pool(x), x, h);
      && !s.raced && s.stale == {} && cfg.Pool(x) in s.api && !ListedRight(cfg, namespace, s, cfg.Pool(x))
      && h in AfterRestart(cfg, namespace, s).nodes && Orphaned(AfterRestart(cfg, namespace, s), x, h)
  {
    var s := OneWritten(cfg.Pool(x), x, h);
    assert InUseOf(cfg, s, cfg.Pool(x)) == {x};
    WriterComesBack(cfg, s, MemoryOf(cfg, namespace, s), PublishedOf(cfg, namespace, s), x, h);
  }

  /** A node between the two writes of its lock is created again, and its identity stays InUse for it. */
  lemma WriterComesBack(cfg: Config, s: State, memory: Statuses, published: Statuses, x: Name, h: Name)
    requires h in s.nodes && s.nodes[h] == PhaseWritten && IsInUse(s, x) && s.ids[x].holder == Some(h)
    ensures
      var t := Restarted(cfg, s, memory, published);
      h in t.nodes && Orphaned(t, x, h)
  {
  }

  /** With different names, such a node is refused its identity in every later run without races. */
  lemma InterruptedLockIsLost(cfg: Config, namespace: string, s: State, h: Name, actions: seq<Action>)
    requires Sound(cfg, s) && Disciplined(cfg) && cfg.Wanted(h) != h
    requires Orphaned(AfterRestart(cfg, namespace, s), cfg.Wanted(h), h)
    requires !Run(cfg, AfterRestart(cfg, namespace, s), actions).raced
    ensures
      var t := Run(cfg, AfterRestart(cfg, namespace, s), actions);
      Orphaned(t, cfg.Wanted(h), h) && (h in t.nodes ==> !Holds(t.nodes[h]))
  {
    RestartKeepsSound(cfg, namespace, s);
    OrphanStays(cfg, AfterRestart(cfg, namespace, s), actions, cfg.Wanted(h), h);
  }
}
