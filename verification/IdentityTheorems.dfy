/**
  What the identity lock protocol guarantees over whole runs (see IdentityLock).
 */
module IdentityTheorems {
  import opened Wrappers
  import opened Sets
  import opened IdentityPool
  import opened IdentityLock

  /** The state after some steps from the empty store. */
  function Reached(cfg: Config, actions: seq<Action>): State {
    Run(cfg, Start(), actions)
  }

  lemma StartIsGood(cfg: Config)
    ensures Inv(cfg, Start()) && Clean(cfg, Start())
  {
  }

  /**
    In every reachable state, whatever the interleaving and whatever races occurred, the counters
    in memory obey the conservation law, the phase in memory compares them, and the API shows the
    same status unless the pool's own controller wrote last.
   */
  lemma CountersConserved(cfg: Config, actions: seq<Action>, p: Name)
    ensures
      var s := Reached(cfg, actions);
      p in s.mem ==>
        var m := s.mem[p];
        && m.status.locked + |LockingOf(cfg, s, p)| == |InUseOf(cfg, s, p)| + |UnlockingOf(cfg, s, p)| + m.lockDrift
        && m.status.size == |CountedOf(cfg, s, p)| + m.sizeDrift
        && m.status.phase == (if m.status.size >= m.status.locked then Ready else OutOfSync)
        && p in s.api && (p !in s.stale ==> s.api[p] == m.status)
  {
    StartIsGood(cfg);
    RunKeeps(cfg, Start(), actions);
    RunKeepsCompared(cfg, Start(), actions, p);
    var s := Reached(cfg, actions);
    assert PublishedAt(s, p) && ComparedAt(s, p);
  }

  lemma CleanReached(cfg: Config, actions: seq<Action>)
    requires Disciplined(cfg) && !Reached(cfg, actions).raced
    ensures Inv(cfg, Reached(cfg, actions)) && Clean(cfg, Reached(cfg, actions))
  {
    StartIsGood(cfg);
    RunKeeps(cfg, Start(), actions);
    RunKeepsClean(cfg, Start(), actions);
  }

  /** Without races and under the discipline, the counters are exact up to the writes in progress. */
  lemma CleanCountersExact(cfg: Config, actions: seq<Action>, p: Name)
    requires Disciplined(cfg) && !Reached(cfg, actions).raced && p in Reached(cfg, actions).mem
    ensures
      var s := Reached(cfg, actions);
      && s.mem[p].status.locked + |LockingOf(cfg, s, p)| == |InUseOf(cfg, s, p)| + |UnlockingOf(cfg, s, p)|
      && s.mem[p].status.size == |CountedOf(cfg, s, p)|
      && InUseOf(cfg, s, p) <= CountedOf(cfg, s, p)
  {
    CleanReached(cfg, actions);
    var s := Reached(cfg, actions);
    forall x | x in InUseOf(cfg, s, p) ensures x in CountedOf(cfg, s, p) {
      assert LiveAt(s, x);
    }
  }

  /**
    When in addition no lock or unlock of the pool is between its two writes, `locked` is the
    number of InUse identities, does not exceed `size`, and the pool is Ready.
   */
  lemma QuiescentPoolIsReady(cfg: Config, actions: seq<Action>, p: Name)
    requires Disciplined(cfg) && !Reached(cfg, actions).raced && p in Reached(cfg, actions).mem
    requires LockingOf(cfg, Reached(cfg, actions), p) == {} && UnlockingOf(cfg, Reached(cfg, actions), p) == {}
    ensures
      var s := Reached(cfg, actions);
      && s.mem[p].status.locked == |InUseOf(cfg, s, p)| <= s.mem[p].status.size
      && s.mem[p].status.phase == Ready
  {
    CleanCountersExact(cfg, actions, p);
    CountersConserved(cfg, actions, p);
    var s := Reached(cfg, actions);
    SubsetSize(InUseOf(cfg, s, p), CountedOf(cfg, s, p));
  }

  /**
    The guard of the pool's `delete`, applied to a published status that is up to date: it passes
    only when no identity of the pool is counted or in use and no lock or unlock is in progress.
   */
  lemma DeleteGuardIsSafe(cfg: Config, actions: seq<Action>, p: Name)
    requires Disciplined(cfg) && !Reached(cfg, actions).raced
    requires p in Reached(cfg, actions).mem && p !in Reached(cfg, actions).stale && p in Reached(cfg, actions).api
    requires Reached(cfg, actions).api[p].locked == 0 && Reached(cfg, actions).api[p].size == 0
    ensures
      var s := Reached(cfg, actions);
      CountedOf(cfg, s, p) == InUseOf(cfg, s, p) == LockingOf(cfg, s, p) == UnlockingOf(cfg, s, p) == {}
  {
    CountersConserved(cfg, actions, p);
    CleanCountersExact(cfg, actions, p);
    CleanReached(cfg, actions);
    var s := Reached(cfg, actions);
    assert CountedOf(cfg, s, p) == {};
    forall n ensures n !in LockingOf(cfg, s, p) {
      assert HoldAt(cfg, s, n) && NodeAt(cfg, s, n);
      assert n in LockingOf(cfg, s, p) ==> cfg.Wanted(n) in InUseOf(cfg, s, p);
    }
    assert |LockingOf(cfg, s, p)| == 0;
    assert UnlockingOf(cfg, s, p) == {};
  }

  /* Mutual exclusion. */

  /** No two nodes hold the same identity. */
  ghost predicate Exclusive(cfg: Config, s: State) {
    forall m, n :: m in s.nodes && n in s.nodes && Holds(s.nodes[m]) && Holds(s.nodes[n]) && cfg.Wanted(m) == cfg.Wanted(n) ==> m == n
  }

  lemma HeldIsExclusive(cfg: Config, s: State)
    requires Held(cfg, s)
    ensures Exclusive(cfg, s)
  {
    forall m, n | m in s.nodes && n in s.nodes && Holds(s.nodes[m]) && Holds(s.nodes[n]) && cfg.Wanted(m) == cfg.Wanted(n)
      ensures m == n
    {
      assert HoldAt(cfg, s, m) && HoldAt(cfg, s, n);
    }
  }

  lemma {:induction false} RunConcat(cfg: Config, s: State, a: seq<Action>, b: seq<Action>)
    ensures Run(cfg, s, a + b) == Run(cfg, Run(cfg, s, a), b)
    decreases |a|
  {
    if a == [] {
      assert a + b == b;
    } else {
      assert (a + b)[1..] == a[1..] + b;
      RunConcat(cfg, Step(cfg, s, a[0]), a[1..], b);
    }
  }

  lemma Run1(cfg: Config, s: State, a: Action)
    ensures Run(cfg, s, [a]) == Step(cfg, s, a)
  {
    assert [a][1..] == [];
  }

  lemma Run2(cfg: Config, s: State, a: Action, b: Action)
    ensures Run(cfg, s, [a, b]) == Step(cfg, Step(cfg, s, a), b)
  {
    assert [a, b] == [a] + [b];
    RunConcat(cfg, s, [a], [b]);
    Run1(cfg, s, a);
    Run1(cfg, Step(cfg, s, a), b);
  }

  lemma Run2At(cfg: Config, s: State, a: Action, b: Action, t: State, u: State)
    requires Step(cfg, s, a) == t && Step(cfg, t, b) == u
    ensures Run(cfg, s, [a, b]) == u
  {
    Run2(cfg, s, a, b);
  }

  /** A store with one pool and one free identity in it. */
  function OneFree(p: Name, x: Name): State {
    var status := PoolStatus(Ready, 1, 0);
    State(map[x := Identity(Free, None, Live)], map[], map[p := Cached(status, 0, 0)], map[p := status], {}, None, false)
  }

  /** A store with one new pool, and one with an identity that waits to be counted. */
  function OnePool(p: Name): State {
    State(map[], map[], map[p := Cached(PoolStatus(Ready, 0, 0), 0, 0)], map[p := PoolStatus(Ready, 0, 0)], {}, None, false)
  }

  function OneWaiting(p: Name, x: Name): State {
    OnePool(p).(ids := map[x := Identity(Init, None, Initializing)])
  }

  lemma ReachOnePool(cfg: Config, p: Name)
    ensures Run(cfg, Start(), [PoolCreate(p), PoolRegister(p)]) == OnePool(p)
  {
    Run2(cfg, Start(), PoolCreate(p), PoolRegister(p));
  }

  lemma ReachOneWaiting(cfg: Config, x: Name)
    requires x in cfg.poolOf
    ensures Run(cfg, OnePool(cfg.Pool(x)), [IdentityNew(x), IdentityInit(x)]) == OneWaiting(cfg.Pool(x), x)
  {
    var s := OnePool(cfg.Pool(x));
    Run2(cfg, s, IdentityNew(x), IdentityInit(x));
    assert Step(cfg, s, IdentityNew(x)).ids == map[x := Identity(NoStatus, None, New)];
  }

  lemma ReachCounted(cfg: Config, x: Name)
    requires x in cfg.poolOf
    ensures Run(cfg, OneWaiting(cfg.Pool(x), x), [IdentityCount(x), IdentityReady(x)]) == OneFree(cfg.Pool(x), x)
  {
    var s := OneWaiting(cfg.Pool(x), x);
    Run2(cfg, s, IdentityCount(x), IdentityReady(x));
    assert Step(cfg, s, IdentityCount(x)) == OneFree(cfg.Pool(x), x).(ids := map[x := Identity(Init, None, Counted)]);
  }

  lemma ReachOneFree(cfg: Config, x: Name) returns (actions: seq<Action>)
    requires x in cfg.poolOf
    ensures Reached(cfg, actions) == OneFree(cfg.Pool(x), x)
  {
    var p := cfg.Pool(x);
    var registered := [PoolCreate(p), PoolRegister(p)];
    var started := [IdentityNew(x), IdentityInit(x)];
    var counted := [IdentityCount(x), IdentityReady(x)];
    ReachOnePool(cfg, p);
    ReachOneWaiting(cfg, x);
    ReachCounted(cfg, x);
    RunConcat(cfg, Start(), registered, started);
    RunConcat(cfg, Start(), registered + started, counted);
    actions := registered + started + counted;
  }

  /** A store in which the node h holds the identity x. */
  function OneHeld(p: Name, x: Name, h: Name): State {
    var status := PoolStatus(Ready, 1, 1);
    State(map[x := Identity(InUse, Some(h), Live)], map[h := Obtained], map[p := Cached(status, 0, 0)], map[p := status], {}, None, false)
  }

  /** A store in which the node h is inside the lock. */
  function OneGranted(p: Name, x: Name, h: Name): State {
    OneFree(p, x).(nodes := map[h := Granted], mutex := Some(h))
  }

  lemma ReachOneGranted(cfg: Config, h: Name)
    requires cfg.Proper(h)
    ensures
      var x := cfg.Wanted(h);
      Run(cfg, OneFree(cfg.Pool(x), x), [NodeNew(h), LockRead(h)]) == OneGranted(cfg.Pool(x), x, h)
  {
    var x := cfg.Wanted(h);
    var s := OneFree(cfg.Pool(x), x);
    var new' := s.(nodes := map[h := Idle]);
    NewNodeAppears(cfg, s, h);
    FreeIsGranted(cfg, x, h);
    Run2At(cfg, s, NodeNew(h), LockRead(h), new', OneGranted(cfg.Pool(x), x, h));
  }

  lemma NewNodeAppears(cfg: Config, s: State, n: Name)
    requires n in cfg.want && n !in s.nodes
    ensures Step(cfg, s, NodeNew(n)) == s.(nodes := s.nodes[n := Idle])
  {
  }

  lemma FreeIsGranted(cfg: Config, x: Name, h: Name)
    requires cfg.Proper(h) && cfg.Wanted(h) == x
    ensures Step(cfg, OneFree(cfg.Pool(x), x).(nodes := map[h := Idle]), LockRead(h)) == OneGranted(cfg.Pool(x), x, h)
  {
    assert map[h := Idle][h := Granted] == map[h := Granted];
  }

  /** ... and has written InUse there. */
  function OneWritten(p: Name, x: Name, h: Name): State {
    OneGranted(p, x, h).(nodes := map[h := PhaseWritten], ids := map[x := Identity(InUse, Some(h), Live)])
  }

  lemma StepLocks(cfg: Config, s: State, n: Name)
    ensures Step(cfg, s, LockPhase(n)) == WriteLockPhase(cfg, s, n) && Step(cfg, s, LockCount(n)) == CountLock(cfg, s, n)
  {
  }

  lemma WriteLocks(cfg: Config, x: Name, h: Name)
    requires cfg.Wanted(h) == x
    ensures WriteLockPhase(cfg, OneGranted(cfg.Pool(x), x, h), h) == OneWritten(cfg.Pool(x), x, h)
  {
    assert map[x := Identity(Free, None, Live)][x := Identity(InUse, Some(h), Live)] == map[x := Identity(InUse, Some(h), Live)];
    assert map[h := Granted][h := PhaseWritten] == map[h := PhaseWritten];
  }

  lemma EnabledCount(cfg: Config, s: State, n: Name)
    requires n in s.nodes && s.nodes[n] == PhaseWritten && cfg.Pool(cfg.Wanted(n)) in s.mem
    ensures CountLock(cfg, s, n) == SetNode(Bump(s, cfg.Pool(cfg.Wanted(n)), Locked, 0), n, Obtained).(mutex := None)
  {
  }

  lemma CountLocks(cfg: Config, x: Name, h: Name)
    requires cfg.Wanted(h) == x
    ensures CountLock(cfg, OneWritten(cfg.Pool(x), x, h), h) == OneHeld(cfg.Pool(x), x, h)
  {
    EnabledCount(cfg, OneWritten(cfg.Pool(x), x, h), h);
    var p, one, held := cfg.Pool(x), PoolStatus(Ready, 1, 0), PoolStatus(Ready, 1, 1);
    assert NextStatus(one, Locked) == held;
    assert map[p := Cached(one, 0, 0)][p := Cached(held, 0, 0)] == map[p := Cached(held, 0, 0)];
    assert map[p := one][p := held] == map[p := held];
    assert map[h := PhaseWritten][h := Obtained] == map[h := Obtained];
  }

  lemma {:induction false} ReachLocked(cfg: Config, x: Name, h: Name)
    requires cfg.Wanted(h) == x
    ensures Run(cfg, OneGranted(cfg.Pool(x), x, h), [LockPhase(h), LockCount(h)]) == OneHeld(cfg.Pool(x), x, h)
  {
    var p := cfg.Pool(x);
    WriteLocks(cfg, x, h);
    CountLocks(cfg, x, h);
    StepLocks(cfg, OneGranted(p, x, h), h);
    StepLocks(cfg, OneWritten(p, x, h), h);
    Run2At(cfg, OneGranted(p, x, h), LockPhase(h), LockCount(h), OneWritten(p, x, h), OneHeld(p, x, h));
  }

  lemma ReachOneWritten(cfg: Config, h: Name) returns (actions: seq<Action>)
    requires cfg.Proper(h)
    ensures Reached(cfg, actions) == OneWritten(cfg.Pool(cfg.Wanted(h)), cfg.Wanted(h), h)
  {
    var x := cfg.Wanted(h);
    var before := ReachOneFree(cfg, x);
    var read := [NodeNew(h), LockRead(h)];
    ReachOneGranted(cfg, h);
    WriteLocks(cfg, x, h);
    StepLocks(cfg, OneGranted(cfg.Pool(x), x, h), h);
    Run1(cfg, OneGranted(cfg.Pool(x), x, h), LockPhase(h));
    RunConcat(cfg, Start(), before, read);
    RunConcat(cfg, Start(), before + read, [LockPhase(h)]);
    actions := before + read + [LockPhase(h)];
  }

  lemma ReachOneHeld(cfg: Config, h: Name) returns (actions: seq<Action>)
    requires cfg.Proper(h)
    ensures Reached(cfg, actions) == OneHeld(cfg.Pool(cfg.Wanted(h)), cfg.Wanted(h), h)
  {
    var x := cfg.Wanted(h);
    var before := ReachOneFree(cfg, x);
    var read := [NodeNew(h), LockRead(h)];
    var written := [LockPhase(h), LockCount(h)];
    ReachOneGranted(cfg, h);
    ReachLocked(cfg, x, h);
    RunConcat(cfg, Start(), before, read);
    RunConcat(cfg, Start(), before + read, written);
    actions := before + read + written;
  }

  /** When the node x holds the identity x, any other node that asks for x is given it as well. */
  lemma SharedIdentity(cfg: Config, x: Name, n: Name) returns (actions: seq<Action>)
    requires cfg.Proper(x) && cfg.Wanted(x) == x && cfg.Proper(n) && cfg.Wanted(n) == x && n != x
    ensures !Reached(cfg, actions).raced && !Exclusive(cfg, Reached(cfg, actions))
  {
    var before := ReachOneHeld(cfg, x);
    var more := [NodeNew(n), LockRead(n)];
    SecondObtains(cfg, x, n);
    RunConcat(cfg, Start(), before, more);
    actions := before + more;
  }

  lemma SecondObtains(cfg: Config, x: Name, n: Name)
    requires cfg.Proper(x) && cfg.Wanted(x) == x && cfg.Proper(n) && cfg.Wanted(n) == x && n != x
    ensures
      var s := Run(cfg, OneHeld(cfg.Pool(x), x, x), [NodeNew(n), LockRead(n)]);
      !s.raced && !Exclusive(cfg, s)
  {
    var held := OneHeld(cfg.Pool(x), x, x);
    var new' := held.(nodes := held.nodes[n := Idle]);
    var both := held.(nodes := held.nodes[n := Idle][n := Obtained]);
    NewNodeAppears(cfg, held, n);
    SecondIsGiven(cfg, new', x, n);
    Run2At(cfg, held, NodeNew(n), LockRead(n), new', both);
    assert both.nodes[x] == Obtained && both.nodes[n] == Obtained;
  }

  /** The relock branch gives an identity that is recorded as held by its own name to any node that asks. */
  lemma SecondIsGiven(cfg: Config, s: State, x: Name, n: Name)
    requires cfg.Proper(n) && cfg.Wanted(n) == x && n in s.nodes && s.nodes[n] == Idle && s.mutex == None
    requires cfg.Pool(x) in s.mem && IsInUse(s, x) && s.ids[x].holder == Some(x)
    ensures Step(cfg, s, LockRead(n)) == SetNode(s, n, Obtained)
  {
    assert ReadGrant(cfg, s, n) == Relock;
  }

  /** Every run without races keeps the identities exclusive if and only if the naming discipline holds. */
  lemma ExclusionExact(cfg: Config)
    ensures (forall actions :: !Reached(cfg, actions).raced ==> Exclusive(cfg, Reached(cfg, actions))) <==> Disciplined(cfg)
  {
    if Disciplined(cfg) {
      forall actions | !Reached(cfg, actions).raced ensures Exclusive(cfg, Reached(cfg, actions)) {
        CleanReached(cfg, actions);
        HeldIsExclusive(cfg, Reached(cfg, actions));
      }
    } else {
      var x, n :| cfg.Proper(x) && cfg.Wanted(x) == x && cfg.Proper(n) && cfg.Wanted(n) == x && n != x;
      var actions := SharedIdentity(cfg, x, n);
    }
  }

  /** Requests for distinct identities are disciplined. */
  lemma InjectiveIsDisciplined(cfg: Config)
    requires forall m, n :: m in cfg.want && n in cfg.want && cfg.Wanted(m) == cfg.Wanted(n) ==> m == n
    ensures Disciplined(cfg)
  {
  }

  /* The recorded holder. */

  /** An identity step never writes a holder, so it keeps the holder or ends the InUse phase. */
  lemma IdentityStepKeepsHolder(cfg: Config, s: State, a: Action, x: Name)
    requires !IsNodeStep(a) && IsInUse(s, x) && IsInUse(Step(cfg, s, a), x)
    ensures Step(cfg, s, a).ids[x].holder == s.ids[x].holder
  {
    if IsCreationStep(a) {
      CreationKeepsHolder(cfg, s, a, x);
    } else if IsRemovalStep(a) {
      RemovalKeepsHolder(cfg, s, a, x);
    }
  }

  lemma CreationKeepsHolder(cfg: Config, s: State, a: Action, x: Name)
    requires IsCreationStep(a) && IsInUse(s, x) && IsInUse(Step(cfg, s, a), x)
    ensures Step(cfg, s, a).ids[x].holder == s.ids[x].holder
  {
  }

  lemma RemovalKeepsHolder(cfg: Config, s: State, a: Action, x: Name)
    requires IsRemovalStep(a) && IsInUse(s, x) && IsInUse(Step(cfg, s, a), x)
    ensures Step(cfg, s, a).ids[x].holder == s.ids[x].holder
  {
  }

  lemma NodeStepKeepsHolder(cfg: Config, s: State, a: Action, x: Name)
    requires Inv(cfg, s) && WritesIdentity(a) && IsInUse(s, x) && IsInUse(Step(cfg, s, a), x)
    ensures Step(cfg, s, a).ids[x].holder == s.ids[x].holder
  {
    assert NodeAt(cfg, s, a.n);
  }

  lemma OtherStepKeepsIdentities(cfg: Config, s: State, a: Action)
    requires IsNodeStep(a) && !WritesIdentity(a)
    ensures Step(cfg, s, a).ids == s.ids
  {
    if IsLockStep(a) {
      OtherLockStepKeeps(cfg, s, a);
    } else {
      OtherReleaseStepKeeps(cfg, s, a);
    }
  }

  lemma OtherLockStepKeeps(cfg: Config, s: State, a: Action)
    requires IsLockStep(a) && !a.LockPhase?
    ensures Step(cfg, s, a).ids == s.ids
  {
  }

  lemma OtherReleaseStepKeeps(cfg: Config, s: State, a: Action)
    requires IsReleaseStep(a) && !a.UnlockPhase?
    ensures Step(cfg, s, a).ids == s.ids
  {
  }

  /** In every reachable state, one step does not replace the holder of an InUse identity by another. */
  lemma HolderPassesThroughReady(cfg: Config, actions: seq<Action>, a: Action, x: Name)
    requires IsInUse(Reached(cfg, actions), x) && IsInUse(Step(cfg, Reached(cfg, actions), a), x)
    ensures Step(cfg, Reached(cfg, actions), a).ids[x].holder == Reached(cfg, actions).ids[x].holder
  {
    StartIsGood(cfg);
    RunKeeps(cfg, Start(), actions);
    if WritesIdentity(a) {
      NodeStepKeepsHolder(cfg, Reached(cfg, actions), a, x);
    } else if IsNodeStep(a) {
      OtherStepKeepsIdentities(cfg, Reached(cfg, actions), a);
    } else {
      IdentityStepKeepsHolder(cfg, Reached(cfg, actions), a, x);
    }
  }

  /** The identity is InUse for a node that does not hold it (or is gone). */
  predicate Orphaned(s: State, x: Name, h: Name) {
    && IsInUse(s, x) && s.ids[x].holder == Some(h)
    && (h in s.nodes ==> !Holds(s.nodes[h]) && s.nodes[h] != Granted)
  }

  /**
    A lock whose node disappeared before it received its finalizer is never released again, in no
    continuation without races, when the names of node and identity differ.
   */
  lemma {:induction false} OrphanStays(cfg: Config, s: State, actions: seq<Action>, x: Name, h: Name)
    requires Inv(cfg, s) && Held(cfg, s) && Disciplined(cfg) && !Run(cfg, s, actions).raced
    requires Orphaned(s, x, h) && h != x
    ensures Orphaned(Run(cfg, s, actions), x, h)
    decreases |actions|
  {
    if actions != [] {
      var s' := Step(cfg, s, actions[0]);
      RacedStays(cfg, s', actions[1..]);
      StepKeeps(cfg, s, actions[0]);
      StepKeepsHeld(cfg, s, actions[0]);
      OrphanStep(cfg, s, actions[0], x, h);
      OrphanStays(cfg, s', actions[1..], x, h);
    }
  }

  /** Such a lock occurs: the node disappears after it obtained the identity and before it received its finalizer. */
  lemma OrphanOccurs(cfg: Config, h: Name) returns (actions: seq<Action>)
    requires cfg.Proper(h)
    ensures
      var s := Reached(cfg, actions);
      !s.raced && Orphaned(s, cfg.Wanted(h), h) && h !in s.nodes
  {
    var before := ReachOneHeld(cfg, h);
    RunConcat(cfg, Start(), before, [NodeGone(h)]);
    Run1(cfg, Reached(cfg, before), NodeGone(h));
    actions := before + [NodeGone(h)];
  }

  lemma OrphanIdentityStep(cfg: Config, s: State, a: Action, x: Name, h: Name)
    requires Held(cfg, s) && !IsNodeStep(a) && !Step(cfg, s, a).raced
    requires Orphaned(s, x, h)
    ensures Orphaned(Step(cfg, s, a), x, h)
  {
    assert LiveAt(s, x);
    if IsCreationStep(a) {
      OrphanCreationStep(cfg, s, a, x, h);
    } else if IsRemovalStep(a) {
      OrphanRemovalStep(cfg, s, a, x, h);
    }
  }

  lemma OrphanCreationStep(cfg: Config, s: State, a: Action, x: Name, h: Name)
    requires LiveAt(s, x) && IsCreationStep(a) && Orphaned(s, x, h)
    ensures Orphaned(Step(cfg, s, a), x, h)
  {
  }

  lemma OrphanRemovalStep(cfg: Config, s: State, a: Action, x: Name, h: Name)
    requires LiveAt(s, x) && IsRemovalStep(a) && !Step(cfg, s, a).raced && Orphaned(s, x, h)
    ensures Orphaned(Step(cfg, s, a), x, h)
  {
  }

  predicate WritesIdentity(a: Action) {
    a.LockPhase? || a.UnlockPhase?
  }

  lemma OrphanLockStep(cfg: Config, s: State, n: Name, x: Name, h: Name)
    requires NodeAt(cfg, s, n) && Orphaned(s, x, h)
    ensures Orphaned(WriteLockPhase(cfg, s, n), x, h)
  {
  }

  lemma OrphanUnlockStep(cfg: Config, s: State, n: Name, x: Name, h: Name)
    requires HoldAt(cfg, s, n) && Orphaned(s, x, h)
    ensures Orphaned(WriteUnlockPhase(cfg, s, n), x, h)
  {
  }

  lemma OrphanWriteStep(cfg: Config, s: State, a: Action, x: Name, h: Name)
    requires Inv(cfg, s) && Held(cfg, s) && WritesIdentity(a) && Orphaned(s, x, h)
    ensures Orphaned(Step(cfg, s, a), x, h)
  {
    assert NodeAt(cfg, s, a.n) && HoldAt(cfg, s, a.n);
    match a
    case LockPhase(n) => OrphanLockStep(cfg, s, n, x, h);
    case UnlockPhase(n) => OrphanUnlockStep(cfg, s, n, x, h);
  }

  lemma OrphanReadStep(cfg: Config, s: State, n: Name, x: Name, h: Name)
    requires Orphaned(s, x, h) && cfg.Wanted(h) == x && h != x
    ensures Orphaned(ReadForLock(cfg, s, n), x, h)
  {
  }

  lemma OrphanNodeStep(cfg: Config, s: State, a: Action, x: Name, h: Name)
    requires IsNodeStep(a) && !WritesIdentity(a) && !a.LockRead? && Orphaned(s, x, h)
    ensures Orphaned(Step(cfg, s, a), x, h)
  {
    if IsLockStep(a) {
      OrphanLockedStep(cfg, s, a, x, h);
    } else {
      OrphanReleaseStep(cfg, s, a, x, h);
    }
  }

  lemma OrphanLockedStep(cfg: Config, s: State, a: Action, x: Name, h: Name)
    requires IsLockStep(a) && !WritesIdentity(a) && !a.LockRead? && Orphaned(s, x, h)
    ensures Orphaned(Step(cfg, s, a), x, h)
  {
  }

  lemma OrphanReleaseStep(cfg: Config, s: State, a: Action, x: Name, h: Name)
    requires IsReleaseStep(a) && !WritesIdentity(a) && Orphaned(s, x, h)
    ensures Orphaned(Step(cfg, s, a), x, h)
  {
  }

  lemma OrphanStep(cfg: Config, s: State, a: Action, x: Name, h: Name)
    requires Inv(cfg, s) && Held(cfg, s) && !Step(cfg, s, a).raced
    requires Orphaned(s, x, h) && h != x
    ensures Orphaned(Step(cfg, s, a), x, h)
  {
    assert IdAt(cfg, s, x);
    if WritesIdentity(a) {
      OrphanWriteStep(cfg, s, a, x, h);
    } else if a.LockRead? {
      OrphanReadStep(cfg, s, a.n, x, h);
    } else if IsNodeStep(a) {
      OrphanNodeStep(cfg, s, a, x, h);
    } else {
      OrphanIdentityStep(cfg, s, a, x, h);
    }
  }

  /** With equal names, the node created again obtains its identity without a second count. */
  lemma RelockRecovers(cfg: Config, s: State, x: Name)
    requires Inv(cfg, s) && Orphaned(s, x, x) && x in s.nodes && s.nodes[x] == Idle && s.mutex == None
    ensures Step(cfg, s, LockRead(x)) == SetNode(s, x, Obtained)
  {
    assert IdAt(cfg, s, x);
    SecondIsGiven(cfg, s, x, x);
  }
}
