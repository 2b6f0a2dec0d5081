/**
  The protocol by which nodes lock and unlock the identities of a pool, as a step relation with
  one step per await point (src/hoprd/hoprd_resource.rs:113-122, 253-325,
  src/identity_hoprd/identity_hoprd_resource.rs:99-319,
  src/identity_pool/identity_pool_resource.rs:104-126, 256-358).

  `lock_identity` reads the identity, writes its phase and updates the pool counters while it
  holds the write lock of the in-memory state; `unlock` and the identity controller write phases
  without that lock and take it only to update the counters. The identities an object refers to
  are fixed by the configuration: names are not re-assigned by edits.
 */
module IdentityLock {
  import opened Wrappers
  import opened IdentityPool

  type Name = string

  /** Where the controller of an identity is. */
  datatype Stage =
    | New                       // no finalizer yet
    | Initializing              // Initialized written, waiting to be counted
    | Counted                   // counted, Ready not yet written
    | Uncountable               // the pool was not in memory: never counted, never Ready
    | Live
    | Removing(counted: bool)   // deletion passed its guard
    | Removed                   // taken out of the count, object still stored

  datatype Identity = Identity(phase: IdPhase, holder: Option<Name>, stage: Stage)

  /** Where the controller of a node is. */
  datatype NodePc =
    | Idle            // no identity, no finalizer; `create` is tried again and again
    | Granted         // inside the lock: the identity was read as Ready
    | PhaseWritten    // inside the lock: InUse written, counter not yet
    | Obtained        // `lock_identity` returned the identity
    | Running         // finalizer added
    | Releasing       // phase Deleting written
    | UnlockRead      // `delete` read the identity as InUse
    | UnlockWritten   // Ready written, counter not yet
    | Released
    | Stranded        // the unlock failed because the identity object is gone

  /** A pool in the in-memory state. The drifts are bookkeeping of the model, see `Counters`. */
  datatype Cached = Cached(status: PoolStatus, lockDrift: int, sizeDrift: int)

  datatype Request = Request(pool: Name, identity: Name)

  /** Which identity a node of a given name asks for, and to which pool an identity belongs. */
  datatype Config = Config(want: map<Name, Request>, poolOf: map<Name, Name>) {
    function Pool(x: Name): Name {
      if x in poolOf then poolOf[x] else ""
    }

    function Wanted(n: Name): Name {
      if n in want then want[n].identity else ""
    }

    /** The request of a node names an identity of the pool it names. */
    predicate Proper(n: Name) {
      n in want && want[n].identity in poolOf && poolOf[want[n].identity] == want[n].pool
    }
  }

  datatype State = State(
    ids: map<Name, Identity>,
    nodes: map<Name, NodePc>,
    mem: map<Name, Cached>,
    api: map<Name, PoolStatus>,
    stale: set<Name>,          // pools whose API status was last written from another copy
    mutex: Option<Name>,       // the node inside `lock_identity`'s critical section
    raced: bool                // one of the races listed at `Step` has happened
  )

  datatype Action =
    | PoolCreate(pool: Name)
    | PoolRegister(pool: Name)
    | PoolTouch(pool: Name, status: PoolStatus)
    | IdentityNew(x: Name)
    | IdentityGone(x: Name)
    | IdentityInit(x: Name)
    | IdentityCount(x: Name)
    | IdentityReady(x: Name)
    | IdentityModify(x: Name, phase: IdPhase)
    | IdentityRemove(x: Name, seen: IdPhase)
    | IdentityUncount(x: Name)
    | IdentityFinish(x: Name)
    | NodeNew(n: Name)
    | NodeGone(n: Name)
    | LockRead(n: Name)
    | LockPhase(n: Name)
    | LockCount(n: Name)
    | AddFinalizer(n: Name)
    | StartRelease(n: Name)
    | ReadIdentity(n: Name)
    | UnlockPhase(n: Name)
    | UnlockCount(n: Name)

  function Start(): State {
    State(map[], map[], map[], map[], {}, None, false)
  }

  /* Elementary updates. */

  function SetId(s: State, x: Name, v: Identity): State {
    s.(ids := s.ids[x := v])
  }

  function DropId(s: State, x: Name): State {
    s.(ids := s.ids - {x})
  }

  function SetNode(s: State, n: Name, pc: NodePc): State {
    s.(nodes := s.nodes[n := pc])
  }

  predicate IsInUse(s: State, x: Name) {
    x in s.ids && s.ids[x].phase == InUse
  }

  /** Applies a counter event to the cached pool and publishes the result. */
  function Bump(s: State, p: Name, event: PoolPhase, drift: int): State
    requires p in s.mem
  {
    var status := NextStatus(s.mem[p].status, event);
    s.(mem := s.mem[p := Cached(status, s.mem[p].lockDrift, s.mem[p].sizeDrift + drift)],
       api := s.api[p := status], stale := s.stale - {p})
  }

  function AddLockDrift(s: State, p: Name, d: int): State
    requires p in s.mem
  {
    s.(mem := s.mem[p := Cached(s.mem[p].status, s.mem[p].lockDrift + d, s.mem[p].sizeDrift)])
  }

  /** An InUse phase is about to be lost without an unlock. */
  function Lose(cfg: Config, s: State, x: Name): State {
    if IsInUse(s, x) && cfg.Pool(x) in s.mem then AddLockDrift(s, cfg.Pool(x), 1) else s
  }

  /** Writes an identity outside the lock, or removes it; an InUse phase that is overwritten counts as lost. */
  function PutIdentity(cfg: Config, s: State, x: Name, v: Option<Identity>): State {
    var s' := if v.Some? && v.value.phase == InUse then s else Lose(cfg, s, x);
    if v.Some? then SetId(s', x, v.value) else DropId(s', x)
  }

  /** An unlock is about to overwrite a phase; when that is not InUse there was nothing to unlock. */
  function Gain(cfg: Config, s: State, x: Name): State {
    if !IsInUse(s, x) && cfg.Pool(x) in s.mem then AddLockDrift(s, cfg.Pool(x), -1) else s
  }

  /* The steps of the pool controller. Every step function returns the state itself when not enabled. */

  function CreatePool(s: State, p: Name): State {
    if p !in s.api then s.(api := s.api[p := PoolStatus(Ready, 0, 0)]) else s
  }

  function RegisterPool(s: State, p: Name): State {
    if p in s.api && p !in s.mem then s.(mem := s.mem[p := Cached(PoolStatus(Ready, 0, 0), 0, 0)]) else s
  }

  /** The pool's own controller publishes a copy that may be out of date, without the lock. */
  function TouchPool(s: State, p: Name, status: PoolStatus): State {
    if p in s.api then s.(api := s.api[p := status], stale := s.stale + {p}) else s
  }

  /* The steps of the identity controller. */

  function NewIdentity(cfg: Config, s: State, x: Name): State {
    if x !in s.ids && x in cfg.poolOf then PutIdentity(cfg, s, x, Some(Identity(NoStatus, None, New))) else s
  }

  function DropNewIdentity(cfg: Config, s: State, x: Name): State {
    if x in s.ids && s.ids[x].stage == New then PutIdentity(cfg, s, x, None) else s
  }

  /** `create` up to writing Initialized; it requires the published pool to be Ready. */
  function InitIdentity(cfg: Config, s: State, x: Name): State {
    if x in s.ids && s.ids[x].stage == New && cfg.Pool(x) in s.api && s.api[cfg.Pool(x)].phase == Ready then
      PutIdentity(cfg, s, x, Some(Identity(Init, None, Initializing)))
    else s
  }

  /** The counter update of `create`, under the lock. */
  function CountIdentity(cfg: Config, s: State, x: Name): State {
    if x in s.ids && s.ids[x].stage == Initializing && s.mutex == None then
      if cfg.Pool(x) in s.mem then SetId(Bump(s, cfg.Pool(x), IdentityCreated, 0), x, s.ids[x].(stage := Counted))
      else SetId(s, x, s.ids[x].(stage := Uncountable))
    else s
  }

  /** `create` writes Ready, outside the lock. */
  function ReadyIdentity(cfg: Config, s: State, x: Name): State {
    if x in s.ids && s.ids[x].stage == Counted then PutIdentity(cfg, s, x, Some(Identity(Free, None, Live))) else s
  }

  /** `modify` writes Failed or Ready; also for edited fixed fields or from a copy out of date. Overwriting InUse counts as a race. */
  function ModifyIdentity(cfg: Config, s: State, x: Name, phase: IdPhase): State {
    if x in s.ids && s.ids[x].stage == Live && (phase == Broken || phase == Free) then
      PutIdentity(cfg, s, x, Some(Identity(phase, None, Live))).(raced := s.raced || IsInUse(s, x))
    else s
  }

  /** `delete` passes its guard on the phase of a copy. Passing it while the identity is InUse is a race. */
  function RemoveIdentity(cfg: Config, s: State, x: Name, seen: IdPhase): State {
    if x in s.ids && (s.ids[x].stage.Live? || s.ids[x].stage.Uncountable?) && seen != InUse then
      PutIdentity(cfg, s, x, Some(s.ids[x].(stage := Removing(s.ids[x].stage.Live?)))).(raced := s.raced || IsInUse(s, x))
    else s
  }

  /** The counter update of `delete`, under the lock. Taking out an identity that was never counted is a race. */
  function UncountIdentity(cfg: Config, s: State, x: Name): State {
    if x in s.ids && s.ids[x].stage.Removing? && s.mutex == None then
      var counted := s.ids[x].stage.counted;
      if cfg.Pool(x) in s.mem then
        SetId(Bump(s, cfg.Pool(x), IdentityDeleted, if counted then 0 else -1), x, s.ids[x].(stage := Removed))
        .(raced := s.raced || !counted)
      else SetId(s, x, s.ids[x].(stage := Removed))
    else s
  }

  /** `delete` removes the finalizer and the object disappears. */
  function FinishIdentity(cfg: Config, s: State, x: Name): State {
    if x in s.ids && s.ids[x].stage == Removed then PutIdentity(cfg, s, x, None) else s
  }

  /* The steps of the node controller. */

  function NewNode(cfg: Config, s: State, n: Name): State {
    if n !in s.nodes && n in cfg.want then SetNode(s, n, Idle) else s
  }

  /** A node object without a finalizer disappears at once when it is deleted. */
  function DropNode(s: State, n: Name): State {
    if n in s.nodes && (s.nodes[n] == Idle || s.nodes[n] == Obtained || s.nodes[n] == Released) then s.(nodes := s.nodes - {n}) else s
  }

  /** What `get_ready_identity` returns to `lock_identity`. */
  datatype Grant = Refused | Fresh | Relock

  function ReadGrant(cfg: Config, s: State, n: Name): Grant {
    var x := cfg.Wanted(n);
    if !cfg.Proper(n) || cfg.Pool(x) !in s.mem || x !in s.ids then Refused
    else if s.ids[x].phase == Free then Fresh
    // the recorded holder is compared with the name of the identity, not of the node
    else if s.ids[x].phase == InUse && s.ids[x].holder == Some(x) then Relock
    else Refused
  }

  /** `lock_identity` takes the lock and reads; a refused or already locked identity ends it. */
  function ReadForLock(cfg: Config, s: State, n: Name): State {
    if n in s.nodes && s.nodes[n] == Idle && s.mutex == None then
      match ReadGrant(cfg, s, n)
      case Refused => s
      case Fresh => SetNode(s, n, Granted).(mutex := Some(n))
      case Relock => SetNode(s, n, Obtained)
    else s
  }

  /** `lock_identity` writes InUse. Locking an identity whose removal has begun, or that was replaced, is a race. */
  function WriteLockPhase(cfg: Config, s: State, n: Name): State {
    if n in s.nodes && s.nodes[n] == Granted then
      var x := cfg.Wanted(n);
      if x in s.ids then
        SetNode(SetId(s, x, s.ids[x].(phase := InUse, holder := Some(n))), n, PhaseWritten)
        .(raced := s.raced || s.ids[x].stage != Live)
      else SetNode(s, n, Idle).(mutex := None)
    else s
  }

  /** `lock_identity` counts the lock and releases the write lock. */
  function CountLock(cfg: Config, s: State, n: Name): State {
    if n in s.nodes && s.nodes[n] == PhaseWritten && cfg.Pool(cfg.Wanted(n)) in s.mem then
      SetNode(Bump(s, cfg.Pool(cfg.Wanted(n)), Locked, 0), n, Obtained).(mutex := None)
    else s
  }

  function Finalize(s: State, n: Name): State {
    if n in s.nodes && s.nodes[n] == Obtained then SetNode(s, n, Running) else s
  }

  /** `delete` writes Deleting. */
  function BeginRelease(s: State, n: Name): State {
    if n in s.nodes && s.nodes[n] == Running then SetNode(s, n, Releasing) else s
  }

  /** `delete` reads the identity; only an InUse one is unlocked. */
  function ReadForUnlock(cfg: Config, s: State, n: Name): State {
    if n in s.nodes && s.nodes[n] == Releasing then
      SetNode(s, n, if IsInUse(s, cfg.Wanted(n)) then UnlockRead else Released)
    else s
  }

  /** `unlock` writes Ready, outside the lock; the write fails when the object is gone. */
  function WriteUnlockPhase(cfg: Config, s: State, n: Name): State {
    if n in s.nodes && s.nodes[n] == UnlockRead then
      var x := cfg.Wanted(n);
      if x in s.ids then
        SetNode(SetId(Gain(cfg, s, x), x, s.ids[x].(phase := Free, holder := None)), n, UnlockWritten)
      else SetNode(s, n, Stranded)
    else s
  }

  /** `unlock` counts the unlock, under the lock. */
  function CountUnlock(cfg: Config, s: State, n: Name): State {
    if n in s.nodes && s.nodes[n] == UnlockWritten && s.mutex == None && cfg.Pool(cfg.Wanted(n)) in s.mem then
      SetNode(Bump(s, cfg.Pool(cfg.Wanted(n)), Unlocked, 0), n, Released)
    else s
  }

  function Step(cfg: Config, s: State, a: Action): State {
    match a
    case PoolCreate(p) => CreatePool(s, p)
    case PoolRegister(p) => RegisterPool(s, p)
    case PoolTouch(p, status) => TouchPool(s, p, status)
    case IdentityNew(x) => NewIdentity(cfg, s, x)
    case IdentityGone(x) => DropNewIdentity(cfg, s, x)
    case IdentityInit(x) => InitIdentity(cfg, s, x)
    case IdentityCount(x) => CountIdentity(cfg, s, x)
    case IdentityReady(x) => ReadyIdentity(cfg, s, x)
    case IdentityModify(x, phase) => ModifyIdentity(cfg, s, x, phase)
    case IdentityRemove(x, seen) => RemoveIdentity(cfg, s, x, seen)
    case IdentityUncount(x) => UncountIdentity(cfg, s, x)
    case IdentityFinish(x) => FinishIdentity(cfg, s, x)
    case NodeNew(n) => NewNode(cfg, s, n)
    case NodeGone(n) => DropNode(s, n)
    case LockRead(n) => ReadForLock(cfg, s, n)
    case LockPhase(n) => WriteLockPhase(cfg, s, n)
    case LockCount(n) => CountLock(cfg, s, n)
    case AddFinalizer(n) => Finalize(s, n)
    case StartRelease(n) => BeginRelease(s, n)
    case ReadIdentity(n) => ReadForUnlock(cfg, s, n)
    case UnlockPhase(n) => WriteUnlockPhase(cfg, s, n)
    case UnlockCount(n) => CountUnlock(cfg, s, n)
  }

  function Run(cfg: Config, s: State, actions: seq<Action>): State
    decreases |actions|
  {
    if actions == [] then s else Run(cfg, Step(cfg, s, actions[0]), actions[1..])
  }

  /* What always holds. */

  function InUseOf(cfg: Config, s: State, p: Name): set<Name> {
    set x | x in s.ids && s.ids[x].phase == InUse && cfg.Pool(x) == p
  }

  predicate IsCounted(stage: Stage) {
    stage.Counted? || stage.Live? || (stage.Removing? && stage.counted)
  }

  function CountedOf(cfg: Config, s: State, p: Name): set<Name> {
    set x | x in s.ids && IsCounted(s.ids[x].stage) && cfg.Pool(x) == p
  }

  /** Nodes of a pool that have written InUse but not yet the counter. */
  function LockingOf(cfg: Config, s: State, p: Name): set<Name> {
    set n | n in s.nodes && s.nodes[n] == PhaseWritten && cfg.Pool(cfg.Wanted(n)) == p
  }

  /** Nodes of a pool that have written Ready but not yet the counter. */
  function UnlockingOf(cfg: Config, s: State, p: Name): set<Name> {
    set n | n in s.nodes && s.nodes[n] == UnlockWritten && cfg.Pool(cfg.Wanted(n)) == p
  }

  predicate InSection(pc: NodePc) {
    pc == Granted || pc == PhaseWritten
  }

  /**
    The conservation law: a pool's `locked` differs from the number of InUse identities only by
    the locks and unlocks that are between their two writes, and by the drift; its `size` differs
    from the number of counted identities only by the drift. A drift changes only when an InUse
    phase is overwritten or removed without an unlock, when an unlock overwrites a phase that is
    not InUse, or when an identity that was never counted is taken out of the count.
   */
  ghost predicate Counters(cfg: Config, s: State) {
    forall p :: p in s.mem ==>
      && s.mem[p].status.locked + |LockingOf(cfg, s, p)| == |InUseOf(cfg, s, p)| + |UnlockingOf(cfg, s, p)| + s.mem[p].lockDrift
      && s.mem[p].status.size == |CountedOf(cfg, s, p)| + s.mem[p].sizeDrift
  }

  /* Counting. */

  function B(b: bool): int {
    if b then 1 else 0
  }

  predicate InUseAt(cfg: Config, s: State, x: Name, p: Name) {
    x in s.ids && s.ids[x].phase == InUse && cfg.Pool(x) == p
  }

  predicate CountedAt(cfg: Config, s: State, x: Name, p: Name) {
    x in s.ids && IsCounted(s.ids[x].stage) && cfg.Pool(x) == p
  }

  predicate PcAt(cfg: Config, s: State, n: Name, pc: NodePc, p: Name) {
    n in s.nodes && s.nodes[n] == pc && cfg.Pool(cfg.Wanted(n)) == p
  }

  lemma IdCounts(cfg: Config, s: State, s': State, x: Name, p: Name)
    requires SameExcept(s.ids, s'.ids, x)
    ensures |InUseOf(cfg, s', p)| - |InUseOf(cfg, s, p)| == B(InUseAt(cfg, s', x, p)) - B(InUseAt(cfg, s, x, p))
    ensures |CountedOf(cfg, s', p)| - |CountedOf(cfg, s, p)| == B(CountedAt(cfg, s', x, p)) - B(CountedAt(cfg, s, x, p))
  {
    SameButOne(InUseOf(cfg, s', p), InUseOf(cfg, s, p), x);
    SameButOne(CountedOf(cfg, s', p), CountedOf(cfg, s, p), x);
  }

  lemma NodeCounts(cfg: Config, s: State, s': State, n: Name, p: Name)
    requires SameExcept(s.nodes, s'.nodes, n)
    ensures |LockingOf(cfg, s', p)| - |LockingOf(cfg, s, p)| == B(PcAt(cfg, s', n, PhaseWritten, p)) - B(PcAt(cfg, s, n, PhaseWritten, p))
    ensures |UnlockingOf(cfg, s', p)| - |UnlockingOf(cfg, s, p)| == B(PcAt(cfg, s', n, UnlockWritten, p)) - B(PcAt(cfg, s, n, UnlockWritten, p))
  {
    SameButOne(LockingOf(cfg, s', p), LockingOf(cfg, s, p), n);
    SameButOne(UnlockingOf(cfg, s', p), UnlockingOf(cfg, s, p), n);
  }

  lemma SameButOne(a: set<Name>, b: set<Name>, x: Name)
    requires forall y :: y != x ==> (y in a <==> y in b)
    ensures |a| - |b| == B(x in a) - B(x in b)
  {
    assert a - {x} == b - {x};
    assert x in a ==> a == (a - {x}) + {x};
    assert x in b ==> b == (b - {x}) + {x};
    assert x !in a ==> a == a - {x};
    assert x !in b ==> b == b - {x};
  }

  /** The change of a pool's counters matches the change at one identity and one node. */
  predicate Balanced(cfg: Config, s: State, s': State, x: Name, n: Name, p: Name) {
    p in s.mem && p in s'.mem ==>
      var m, m' := s.mem[p], s'.mem[p];
      && m'.status.locked - m.status.locked
         == B(PcAt(cfg, s, n, PhaseWritten, p)) - B(PcAt(cfg, s', n, PhaseWritten, p))
            + B(InUseAt(cfg, s', x, p)) - B(InUseAt(cfg, s, x, p))
            + B(PcAt(cfg, s', n, UnlockWritten, p)) - B(PcAt(cfg, s, n, UnlockWritten, p))
            + m'.lockDrift - m.lockDrift
      && m'.status.size - m.status.size
         == B(CountedAt(cfg, s', x, p)) - B(CountedAt(cfg, s, x, p)) + m'.sizeDrift - m.sizeDrift
  }

  /* A step changes one identity, one node and the pool of the identity. */

  predicate SameExcept<V(==)>(m: map<Name, V>, m': map<Name, V>, k: Name) {
    && (forall y :: y in m && y != k ==> y in m' && m'[y] == m[y])
    && (forall y :: y in m' && y != k ==> y in m)
  }

  /** At most the entry at `k` has been written or removed. */
  predicate Touches<V(==)>(m: map<Name, V>, m': map<Name, V>, k: Name) {
    || m' == m
    || (k in m' && m' == m[k := m'[k]])
    || m' == m - {k}
  }

  ghost predicate LocalChange(cfg: Config, s: State, s': State, x: Name, n: Name) {
    var q := cfg.Pool(x);
    && SameExcept(s.ids, s'.ids, x)
    && SameExcept(s.nodes, s'.nodes, n)
    && (s'.nodes == s.nodes || cfg.Wanted(n) == x)
    && (q in s.mem <==> q in s'.mem) && SameExcept(s.mem, s'.mem, q)
    && SameExcept(s.api, s'.api, q)
    && (forall p :: p != q ==> (p in s'.stale <==> p in s.stale))
  }

  /** The same, in the form in which the steps write it. */
  predicate LocalWrite(cfg: Config, s: State, s': State, x: Name, n: Name) {
    var q := cfg.Pool(x);
    && Touches(s.ids, s'.ids, x)
    && Touches(s.nodes, s'.nodes, n)
    && (s'.nodes == s.nodes || cfg.Wanted(n) == x)
    && (s'.mem == s.mem || (q in s.mem && q in s'.mem && s'.mem == s.mem[q := s'.mem[q]]))
    && Touches(s.api, s'.api, q)
    && (s'.stale == s.stale || s'.stale == s.stale - {q})
  }

  predicate IdAt(cfg: Config, s: State, x: Name) {
    x in s.ids ==>
      && (s.ids[x].phase == InUse ==>
            && s.ids[x].holder.Some? && cfg.Proper(s.ids[x].holder.value) && cfg.Wanted(s.ids[x].holder.value) == x
            && cfg.Pool(x) in s.mem)
      && (s.ids[x].holder.Some? ==> s.ids[x].phase == InUse)
      && (IsCounted(s.ids[x].stage) ==> cfg.Pool(x) in s.mem)
  }

  predicate NodeAt(cfg: Config, s: State, n: Name) {
    && (s.mutex == Some(n) <==> n in s.nodes && InSection(s.nodes[n]))
    && (n in s.nodes ==>
          && n in cfg.want
          && (s.nodes[n] != Idle ==> cfg.Proper(n) && cfg.Pool(cfg.Wanted(n)) in s.mem)
          && (s.nodes[n] == Granted ==> !IsInUse(s, cfg.Wanted(n))))
  }

  predicate PublishedAt(s: State, p: Name) {
    if p in s.mem then
      && p in s.api
      && (p !in s.stale ==> s.api[p] == s.mem[p].status)
    else
      p in s.api && p !in s.stale ==> s.api[p] == PoolStatus(Ready, 0, 0)
  }

  ghost predicate Inv(cfg: Config, s: State) {
    && (forall n :: NodeAt(cfg, s, n))
    && (forall x :: IdAt(cfg, s, x))
    && (forall p :: PublishedAt(s, p))
    && Counters(cfg, s)
  }

  lemma LocalKeepsCounters(cfg: Config, s: State, s': State, x: Name, n: Name)
    requires Counters(cfg, s) && LocalChange(cfg, s, s', x, n) && Balanced(cfg, s, s', x, n, cfg.Pool(x))
    ensures Counters(cfg, s')
  {
    forall p | p in s'.mem
      ensures s'.mem[p].status.locked + |LockingOf(cfg, s', p)| == |InUseOf(cfg, s', p)| + |UnlockingOf(cfg, s', p)| + s'.mem[p].lockDrift
      ensures s'.mem[p].status.size == |CountedOf(cfg, s', p)| + s'.mem[p].sizeDrift
    {
      IdCounts(cfg, s, s', x, p);
      NodeCounts(cfg, s, s', n, p);
    }
  }

  lemma LocalKeepsIds(cfg: Config, s: State, s': State, x: Name, n: Name)
    requires LocalChange(cfg, s, s', x, n) && (forall y :: IdAt(cfg, s, y)) && IdAt(cfg, s', x)
    ensures forall y :: IdAt(cfg, s', y)
  {
    forall y ensures IdAt(cfg, s', y) {
      assert IdAt(cfg, s, y);
    }
  }

  lemma LocalPublishes(cfg: Config, s: State, s': State, x: Name, n: Name)
    requires LocalChange(cfg, s, s', x, n) && (forall p :: PublishedAt(s, p)) && PublishedAt(s', cfg.Pool(x))
    ensures forall p :: PublishedAt(s', p)
  {
    forall p ensures PublishedAt(s', p) {
      assert PublishedAt(s, p);
    }
  }

  lemma LocalKeepsNodes(cfg: Config, s: State, s': State, x: Name, n: Name)
    requires LocalChange(cfg, s, s', x, n) && (forall m :: NodeAt(cfg, s, m)) && NodeAt(cfg, s', n)
    requires s'.mutex == s.mutex || ((s.mutex == None || s.mutex == Some(n)) && (s'.mutex == None || s'.mutex == Some(n)))
    requires IsInUse(s', x) ==> IsInUse(s, x) || s.mutex == Some(n)
    ensures forall m :: NodeAt(cfg, s', m)
  {
    forall m ensures NodeAt(cfg, s', m) {
      assert NodeAt(cfg, s, m);
    }
  }

  lemma LocalIsChange(cfg: Config, s: State, s': State, x: Name, n: Name)
    requires LocalWrite(cfg, s, s', x, n)
    ensures LocalChange(cfg, s, s', x, n)
  {
  }

  lemma LocalKeeps(cfg: Config, s: State, s': State, x: Name, n: Name)
    requires Inv(cfg, s) && LocalWrite(cfg, s, s', x, n) && Balanced(cfg, s, s', x, n, cfg.Pool(x))
    requires IdAt(cfg, s', x) && NodeAt(cfg, s', n) && PublishedAt(s', cfg.Pool(x))
    requires s'.mutex == s.mutex || ((s.mutex == None || s.mutex == Some(n)) && (s'.mutex == None || s'.mutex == Some(n)))
    requires IsInUse(s', x) ==> IsInUse(s, x) || s.mutex == Some(n)
    ensures Inv(cfg, s')
  {
    LocalIsChange(cfg, s, s', x, n);
    LocalKeepsCounters(cfg, s, s', x, n);
    LocalKeepsIds(cfg, s, s', x, n);
    LocalPublishes(cfg, s, s', x, n);
    LocalKeepsNodes(cfg, s, s', x, n);
  }

  /* Every step keeps the invariant. */

  ghost predicate HarmlessWrite(cfg: Config, s: State, x: Name, v: Option<Identity>) {
    && (v.Some? ==>
          && (v.value.phase == InUse ==> IsInUse(s, x) && v.value.holder == s.ids[x].holder)
          && (v.value.holder.Some? ==> v.value.phase == InUse))
    && ((v.Some? && IsCounted(v.value.stage)) <==> (x in s.ids && IsCounted(s.ids[x].stage)))
  }

  lemma HarmlessIsLocal(cfg: Config, s: State, x: Name, v: Option<Identity>, raced: bool)
    ensures LocalWrite(cfg, s, PutIdentity(cfg, s, x, v).(raced := raced), x, x)
  {
  }

  lemma HarmlessIsBalanced(cfg: Config, s: State, x: Name, v: Option<Identity>, raced: bool)
    requires IdAt(cfg, s, x) && HarmlessWrite(cfg, s, x, v)
    ensures
      var s' := PutIdentity(cfg, s, x, v).(raced := raced);
      Balanced(cfg, s, s', x, x, cfg.Pool(x)) && IdAt(cfg, s', x) && (IsInUse(s', x) ==> IsInUse(s, x))
  {
  }

  lemma HarmlessPublishes(cfg: Config, s: State, x: Name, v: Option<Identity>, raced: bool)
    requires NodeAt(cfg, s, x) && PublishedAt(s, cfg.Pool(x)) && IdAt(cfg, s, x) && HarmlessWrite(cfg, s, x, v)
    ensures
      var s' := PutIdentity(cfg, s, x, v).(raced := raced);
      NodeAt(cfg, s', x) && PublishedAt(s', cfg.Pool(x)) && s'.mutex == s.mutex
  {
  }

  lemma HarmlessWriteKeeps(cfg: Config, s: State, x: Name, v: Option<Identity>, raced: bool)
    requires Inv(cfg, s) && HarmlessWrite(cfg, s, x, v)
    ensures Inv(cfg, PutIdentity(cfg, s, x, v).(raced := raced))
  {
    assert IdAt(cfg, s, x) && NodeAt(cfg, s, x) && PublishedAt(s, cfg.Pool(x));
    HarmlessIsLocal(cfg, s, x, v, raced);
    HarmlessIsBalanced(cfg, s, x, v, raced);
    HarmlessPublishes(cfg, s, x, v, raced);
    LocalKeeps(cfg, s, PutIdentity(cfg, s, x, v).(raced := raced), x, x);
  }

  /** A write outside the lock that leaves the count of the pool's identities alone. */
  lemma WriteKeeps(cfg: Config, s: State, s': State, x: Name)
    requires Inv(cfg, s)
    requires s' == s || exists v, raced :: HarmlessWrite(cfg, s, x, v) && s' == PutIdentity(cfg, s, x, v).(raced := raced)
    ensures Inv(cfg, s')
  {
    if s' != s {
      var v, raced :| HarmlessWrite(cfg, s, x, v) && s' == PutIdentity(cfg, s, x, v).(raced := raced);
      HarmlessWriteKeeps(cfg, s, x, v, raced);
    }
  }

  lemma NewIdentityKeeps(cfg: Config, s: State, x: Name)
    requires Inv(cfg, s)
    ensures Inv(cfg, NewIdentity(cfg, s, x))
  {
    assert IdAt(cfg, s, x);
    WriteKeeps(cfg, s, NewIdentity(cfg, s, x), x);
  }

  lemma DropNewIdentityKeeps(cfg: Config, s: State, x: Name)
    requires Inv(cfg, s)
    ensures Inv(cfg, DropNewIdentity(cfg, s, x))
  {
    assert IdAt(cfg, s, x);
    WriteKeeps(cfg, s, DropNewIdentity(cfg, s, x), x);
  }

  lemma InitIdentityKeeps(cfg: Config, s: State, x: Name)
    requires Inv(cfg, s)
    ensures Inv(cfg, InitIdentity(cfg, s, x))
  {
    assert IdAt(cfg, s, x);
    WriteKeeps(cfg, s, InitIdentity(cfg, s, x), x);
  }

  lemma ReadyIdentityKeeps(cfg: Config, s: State, x: Name)
    requires Inv(cfg, s)
    ensures Inv(cfg, ReadyIdentity(cfg, s, x))
  {
    assert IdAt(cfg, s, x);
    WriteKeeps(cfg, s, ReadyIdentity(cfg, s, x), x);
  }

  lemma ModifyIdentityKeeps(cfg: Config, s: State, x: Name, phase: IdPhase)
    requires Inv(cfg, s)
    ensures Inv(cfg, ModifyIdentity(cfg, s, x, phase))
  {
    assert IdAt(cfg, s, x);
    WriteKeeps(cfg, s, ModifyIdentity(cfg, s, x, phase), x);
  }

  lemma RemoveIdentityKeeps(cfg: Config, s: State, x: Name, seen: IdPhase)
    requires Inv(cfg, s)
    ensures Inv(cfg, RemoveIdentity(cfg, s, x, seen))
  {
    assert IdAt(cfg, s, x);
    WriteKeeps(cfg, s, RemoveIdentity(cfg, s, x, seen), x);
  }

  lemma FinishIdentityKeeps(cfg: Config, s: State, x: Name)
    requires Inv(cfg, s)
    ensures Inv(cfg, FinishIdentity(cfg, s, x))
  {
    assert IdAt(cfg, s, x);
    WriteKeeps(cfg, s, FinishIdentity(cfg, s, x), x);
  }

  lemma CountIsBalanced(cfg: Config, s: State, x: Name)
    requires IdAt(cfg, s, x) && PublishedAt(s, cfg.Pool(x))
    ensures
      var s' := CountIdentity(cfg, s, x);
      Balanced(cfg, s, s', x, x, cfg.Pool(x)) && IdAt(cfg, s', x) && PublishedAt(s', cfg.Pool(x))
  {
  }

  lemma CountIdentityKeeps(cfg: Config, s: State, x: Name)
    requires Inv(cfg, s)
    ensures Inv(cfg, CountIdentity(cfg, s, x))
  {
    assert IdAt(cfg, s, x) && NodeAt(cfg, s, x) && PublishedAt(s, cfg.Pool(x));
    CountIsBalanced(cfg, s, x);
    LocalKeeps(cfg, s, CountIdentity(cfg, s, x), x, x);
  }

  lemma UncountIsBalanced(cfg: Config, s: State, x: Name)
    requires IdAt(cfg, s, x) && PublishedAt(s, cfg.Pool(x))
    ensures
      var s' := UncountIdentity(cfg, s, x);
      Balanced(cfg, s, s', x, x, cfg.Pool(x)) && IdAt(cfg, s', x) && PublishedAt(s', cfg.Pool(x))
  {
  }

  lemma UncountIdentityKeeps(cfg: Config, s: State, x: Name)
    requires Inv(cfg, s)
    ensures Inv(cfg, UncountIdentity(cfg, s, x))
  {
    assert IdAt(cfg, s, x) && NodeAt(cfg, s, x) && PublishedAt(s, cfg.Pool(x));
    UncountIsBalanced(cfg, s, x);
    LocalKeeps(cfg, s, UncountIdentity(cfg, s, x), x, x);
  }

  lemma NewNodeKeeps(cfg: Config, s: State, n: Name)
    requires Inv(cfg, s)
    ensures Inv(cfg, NewNode(cfg, s, n))
  {
    var x := cfg.Wanted(n);
    assert IdAt(cfg, s, x) && NodeAt(cfg, s, n) && PublishedAt(s, cfg.Pool(x));
    LocalKeeps(cfg, s, NewNode(cfg, s, n), x, n);
  }

  lemma DropNodeKeeps(cfg: Config, s: State, n: Name)
    requires Inv(cfg, s)
    ensures Inv(cfg, DropNode(s, n))
  {
    var x := cfg.Wanted(n);
    assert IdAt(cfg, s, x) && NodeAt(cfg, s, n) && PublishedAt(s, cfg.Pool(x));
    LocalKeeps(cfg, s, DropNode(s, n), x, n);
  }

  /** Reading for the lock writes nothing but the node's place and the lock. */
  lemma ReadIsLocal(cfg: Config, s: State, n: Name)
    requires NodeAt(cfg, s, n)
    ensures
      var x, s' := cfg.Wanted(n), ReadForLock(cfg, s, n);
      && s' == s.(nodes := s'.nodes, mutex := s'.mutex)
      && LocalWrite(cfg, s, s', x, n) && Balanced(cfg, s, s', x, n, cfg.Pool(x)) && NodeAt(cfg, s', n)
  {
  }

  lemma ReadForLockKeeps(cfg: Config, s: State, n: Name)
    requires Inv(cfg, s)
    ensures Inv(cfg, ReadForLock(cfg, s, n))
  {
    var x := cfg.Wanted(n);
    assert IdAt(cfg, s, x) && NodeAt(cfg, s, n) && PublishedAt(s, cfg.Pool(x));
    if ReadForLock(cfg, s, n) != s {
      ReadIsLocal(cfg, s, n);
      LocalKeeps(cfg, s, ReadForLock(cfg, s, n), x, n);
    }
  }

  lemma WriteLockPhaseKeeps(cfg: Config, s: State, n: Name)
    requires Inv(cfg, s)
    ensures Inv(cfg, WriteLockPhase(cfg, s, n))
  {
    var x := cfg.Wanted(n);
    assert IdAt(cfg, s, x) && NodeAt(cfg, s, n) && PublishedAt(s, cfg.Pool(x));
    LocalKeeps(cfg, s, WriteLockPhase(cfg, s, n), x, n);
  }

  lemma {:induction false} CountLockKeeps(cfg: Config, s: State, n: Name)
    requires Inv(cfg, s)
    ensures Inv(cfg, CountLock(cfg, s, n))
  {
    var x := cfg.Wanted(n);
    assert IdAt(cfg, s, x) && NodeAt(cfg, s, n) && PublishedAt(s, cfg.Pool(x));
    LocalKeeps(cfg, s, CountLock(cfg, s, n), x, n);
  }

  lemma FinalizeKeeps(cfg: Config, s: State, n: Name)
    requires Inv(cfg, s)
    ensures Inv(cfg, Finalize(s, n))
  {
    var x := cfg.Wanted(n);
    assert IdAt(cfg, s, x) && NodeAt(cfg, s, n) && PublishedAt(s, cfg.Pool(x));
    LocalKeeps(cfg, s, Finalize(s, n), x, n);
  }

  lemma BeginReleaseKeeps(cfg: Config, s: State, n: Name)
    requires Inv(cfg, s)
    ensures Inv(cfg, BeginRelease(s, n))
  {
    var x := cfg.Wanted(n);
    assert IdAt(cfg, s, x) && NodeAt(cfg, s, n) && PublishedAt(s, cfg.Pool(x));
    LocalKeeps(cfg, s, BeginRelease(s, n), x, n);
  }

  lemma ReadForUnlockKeeps(cfg: Config, s: State, n: Name)
    requires Inv(cfg, s)
    ensures Inv(cfg, ReadForUnlock(cfg, s, n))
  {
    var x := cfg.Wanted(n);
    assert IdAt(cfg, s, x) && NodeAt(cfg, s, n) && PublishedAt(s, cfg.Pool(x));
    LocalKeeps(cfg, s, ReadForUnlock(cfg, s, n), x, n);
  }

  lemma UnlockPhaseIsLocal(cfg: Config, s: State, n: Name)
    ensures LocalWrite(cfg, s, WriteUnlockPhase(cfg, s, n), cfg.Wanted(n), n)
  {
  }

  lemma UnlockPhaseIsBalanced(cfg: Config, s: State, n: Name)
    requires IdAt(cfg, s, cfg.Wanted(n)) && NodeAt(cfg, s, n)
    ensures
      var x, s' := cfg.Wanted(n), WriteUnlockPhase(cfg, s, n);
      Balanced(cfg, s, s', x, n, cfg.Pool(x)) && IdAt(cfg, s', x) && (IsInUse(s', x) ==> IsInUse(s, x))
  {
  }

  lemma WriteUnlockPhaseKeeps(cfg: Config, s: State, n: Name)
    requires Inv(cfg, s)
    ensures Inv(cfg, WriteUnlockPhase(cfg, s, n))
  {
    var x := cfg.Wanted(n);
    assert IdAt(cfg, s, x) && NodeAt(cfg, s, n) && PublishedAt(s, cfg.Pool(x));
    UnlockPhaseIsLocal(cfg, s, n);
    UnlockPhaseIsBalanced(cfg, s, n);
    LocalKeeps(cfg, s, WriteUnlockPhase(cfg, s, n), x, n);
  }

  lemma CountUnlockKeeps(cfg: Config, s: State, n: Name)
    requires Inv(cfg, s)
    ensures Inv(cfg, CountUnlock(cfg, s, n))
  {
    var x := cfg.Wanted(n);
    assert IdAt(cfg, s, x) && NodeAt(cfg, s, n) && PublishedAt(s, cfg.Pool(x));
    LocalKeeps(cfg, s, CountUnlock(cfg, s, n), x, n);
  }

  /** A pool that is not in memory has no identity in use or counted, and no node between two writes. */
  lemma UnregisteredIsEmpty(cfg: Config, s: State, p: Name)
    requires Inv(cfg, s) && p !in s.mem
    ensures InUseOf(cfg, s, p) == {} && CountedOf(cfg, s, p) == {}
    ensures LockingOf(cfg, s, p) == {} && UnlockingOf(cfg, s, p) == {}
  {
    forall x ensures x !in InUseOf(cfg, s, p) && x !in CountedOf(cfg, s, p) {
      assert IdAt(cfg, s, x);
    }
    forall n ensures n !in LockingOf(cfg, s, p) && n !in UnlockingOf(cfg, s, p) {
      assert NodeAt(cfg, s, n);
    }
  }

  lemma SameCounts(cfg: Config, s: State, s': State, p: Name)
    requires s'.ids == s.ids && s'.nodes == s.nodes
    ensures LockingOf(cfg, s', p) == LockingOf(cfg, s, p) && UnlockingOf(cfg, s', p) == UnlockingOf(cfg, s, p)
    ensures InUseOf(cfg, s', p) == InUseOf(cfg, s, p) && CountedOf(cfg, s', p) == CountedOf(cfg, s, p)
  {
  }

  lemma PoolKeeps(cfg: Config, s: State, s': State, p: Name)
    requires Inv(cfg, s) && s'.ids == s.ids && s'.nodes == s.nodes && s'.mutex == s.mutex
    requires SameExcept(s.mem, s'.mem, p) && SameExcept(s.api, s'.api, p) && (forall q :: q != p ==> (q in s'.stale <==> q in s.stale))
    requires p in s.mem ==> p in s'.mem && s'.mem[p] == s.mem[p]
    requires p !in s.mem && p in s'.mem ==> s'.mem[p] == Cached(PoolStatus(Ready, 0, 0), 0, 0)
    requires PublishedAt(s', p)
    ensures Inv(cfg, s')
  {
    forall n ensures NodeAt(cfg, s', n) {
      assert NodeAt(cfg, s, n);
    }
    forall x ensures IdAt(cfg, s', x) {
      assert IdAt(cfg, s, x);
    }
    forall q ensures PublishedAt(s', q) {
      assert PublishedAt(s, q);
    }
    forall q | q in s'.mem
      ensures s'.mem[q].status.locked + |LockingOf(cfg, s', q)| == |InUseOf(cfg, s', q)| + |UnlockingOf(cfg, s', q)| + s'.mem[q].lockDrift
      ensures s'.mem[q].status.size == |CountedOf(cfg, s', q)| + s'.mem[q].sizeDrift
    {
      SameCounts(cfg, s, s', q);
      if q !in s.mem {
        UnregisteredIsEmpty(cfg, s, q);
      }
    }
  }

  lemma PoolStepsKeep(cfg: Config, s: State, p: Name, status: PoolStatus)
    requires Inv(cfg, s)
    ensures Inv(cfg, CreatePool(s, p)) && Inv(cfg, TouchPool(s, p, status))
  {
    assert PublishedAt(s, p);
    PoolKeeps(cfg, s, CreatePool(s, p), p);
    PoolKeeps(cfg, s, TouchPool(s, p, status), p);
  }

  lemma RegisterPoolKeeps(cfg: Config, s: State, p: Name)
    requires Inv(cfg, s)
    ensures Inv(cfg, RegisterPool(s, p))
  {
    assert PublishedAt(s, p);
    PoolKeeps(cfg, s, RegisterPool(s, p), p);
  }

  lemma PoolStepKeeps(cfg: Config, s: State, a: Action)
    requires Inv(cfg, s) && (a.PoolCreate? || a.PoolRegister? || a.PoolTouch?)
    ensures Inv(cfg, Step(cfg, s, a))
  {
    match a
    case PoolCreate(p) => PoolStepsKeep(cfg, s, p, NEW_POOL);
    case PoolRegister(p) => RegisterPoolKeeps(cfg, s, p);
    case PoolTouch(p, status) => PoolStepsKeep(cfg, s, p, status);
  }

  /** The steps of an identity's creation, and those after it. */
  predicate IsCreationStep(a: Action) {
    a.IdentityNew? || a.IdentityGone? || a.IdentityInit? || a.IdentityCount? || a.IdentityReady?
  }

  predicate IsRemovalStep(a: Action) {
    a.IdentityModify? || a.IdentityRemove? || a.IdentityUncount? || a.IdentityFinish?
  }

  predicate IsIdentityStep(a: Action) {
    IsCreationStep(a) || IsRemovalStep(a)
  }

  lemma IdentityStepKeeps(cfg: Config, s: State, a: Action)
    requires Inv(cfg, s) && IsIdentityStep(a)
    ensures Inv(cfg, Step(cfg, s, a))
  {
    match a
    case IdentityNew(x) => NewIdentityKeeps(cfg, s, x);
    case IdentityGone(x) => DropNewIdentityKeeps(cfg, s, x);
    case IdentityInit(x) => InitIdentityKeeps(cfg, s, x);
    case IdentityCount(x) => CountIdentityKeeps(cfg, s, x);
    case IdentityReady(x) => ReadyIdentityKeeps(cfg, s, x);
    case IdentityModify(x, phase) => ModifyIdentityKeeps(cfg, s, x, phase);
    case IdentityRemove(x, seen) => RemoveIdentityKeeps(cfg, s, x, seen);
    case IdentityUncount(x) => UncountIdentityKeeps(cfg, s, x);
    case IdentityFinish(x) => FinishIdentityKeeps(cfg, s, x);
  }

  /** The steps of a node up to its finalizer, and those after it. */
  predicate IsLockStep(a: Action) {
    a.NodeNew? || a.LockRead? || a.LockPhase? || a.LockCount? || a.AddFinalizer?
  }

  predicate IsReleaseStep(a: Action) {
    a.NodeGone? || a.StartRelease? || a.ReadIdentity? || a.UnlockPhase? || a.UnlockCount?
  }

  predicate IsNodeStep(a: Action) {
    IsLockStep(a) || IsReleaseStep(a)
  }

  lemma LockStepKeeps(cfg: Config, s: State, a: Action)
    requires Inv(cfg, s) && IsLockStep(a)
    ensures Inv(cfg, Step(cfg, s, a))
  {
    match a
    case NodeNew(n) => NewNodeKeeps(cfg, s, n);
    case LockRead(n) => ReadForLockKeeps(cfg, s, n);
    case LockPhase(n) => WriteLockPhaseKeeps(cfg, s, n);
    case LockCount(n) => CountLockKeeps(cfg, s, n);
    case AddFinalizer(n) => FinalizeKeeps(cfg, s, n);
  }

  lemma ReleaseStepKeeps(cfg: Config, s: State, a: Action)
    requires Inv(cfg, s) && IsReleaseStep(a)
    ensures Inv(cfg, Step(cfg, s, a))
  {
    match a
    case NodeGone(n) => DropNodeKeeps(cfg, s, n);
    case StartRelease(n) => BeginReleaseKeeps(cfg, s, n);
    case ReadIdentity(n) => ReadForUnlockKeeps(cfg, s, n);
    case UnlockPhase(n) => WriteUnlockPhaseKeeps(cfg, s, n);
    case UnlockCount(n) => CountUnlockKeeps(cfg, s, n);
  }

  /** Every step keeps the invariant, in every interleaving and whatever races occur. */
  lemma StepKeeps(cfg: Config, s: State, a: Action)
    requires Inv(cfg, s)
    ensures Inv(cfg, Step(cfg, s, a))
  {
    if IsIdentityStep(a) {
      IdentityStepKeeps(cfg, s, a);
    } else if IsLockStep(a) {
      LockStepKeeps(cfg, s, a);
    } else if IsReleaseStep(a) {
      ReleaseStepKeeps(cfg, s, a);
    } else {
      PoolStepKeeps(cfg, s, a);
    }
  }

  lemma {:induction false} RunKeeps(cfg: Config, s: State, actions: seq<Action>)
    requires Inv(cfg, s)
    ensures Inv(cfg, Run(cfg, s, actions))
    decreases |actions|
  {
    if actions != [] {
      StepKeeps(cfg, s, actions[0]);
      RunKeeps(cfg, Step(cfg, s, actions[0]), actions[1..]);
    }
  }

  /* Runs without races, under the naming discipline. */

  /** The node has been given its identity and has not started to give it back. */
  predicate Holds(pc: NodePc) {
    pc == PhaseWritten || pc == Obtained || pc == Running || pc == Releasing || pc == UnlockRead
  }

  /** If the node named x asks for the identity named x, no other node asks for it. */
  ghost predicate Disciplined(cfg: Config) {
    forall x, n :: cfg.Proper(x) && cfg.Wanted(x) == x && cfg.Proper(n) && cfg.Wanted(n) == x ==> n == x
  }

  predicate HoldAt(cfg: Config, s: State, n: Name) {
    n in s.nodes && Holds(s.nodes[n]) ==>
      IsInUse(s, cfg.Wanted(n)) && s.ids[cfg.Wanted(n)].holder == Some(n)
  }

  predicate LiveAt(s: State, x: Name) {
    IsInUse(s, x) ==> s.ids[x].stage == Live
  }

  ghost predicate NoDrift(s: State) {
    forall p :: p in s.mem ==> s.mem[p].lockDrift == 0 && s.mem[p].sizeDrift == 0
  }

  /** Nodes that hold an identity are its recorded holders, and only live identities are InUse. */
  ghost predicate Held(cfg: Config, s: State) {
    (forall n :: HoldAt(cfg, s, n)) && (forall x :: LiveAt(s, x))
  }

  ghost predicate Clean(cfg: Config, s: State) {
    Held(cfg, s) && NoDrift(s)
  }

  /** Pools stay in memory with their drifts, and new pools have none. */
  ghost predicate Steady(s: State, s': State) {
    && (forall p :: p in s.mem ==> p in s'.mem && SameDrift(s.mem[p], s'.mem[p]))
    && (forall p :: p in s'.mem && p !in s.mem ==> SameDrift(s'.mem[p], Cached(s'.mem[p].status, 0, 0)))
  }

  predicate SameDrift(a: Cached, b: Cached) {
    a.lockDrift == b.lockDrift && a.sizeDrift == b.sizeDrift
  }

  /* The phase of a pool. */

  /** The phase of a pool in memory compares its counters. */
  predicate ComparedAt(s: State, p: Name) {
    p in s.mem ==> s.mem[p].status.phase == BalancePhase(s.mem[p].status.size, s.mem[p].status.locked)
  }

  predicate IsCountStep(a: Action) {
    a.IdentityCount? || a.IdentityUncount?
  }

  lemma CountStepKeepsCompared(cfg: Config, s: State, a: Action, p: Name)
    requires ComparedAt(s, p) && IsCountStep(a)
    ensures ComparedAt(Step(cfg, s, a), p)
  {
    if a.IdentityCount? {
      CountKeepsCompared(cfg, s, a.x, p);
    } else {
      UncountKeepsCompared(cfg, s, a.x, p);
    }
  }

  lemma CountKeepsCompared(cfg: Config, s: State, x: Name, p: Name)
    requires ComparedAt(s, p)
    ensures ComparedAt(CountIdentity(cfg, s, x), p)
  {
  }

  lemma UncountKeepsCompared(cfg: Config, s: State, x: Name, p: Name)
    requires ComparedAt(s, p)
    ensures ComparedAt(UncountIdentity(cfg, s, x), p)
  {
  }

  lemma PutKeepsCompared(cfg: Config, s: State, x: Name, v: Option<Identity>, raced: bool, p: Name)
    requires ComparedAt(s, p)
    ensures ComparedAt(PutIdentity(cfg, s, x, v).(raced := raced), p)
  {
  }

  /** Every other step of an identity is a write of it. */
  lemma OtherStepIsPut(cfg: Config, s: State, a: Action) returns (v: Option<Identity>, raced: bool)
    requires IsIdentityStep(a) && !IsCountStep(a) && Step(cfg, s, a) != s
    ensures Step(cfg, s, a) == PutIdentity(cfg, s, a.x, v).(raced := raced)
  {
    var next := Step(cfg, s, a);
    v, raced := if a.x in next.ids then Some(next.ids[a.x]) else None, next.raced;
  }

  lemma IdentityStepKeepsCompared(cfg: Config, s: State, a: Action, p: Name)
    requires ComparedAt(s, p) && IsIdentityStep(a)
    ensures ComparedAt(Step(cfg, s, a), p)
  {
    if IsCountStep(a) {
      CountStepKeepsCompared(cfg, s, a, p);
    } else if Step(cfg, s, a) != s {
      var v, raced := OtherStepIsPut(cfg, s, a);
      PutKeepsCompared(cfg, s, a.x, v, raced, p);
    }
  }

  lemma LockStepKeepsCompared(cfg: Config, s: State, a: Action, p: Name)
    requires ComparedAt(s, p) && IsLockStep(a)
    ensures ComparedAt(Step(cfg, s, a), p)
  {
  }

  lemma ReleaseStepKeepsCompared(cfg: Config, s: State, a: Action, p: Name)
    requires ComparedAt(s, p) && IsReleaseStep(a)
    ensures ComparedAt(Step(cfg, s, a), p)
  {
  }

  lemma NodeStepKeepsCompared(cfg: Config, s: State, a: Action, p: Name)
    requires ComparedAt(s, p) && IsNodeStep(a)
    ensures ComparedAt(Step(cfg, s, a), p)
  {
    if IsLockStep(a) {
      LockStepKeepsCompared(cfg, s, a, p);
    } else {
      ReleaseStepKeepsCompared(cfg, s, a, p);
    }
  }

  lemma {:induction false} RunKeepsCompared(cfg: Config, s: State, actions: seq<Action>, p: Name)
    requires ComparedAt(s, p)
    ensures ComparedAt(Run(cfg, s, actions), p)
    decreases |actions|
  {
    if actions != [] {
      if IsIdentityStep(actions[0]) {
        IdentityStepKeepsCompared(cfg, s, actions[0], p);
      } else if IsNodeStep(actions[0]) {
        NodeStepKeepsCompared(cfg, s, actions[0], p);
      }
      RunKeepsCompared(cfg, Step(cfg, s, actions[0]), actions[1..], p);
    }
  }

  /** A write to an identity that keeps its InUse phase and holder, if it has them. */
  lemma IdentityKeepsHeld(cfg: Config, s: State, s': State, x: Name)
    requires Held(cfg, s) && s'.nodes == s.nodes && SameExcept(s.ids, s'.ids, x)
    requires IsInUse(s', x) <==> IsInUse(s, x)
    requires IsInUse(s, x) ==> s'.ids[x].holder == s.ids[x].holder && s'.ids[x].stage == Live
    ensures Held(cfg, s')
  {
    forall n ensures HoldAt(cfg, s', n) {
      assert HoldAt(cfg, s, n);
    }
    forall y ensures LiveAt(s', y) {
      assert LiveAt(s, y);
    }
  }

  lemma IdentityStepKeepsHeld(cfg: Config, s: State, a: Action, x: Name)
    requires Held(cfg, s)
    requires a == IdentityNew(x) || a == IdentityGone(x) || a == IdentityInit(x) || a == IdentityReady(x) || a == IdentityFinish(x)
    ensures Held(cfg, Step(cfg, s, a))
  {
    assert LiveAt(s, x);
    IdentityKeepsHeld(cfg, s, Step(cfg, s, a), x);
  }

  lemma RacingStepKeepsHeld(cfg: Config, s: State, a: Action, x: Name)
    requires Held(cfg, s) && !Step(cfg, s, a).raced
    requires (a.IdentityModify? && a.x == x) || (a.IdentityRemove? && a.x == x)
    ensures Held(cfg, Step(cfg, s, a))
  {
    assert LiveAt(s, x);
    IdentityKeepsHeld(cfg, s, Step(cfg, s, a), x);
  }

  lemma CountStepKeepsHeld(cfg: Config, s: State, x: Name)
    requires Held(cfg, s)
    ensures Held(cfg, CountIdentity(cfg, s, x))
  {
    assert LiveAt(s, x);
    IdentityKeepsHeld(cfg, s, CountIdentity(cfg, s, x), x);
  }

  lemma UncountStepKeepsHeld(cfg: Config, s: State, x: Name)
    requires Held(cfg, s) && !UncountIdentity(cfg, s, x).raced
    ensures Held(cfg, UncountIdentity(cfg, s, x))
  {
    assert LiveAt(s, x);
    IdentityKeepsHeld(cfg, s, UncountIdentity(cfg, s, x), x);
  }

  /** A node step that leaves the identities alone. */
  lemma NodeKeepsHeld(cfg: Config, s: State, s': State, n: Name)
    requires Held(cfg, s) && s'.ids == s.ids && SameExcept(s.nodes, s'.nodes, n)
    requires HoldAt(cfg, s', n)
    ensures Held(cfg, s')
  {
    forall m ensures HoldAt(cfg, s', m) {
      assert HoldAt(cfg, s, m);
    }
    forall y ensures LiveAt(s', y) {
      assert LiveAt(s, y);
    }
  }

  lemma PlainNodeStepKeepsHeld(cfg: Config, s: State, a: Action, n: Name)
    requires Held(cfg, s)
    requires a == NodeNew(n) || a == NodeGone(n) || a == AddFinalizer(n) || a == StartRelease(n) || a == ReadIdentity(n)
    ensures Held(cfg, Step(cfg, s, a))
  {
    assert HoldAt(cfg, s, n);
    NodeKeepsHeld(cfg, s, Step(cfg, s, a), n);
  }

  lemma LockCountKeepsHeld(cfg: Config, s: State, n: Name)
    requires Held(cfg, s)
    ensures Held(cfg, CountLock(cfg, s, n)) && Held(cfg, CountUnlock(cfg, s, n))
  {
    assert HoldAt(cfg, s, n);
    NodeKeepsHeld(cfg, s, CountLock(cfg, s, n), n);
    NodeKeepsHeld(cfg, s, CountUnlock(cfg, s, n), n);
  }

  /** The discipline makes the relock branch return an identity only to its recorded holder. */
  lemma LockReadKeepsHeld(cfg: Config, s: State, n: Name)
    requires Inv(cfg, s) && Held(cfg, s) && Disciplined(cfg)
    ensures Held(cfg, ReadForLock(cfg, s, n))
  {
    assert HoldAt(cfg, s, n) && IdAt(cfg, s, cfg.Wanted(n));
    NodeKeepsHeld(cfg, s, ReadForLock(cfg, s, n), n);
  }

  lemma LockPhaseKeepsHeld(cfg: Config, s: State, n: Name)
    requires Inv(cfg, s) && Held(cfg, s) && !WriteLockPhase(cfg, s, n).raced
    ensures Held(cfg, WriteLockPhase(cfg, s, n))
  {
    var s' := WriteLockPhase(cfg, s, n);
    assert NodeAt(cfg, s, n);
    forall m ensures HoldAt(cfg, s', m) {
      assert HoldAt(cfg, s, m);
      LockPhaseHoldAt(cfg, s, n, m);
    }
    forall y ensures LiveAt(s', y) {
      assert LiveAt(s, y);
    }
  }

  lemma LockPhaseHoldAt(cfg: Config, s: State, n: Name, m: Name)
    requires NodeAt(cfg, s, n) && HoldAt(cfg, s, m)
    ensures HoldAt(cfg, WriteLockPhase(cfg, s, n), m)
  {
  }

  lemma UnlockPhaseKeepsHeld(cfg: Config, s: State, n: Name)
    requires Inv(cfg, s) && Held(cfg, s)
    ensures Held(cfg, WriteUnlockPhase(cfg, s, n))
  {
    var s' := WriteUnlockPhase(cfg, s, n);
    assert HoldAt(cfg, s, n);
    forall m ensures HoldAt(cfg, s', m) {
      assert HoldAt(cfg, s, m);
    }
    forall y ensures LiveAt(s', y) {
      assert LiveAt(s, y);
    }
  }

  lemma PoolStepKeepsHeld(cfg: Config, s: State, a: Action)
    requires Held(cfg, s) && (a.PoolCreate? || a.PoolRegister? || a.PoolTouch?)
    ensures Held(cfg, Step(cfg, s, a))
  {
    var s' := Step(cfg, s, a);
    forall m ensures HoldAt(cfg, s', m) {
      assert HoldAt(cfg, s, m);
    }
    forall y ensures LiveAt(s', y) {
      assert LiveAt(s, y);
    }
  }

  lemma StepKeepsHeld(cfg: Config, s: State, a: Action)
    requires Inv(cfg, s) && Held(cfg, s) && Disciplined(cfg) && !Step(cfg, s, a).raced
    ensures Held(cfg, Step(cfg, s, a))
  {
    match a
    case PoolCreate(_) => PoolStepKeepsHeld(cfg, s, a);
    case PoolRegister(_) => PoolStepKeepsHeld(cfg, s, a);
    case PoolTouch(_, _) => PoolStepKeepsHeld(cfg, s, a);
    case IdentityCount(x) => CountStepKeepsHeld(cfg, s, x);
    case IdentityUncount(x) => UncountStepKeepsHeld(cfg, s, x);
    case IdentityNew(x) => IdentityStepKeepsHeld(cfg, s, a, x);
    case IdentityGone(x) => IdentityStepKeepsHeld(cfg, s, a, x);
    case IdentityInit(x) => IdentityStepKeepsHeld(cfg, s, a, x);
    case IdentityReady(x) => IdentityStepKeepsHeld(cfg, s, a, x);
    case IdentityModify(x, _) => RacingStepKeepsHeld(cfg, s, a, x);
    case IdentityRemove(x, _) => RacingStepKeepsHeld(cfg, s, a, x);
    case IdentityFinish(x) => IdentityStepKeepsHeld(cfg, s, a, x);
    case LockRead(n) => LockReadKeepsHeld(cfg, s, n);
    case LockPhase(n) => LockPhaseKeepsHeld(cfg, s, n);
    case UnlockPhase(n) => UnlockPhaseKeepsHeld(cfg, s, n);
    case NodeNew(n) => PlainNodeStepKeepsHeld(cfg, s, a, n);
    case NodeGone(n) => PlainNodeStepKeepsHeld(cfg, s, a, n);
    case LockCount(n) => LockCountKeepsHeld(cfg, s, n);
    case AddFinalizer(n) => PlainNodeStepKeepsHeld(cfg, s, a, n);
    case StartRelease(n) => PlainNodeStepKeepsHeld(cfg, s, a, n);
    case ReadIdentity(n) => PlainNodeStepKeepsHeld(cfg, s, a, n);
    case UnlockCount(n) => LockCountKeepsHeld(cfg, s, n);
  }

  lemma RacedIdentityStep(cfg: Config, s: State, a: Action)
    requires IsIdentityStep(a) && s.raced
    ensures Step(cfg, s, a).raced
  {
  }

  lemma RacedNodeStep(cfg: Config, s: State, a: Action)
    requires IsNodeStep(a) && s.raced
    ensures Step(cfg, s, a).raced
  {
  }

  lemma RacedStep(cfg: Config, s: State, a: Action)
    ensures s.raced ==> Step(cfg, s, a).raced
  {
    if s.raced {
      if IsIdentityStep(a) {
        RacedIdentityStep(cfg, s, a);
      } else if IsNodeStep(a) {
        RacedNodeStep(cfg, s, a);
      }
    }
  }

  /** Once a race has happened it stays recorded. */
  lemma {:induction false} RacedStays(cfg: Config, s: State, actions: seq<Action>)
    ensures s.raced ==> Run(cfg, s, actions).raced
    decreases |actions|
  {
    if actions != [] {
      RacedStep(cfg, s, actions[0]);
      RacedStays(cfg, Step(cfg, s, actions[0]), actions[1..]);
    }
  }

  /** Without a race a step of an identity, outside the lock, loses no InUse phase. */
  lemma IdentityStepIsSteady(cfg: Config, s: State, a: Action)
    requires Held(cfg, s) && IsIdentityStep(a) && !Step(cfg, s, a).raced
    ensures Steady(s, Step(cfg, s, a))
  {
    assert LiveAt(s, a.x);
    if IsCreationStep(a) {
      CreationStepIsSteady(cfg, s, a);
    } else {
      RemovalStepIsSteady(cfg, s, a);
    }
  }

  lemma CreationStepIsSteady(cfg: Config, s: State, a: Action)
    requires IsCreationStep(a) && LiveAt(s, a.x)
    ensures Steady(s, Step(cfg, s, a))
  {
  }

  lemma RemovalStepIsSteady(cfg: Config, s: State, a: Action)
    requires IsRemovalStep(a) && LiveAt(s, a.x) && !Step(cfg, s, a).raced
    ensures Steady(s, Step(cfg, s, a))
  {
  }

  lemma LockStepIsSteady(cfg: Config, s: State, a: Action)
    requires IsLockStep(a)
    ensures Steady(s, Step(cfg, s, a))
  {
    if !a.LockCount? {
      LockStepKeepsMemory(cfg, s, a);
    }
  }

  lemma LockStepKeepsMemory(cfg: Config, s: State, a: Action)
    requires IsLockStep(a) && !a.LockCount?
    ensures Step(cfg, s, a).mem == s.mem
  {
  }

  lemma ReleaseStepKeepsMemory(cfg: Config, s: State, a: Action)
    requires IsReleaseStep(a) && !a.UnlockCount? && HoldAt(cfg, s, a.n)
    ensures Step(cfg, s, a).mem == s.mem
  {
  }

  lemma ReleaseStepIsSteady(cfg: Config, s: State, a: Action)
    requires IsReleaseStep(a) && HoldAt(cfg, s, a.n)
    ensures Steady(s, Step(cfg, s, a))
  {
    if !a.UnlockCount? {
      ReleaseStepKeepsMemory(cfg, s, a);
    }
  }

  lemma NodeStepIsSteady(cfg: Config, s: State, a: Action)
    requires Held(cfg, s) && IsNodeStep(a)
    ensures Steady(s, Step(cfg, s, a))
  {
    assert HoldAt(cfg, s, a.n);
    if IsLockStep(a) {
      LockStepIsSteady(cfg, s, a);
    } else {
      ReleaseStepIsSteady(cfg, s, a);
    }
  }

  /** Without a race no step changes a drift. */
  lemma StepIsSteady(cfg: Config, s: State, a: Action)
    requires Held(cfg, s) && !Step(cfg, s, a).raced
    ensures Steady(s, Step(cfg, s, a))
  {
    if IsIdentityStep(a) {
      IdentityStepIsSteady(cfg, s, a);
    } else if IsNodeStep(a) {
      NodeStepIsSteady(cfg, s, a);
    }
  }

  lemma StepKeepsClean(cfg: Config, s: State, a: Action)
    requires Inv(cfg, s) && Clean(cfg, s) && Disciplined(cfg) && !Step(cfg, s, a).raced
    ensures Clean(cfg, Step(cfg, s, a))
  {
    StepKeepsHeld(cfg, s, a);
    StepIsSteady(cfg, s, a);
    SteadyKeepsNoDrift(s, Step(cfg, s, a));
  }

  lemma SteadyKeepsNoDrift(s: State, s': State)
    requires Steady(s, s') && NoDrift(s)
    ensures NoDrift(s')
  {
  }

  lemma SteadyTwice(a: State, b: State, c: State)
    requires Steady(a, b) && Steady(b, c)
    ensures Steady(a, c)
  {
  }

  /** From any state whose holders are right, in a run without races they stay so and no drift changes. */
  lemma {:induction false} RunKeepsHeld(cfg: Config, s: State, actions: seq<Action>)
    requires Inv(cfg, s) && Held(cfg, s) && Disciplined(cfg) && !Run(cfg, s, actions).raced
    ensures Held(cfg, Run(cfg, s, actions)) && Steady(s, Run(cfg, s, actions))
    decreases |actions|
  {
    if actions != [] {
      var s' := Step(cfg, s, actions[0]);
      RacedStays(cfg, s', actions[1..]);
      StepKeeps(cfg, s, actions[0]);
      StepKeepsHeld(cfg, s, actions[0]);
      StepIsSteady(cfg, s, actions[0]);
      RunKeepsHeld(cfg, s', actions[1..]);
      SteadyTwice(s, s', Run(cfg, s', actions[1..]));
    }
  }

  lemma RunKeepsClean(cfg: Config, s: State, actions: seq<Action>)
    requires Inv(cfg, s) && Clean(cfg, s) && Disciplined(cfg) && !Run(cfg, s, actions).raced
    ensures Clean(cfg, Run(cfg, s, actions))
  {
    RunKeepsHeld(cfg, s, actions);
  }
}
