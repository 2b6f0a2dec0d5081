/**
  The repair pass at startup (`sync_identities`, `sync_identity_pools` and `State` of
  src/context_data.rs:45-131, 139-173; `unlock` of src/identity_hoprd/identity_hoprd_resource.rs:295-319).
  It runs before the controllers, so nothing interferes.
 */
module StartupRepair {
  import opened Wrappers
  import opened Sets
  import opened IdentityPool

  /** An object's namespace and name. */
  datatype Ref = Ref(namespace: string, name: string) {
    /** The composite key under which pools are cached and nodes are looked up. */
    function Key(): string {
      namespace + "-" + name
    }
  }

  /** An identity as the API lists it. */
  datatype Listed = Listed(pool: string, phase: IdPhase, holder: Option<string>)

  datatype CachedPool = CachedPool(pool: Ref, status: Option<PoolStatus>)

  datatype RepairError = PoolNotCached

  type Identities = map<Ref, Listed>

  type Pools = map<Ref, Option<PoolStatus>>

  type Cache = map<string, CachedPool>

  predicate IsHeld(id: Listed) {
    id.phase != NoStatus && id.holder.Some?
  }

  /** The composite keys of the existing nodes. */
  function NodeKeys(nodes: set<Ref>): set<string> {
    set n | n in nodes :: n.Key()
  }

  /** The recorded holder is not among the existing nodes, as far as their composite keys tell. */
  predicate LooksOrphaned(r: Ref, id: Listed, nodeKeys: set<string>) {
    IsHeld(id) && Ref(r.namespace, id.holder.value).Key() !in nodeKeys
  }

  /** The repair unlocks the identity. */
  predicate Unlocks(r: Ref, id: Listed, nodeKeys: set<string>) {
    LooksOrphaned(r, id, nodeKeys) && id.phase == InUse
  }

  /** What the repair makes of one identity: only an InUse one is unlocked. */
  function Repaired(r: Ref, id: Listed, nodeKeys: set<string>): Listed {
    if Unlocks(r, id, nodeKeys) then id.(phase := Free, holder := None) else id
  }

  function RepairedAll(ids: Identities, nodeKeys: set<string>): Identities {
    map r | r in ids :: Repaired(r, ids[r], nodeKeys)
  }

  function PoolOf(r: Ref, id: Listed): Ref {
    Ref(r.namespace, id.pool)
  }

  function Members(ids: Identities, pool: Ref): set<Ref> {
    set r | r in ids && PoolOf(r, ids[r]) == pool
  }

  function HeldMembers(ids: Identities, pool: Ref): set<Ref> {
    set r | r in Members(ids, pool) && IsHeld(ids[r])
  }

  predicate CountsMatch(ids: Identities, pool: Ref, status: PoolStatus) {
    status.size == |Members(ids, pool)| && status.locked == |HeldMembers(ids, pool)|
  }

  /** The published status after `sync_identity_pools`. */
  function Recounted(ids: Identities, pool: Ref, status: Option<PoolStatus>): Option<PoolStatus> {
    if status.Some? && !CountsMatch(ids, pool, status.value) then
      Some(PoolStatus(PoolPhase.Ready, |Members(ids, pool)|, |HeldMembers(ids, pool)|))
    else status
  }

  predicate DistinctKeys(refs: set<Ref>) {
    forall a, b :: a in refs && b in refs && a.Key() == b.Key() ==> a == b
  }

  /** Every cached pool sits under its own key. */
  predicate WellKeyed(cache: Cache) {
    forall k :: k in cache ==> cache[k].pool.Key() == k
  }

  /** The cache holds listed pools with their listed status, one for every key of a listed pool. */
  predicate CacheOf(cache: Cache, pools: Pools) {
    && WellKeyed(cache)
    && (forall k :: k in cache ==> cache[k].pool in pools && cache[k].status == pools[cache[k].pool])
    && (forall p :: p in pools ==> p.Key() in cache)
  }

  /** The pool of every identity the repair unlocks is cached. */
  predicate CanRepair(ids: Identities, nodeKeys: set<string>, cached: set<string>) {
    forall r :: r in ids && Unlocks(r, ids[r], nodeKeys) ==> PoolOf(r, ids[r]).Key() in cached
  }

  /** The unlocked identities among `done` whose pool has the key. */
  function UnlockedAt(done: set<Ref>, ids: Identities, nodeKeys: set<string>, key: string): set<Ref> {
    set r | r in done && r in ids && Unlocks(r, ids[r], nodeKeys) && PoolOf(r, ids[r]).Key() == key
  }

  /** A status after one unlock, and after n unlocks. */
  function Unlocked1(status: Option<PoolStatus>): Option<PoolStatus> {
    Some(NextStatus(if status.Some? then status.value else NEW_POOL, Unlocked))
  }

  function StatusAfter(status: Option<PoolStatus>, n: nat): Option<PoolStatus> {
    if n == 0 then status
    else
      var base := if status.Some? then status.value else NEW_POOL;
      Some(PoolStatus(BalancePhase(base.size, base.locked - n), base.size, base.locked - n))
  }

  lemma OneUnlockMore(status: Option<PoolStatus>, n: nat)
    ensures StatusAfter(status, n + 1) == Unlocked1(StatusAfter(status, n))
  {
  }

  /** The cache after the unlocks of the identities in `done`. */
  function CacheAfter(cache: Cache, done: set<Ref>, ids: Identities, nodeKeys: set<string>): Cache {
    map k | k in cache :: cache[k].(status := StatusAfter(cache[k].status, |UnlockedAt(done, ids, nodeKeys, k)|))
  }

  /** The published pools after these unlocks: a pool that is cached is published from its cached copy. */
  function PublishedAfter(cache: Cache, p: Ref, listed: Option<PoolStatus>, n: nat): Option<PoolStatus> {
    if n > 0 && p.Key() in cache && cache[p.Key()].pool == p then StatusAfter(cache[p.Key()].status, n) else listed
  }

  function PoolsAfter(cache: Cache, pools: Pools, done: set<Ref>, ids: Identities, nodeKeys: set<string>): Pools {
    map p | p in pools :: PublishedAfter(cache, p, pools[p], |UnlockedAt(done, ids, nodeKeys, p.Key())|)
  }

  /** Taking one more identity into account. */
  lemma OneMoreDone(done: set<Ref>, r: Ref, ids: Identities, nodeKeys: set<string>, key: string)
    requires r in ids && r !in done
    ensures |UnlockedAt(done + {r}, ids, nodeKeys, key)| ==
            |UnlockedAt(done, ids, nodeKeys, key)| + (if Unlocks(r, ids[r], nodeKeys) && PoolOf(r, ids[r]).Key() == key then 1 else 0)
  {
    var before, after := UnlockedAt(done, ids, nodeKeys, key), UnlockedAt(done + {r}, ids, nodeKeys, key);
    if Unlocks(r, ids[r], nodeKeys) && PoolOf(r, ids[r]).Key() == key {
      assert after == before + {r};
    } else {
      assert after == before;
    }
  }

  lemma NothingDone(cache: Cache, pools: Pools, ids: Identities, nodeKeys: set<string>)
    ensures CacheAfter(cache, {}, ids, nodeKeys) == cache && PoolsAfter(cache, pools, {}, ids, nodeKeys) == pools
    ensures RepairedIn(ids, {}, nodeKeys) == ids
  {
    assert forall k :: UnlockedAt({}, ids, nodeKeys, k) == {};
  }

  lemma SkippedSets(done: set<Ref>, r: Ref, ids: Identities, nodeKeys: set<string>)
    requires r in ids && r !in done && !Unlocks(r, ids[r], nodeKeys)
    ensures forall k :: UnlockedAt(done + {r}, ids, nodeKeys, k) == UnlockedAt(done, ids, nodeKeys, k)
  {
  }

  /** An identity that is not unlocked changes nothing. */
  lemma SkippedOne(cache: Cache, pools: Pools, done: set<Ref>, r: Ref, ids: Identities, nodeKeys: set<string>)
    requires r in ids && r !in done && !Unlocks(r, ids[r], nodeKeys)
    ensures CacheAfter(cache, done + {r}, ids, nodeKeys) == CacheAfter(cache, done, ids, nodeKeys)
    ensures PoolsAfter(cache, pools, done + {r}, ids, nodeKeys) == PoolsAfter(cache, pools, done, ids, nodeKeys)
  {
    SkippedSets(done, r, ids, nodeKeys);
  }

  /** What one unlock does to cache and published pools. */
  function CacheUnlocked(cache: Cache, key: string): Cache
    requires key in cache
  {
    cache[key := cache[key].(status := Unlocked1(cache[key].status))]
  }

  function PoolsUnlocked(cache: Cache, pools: Pools, key: string): Pools
    requires key in cache
  {
    var pool := cache[key].pool;
    if pool in pools then pools[pool := Unlocked1(cache[key].status)] else pools
  }

  lemma UnlockedCounts(done: set<Ref>, r: Ref, ids: Identities, nodeKeys: set<string>, k: string)
    requires r in ids && r !in done && Unlocks(r, ids[r], nodeKeys)
    ensures |UnlockedAt(done + {r}, ids, nodeKeys, k)| ==
            |UnlockedAt(done, ids, nodeKeys, k)| + (if PoolOf(r, ids[r]).Key() == k then 1 else 0)
  {
    OneMoreDone(done, r, ids, nodeKeys, k);
  }

  lemma CacheOneMore(cache: Cache, done: set<Ref>, r: Ref, ids: Identities, nodeKeys: set<string>)
    requires r in ids && r !in done && Unlocks(r, ids[r], nodeKeys) && PoolOf(r, ids[r]).Key() in cache
    ensures CacheAfter(cache, done + {r}, ids, nodeKeys) == CacheUnlocked(CacheAfter(cache, done, ids, nodeKeys), PoolOf(r, ids[r]).Key())
  {
    var key := PoolOf(r, ids[r]).Key();
    forall k | k in cache
      ensures CacheAfter(cache, done + {r}, ids, nodeKeys)[k] == CacheUnlocked(CacheAfter(cache, done, ids, nodeKeys), key)[k]
    {
      UnlockedCounts(done, r, ids, nodeKeys, k);
      OneUnlockMore(cache[k].status, |UnlockedAt(done, ids, nodeKeys, k)|);
    }
  }

  lemma PublishedOneMore(cache: Cache, p: Ref, listed: Option<PoolStatus>, key: string, n: nat)
    requires WellKeyed(cache) && key in cache
    ensures PublishedAfter(cache, p, listed, n + (if key == p.Key() then 1 else 0)) ==
            if cache[key].pool == p then Unlocked1(StatusAfter(cache[key].status, n)) else PublishedAfter(cache, p, listed, n)
  {
    OneUnlockMore(cache[key].status, n);
  }

  lemma PoolOneMore(cache: Cache, pools: Pools, done: set<Ref>, r: Ref, ids: Identities, nodeKeys: set<string>, p: Ref)
    requires WellKeyed(cache) && r in ids && r !in done && Unlocks(r, ids[r], nodeKeys) && PoolOf(r, ids[r]).Key() in cache && p in pools
    ensures
      var key := PoolOf(r, ids[r]).Key();
      PoolsAfter(cache, pools, done + {r}, ids, nodeKeys)[p] ==
      if cache[key].pool == p then Unlocked1(CacheAfter(cache, done, ids, nodeKeys)[key].status)
      else PoolsAfter(cache, pools, done, ids, nodeKeys)[p]
  {
    UnlockedCounts(done, r, ids, nodeKeys, p.Key());
    PublishedOneMore(cache, p, pools[p], PoolOf(r, ids[r]).Key(), |UnlockedAt(done, ids, nodeKeys, p.Key())|);
  }

  lemma PoolsOneMore(cache: Cache, pools: Pools, done: set<Ref>, r: Ref, ids: Identities, nodeKeys: set<string>)
    requires WellKeyed(cache) && r in ids && r !in done && Unlocks(r, ids[r], nodeKeys) && PoolOf(r, ids[r]).Key() in cache
    ensures PoolsAfter(cache, pools, done + {r}, ids, nodeKeys) ==
            PoolsUnlocked(CacheAfter(cache, done, ids, nodeKeys), PoolsAfter(cache, pools, done, ids, nodeKeys), PoolOf(r, ids[r]).Key())
  {
    var key := PoolOf(r, ids[r]).Key();
    var before, after := PoolsAfter(cache, pools, done, ids, nodeKeys), PoolsAfter(cache, pools, done + {r}, ids, nodeKeys);
    var unlocked := PoolsUnlocked(CacheAfter(cache, done, ids, nodeKeys), before, key);
    forall p | p in pools ensures after[p] == unlocked[p] {
      PoolOneMore(cache, pools, done, r, ids, nodeKeys, p);
    }
    assert after.Keys == unlocked.Keys;
    assert after == unlocked;
  }

  /** The identities after the repair of those in `done`. */
  function RepairedIn(ids: Identities, done: set<Ref>, nodeKeys: set<string>): Identities {
    map r | r in ids :: if r in done then Repaired(r, ids[r], nodeKeys) else ids[r]
  }

  /** The effect of the repair of one more identity. */
  lemma OneMore(cache: Cache, pools: Pools, done: set<Ref>, r: Ref, ids: Identities, nodeKeys: set<string>)
    requires WellKeyed(cache) && r in ids && r !in done
    ensures RepairedIn(ids, done + {r}, nodeKeys) == RepairedIn(ids, done, nodeKeys)[r := Repaired(r, ids[r], nodeKeys)]
    ensures
      var key := PoolOf(r, ids[r]).Key();
      var cache', pools' := CacheAfter(cache, done, ids, nodeKeys), PoolsAfter(cache, pools, done, ids, nodeKeys);
      Unlocks(r, ids[r], nodeKeys) ==> key in cache ==>
        && CacheAfter(cache, done + {r}, ids, nodeKeys) == CacheUnlocked(cache', key)
        && PoolsAfter(cache, pools, done + {r}, ids, nodeKeys) == PoolsUnlocked(cache', pools', key)
    ensures !Unlocks(r, ids[r], nodeKeys) ==>
              && CacheAfter(cache, done + {r}, ids, nodeKeys) == CacheAfter(cache, done, ids, nodeKeys)
              && PoolsAfter(cache, pools, done + {r}, ids, nodeKeys) == PoolsAfter(cache, pools, done, ids, nodeKeys)
  {
    if !Unlocks(r, ids[r], nodeKeys) {
      SkippedOne(cache, pools, done, r, ids, nodeKeys);
    } else if PoolOf(r, ids[r]).Key() in cache {
      CacheOneMore(cache, done, r, ids, nodeKeys);
      PoolsOneMore(cache, pools, done, r, ids, nodeKeys);
    }
  }

  /** The pools of the identities among `refs` that the repair unlocks are cached. */
  predicate AllCached(refs: set<Ref>, ids: Identities, nodeKeys: set<string>, cached: set<string>)
    requires refs <= ids.Keys
  {
    forall r :: r in refs && Unlocks(r, ids[r], nodeKeys) ==> PoolOf(r, ids[r]).Key() in cached
  }

  lemma OneMoreCached(refs: set<Ref>, done: set<Ref>, r: Ref, ids: Identities, nodeKeys: set<string>, cached: set<string>)
    requires refs <= ids.Keys && done <= refs && r in refs && AllCached(done, ids, nodeKeys, cached)
    ensures
      if Unlocks(r, ids[r], nodeKeys) ==> PoolOf(r, ids[r]).Key() in cached then AllCached(done + {r}, ids, nodeKeys, cached)
      else !AllCached(refs, ids, nodeKeys, cached)
  {
  }

  lemma CacheKept(cache: Cache, done: set<Ref>, ids: Identities, nodeKeys: set<string>)
    requires WellKeyed(cache)
    ensures CacheAfter(cache, done, ids, nodeKeys).Keys == cache.Keys && WellKeyed(CacheAfter(cache, done, ids, nodeKeys))
  {
  }

  class Operator {
    const nodes: set<Ref>
    var ids: Identities // the identities in the API
    var pools: Pools    // the pools in the API, with their status
    var cache: Cache    // the in-memory state

    /** `ContextData::new`: the in-memory state holds the listed pools. */
    constructor (nodes: set<Ref>, ids: Identities, pools: Pools)
      ensures this.nodes == nodes && this.ids == ids && this.pools == pools && CacheOf(cache, pools)
    {
      this.nodes, this.ids, this.pools, this.cache := nodes, ids, pools, map[];
      new;
      var pending := pools.Keys;
      while pending != {}
        invariant this.ids == ids && this.pools == pools
        invariant pending <= pools.Keys && WellKeyed(cache)
        invariant forall k :: k in cache ==> cache[k].pool in pools && cache[k].status == pools[cache[k].pool]
        invariant forall p :: p in pools && p !in pending ==> p.Key() in cache
      {
        var p :| p in pending;
        pending := pending - {p};
        AddIdentityPool(CachedPool(p, pools[p]));
      }
    }

    method AddIdentityPool(pool: CachedPool)
      modifies `cache
      ensures cache == old(cache)[pool.pool.Key() := pool]
    {
      cache := cache[pool.pool.Key() := pool];
    }

    method UpdateIdentityPool(pool: CachedPool)
      modifies `cache
      ensures cache == old(cache)[pool.pool.Key() := pool]
    {
      cache := cache - {pool.pool.Key()};
      AddIdentityPool(pool);
      assert cache == old(cache)[pool.pool.Key() := pool];
    }

    /**
      `unlock` of an identity as it was listed. An InUse one becomes Ready; it completes exactly
      when the identity's pool is cached, whose counters it then decrements in memory and in the API.
     */
    method Unlock(r: Ref, listed: Listed) returns (res: Result<(), RepairError>)
      requires WellKeyed(cache)
      modifies `ids, `pools, `cache
      ensures res.Ok? <==> (listed.phase == InUse ==> PoolOf(r, listed).Key() in old(cache))
      ensures ids == if listed.phase == InUse then old(ids)[r := listed.(phase := Free, holder := None)] else old(ids)
      ensures listed.phase == InUse && res.Ok? ==>
                && cache == CacheUnlocked(old(cache), PoolOf(r, listed).Key())
                && pools == PoolsUnlocked(old(cache), old(pools), PoolOf(r, listed).Key())
      ensures listed.phase != InUse || res.Err? ==> cache == old(cache) && pools == old(pools)
    {
      if listed.phase == InUse {
        ids := ids[r := listed.(phase := Free, holder := None)];
        var key := PoolOf(r, listed).Key();
        if key !in cache {
          return Err(PoolNotCached);
        }
        var cached := cache[key];
        var pool := new Pool(cached.status);
        pool.UpdateStatus(Unlocked);
        if cached.pool in pools {
          pools := pools[cached.pool := pool.published];
        }
        UpdateIdentityPool(cached.(status := pool.status));
      }
      return Ok(());
    }

    /** Looks at one identity with a holder, as it was listed, and unlocks it when the holder is missing. */
    method RepairOne(r: Ref, listed: Listed, allHoprds: set<string>) returns (res: Result<(), RepairError>)
      requires WellKeyed(cache) && r in ids && ids[r] == listed
      modifies `ids, `pools, `cache
      ensures res.Ok? <==> (Unlocks(r, listed, allHoprds) ==> PoolOf(r, listed).Key() in old(cache))
      ensures ids == old(ids)[r := Repaired(r, listed, allHoprds)]
      ensures res.Ok? ==>
                var key := PoolOf(r, listed).Key();
                && cache == (if Unlocks(r, listed, allHoprds) then CacheUnlocked(old(cache), key) else old(cache))
                && pools == (if Unlocks(r, listed, allHoprds) then PoolsUnlocked(old(cache), old(pools), key) else old(pools))
    {
      res := Ok(());
      if LooksOrphaned(r, listed, allHoprds) {
        res := Unlock(r, listed);
      }
    }

    /**
      Unlocks the identities whose recorded holder no longer exists. It completes exactly when the
      pools of all of them are cached; each pool has then been decremented once for each of them.
     */
    method SyncIdentities() returns (res: Result<(), RepairError>)
      requires WellKeyed(cache)
      modifies this
      ensures res.Ok? <==> CanRepair(old(ids), NodeKeys(nodes), old(cache).Keys)
      ensures res.Ok? ==>
                && ids == RepairedAll(old(ids), NodeKeys(nodes))
                && cache == CacheAfter(old(cache), old(ids).Keys, old(ids), NodeKeys(nodes))
                && pools == PoolsAfter(old(cache), old(pools), old(ids).Keys, old(ids), NodeKeys(nodes))
      ensures ids.Keys == old(ids).Keys
      ensures forall r :: r in ids ==> ids[r] == old(ids)[r] || ids[r] == Repaired(r, old(ids)[r], NodeKeys(nodes))
    {
      ghost var listed, cache0, pools0 := ids, cache, pools;
      var allHoprds := NodeKeys(nodes);
      var locked := set r | r in ids && IsHeld(ids[r]);
      ghost var done;
      res, done := RepairEach(locked, allHoprds);
      OnlyHeldMatter(cache0, pools0, locked, listed, allHoprds);
    }

    /**
      The loop over the identities with a holder. It stops at the first whose pool is not cached;
      `done` are those it has looked at by then.
     */
    method RepairEach(locked: set<Ref>, allHoprds: set<string>) returns (res: Result<(), RepairError>, ghost done: set<Ref>)
      requires WellKeyed(cache) && locked <= ids.Keys
      modifies `ids, `pools, `cache
      ensures done <= locked && ids == RepairedIn(old(ids), done, allHoprds)
      ensures res.Ok? <==> AllCached(locked, old(ids), allHoprds, old(cache).Keys)
      ensures res.Ok? ==>
                && done == locked
                && cache == CacheAfter(old(cache), locked, old(ids), allHoprds)
                && pools == PoolsAfter(old(cache), old(pools), locked, old(ids), allHoprds)
    {
      var listed := ids;
      ghost var cache0, pools0 := cache, pools;
      var pending := locked;
      res, done := Ok(()), {};
      NothingDone(cache0, pools0, listed, allHoprds);
      while pending != {}
        invariant pending <= locked && done == locked - pending && res.Ok?
        invariant ids == RepairedIn(listed, done, allHoprds)
        invariant cache == CacheAfter(cache0, done, listed, allHoprds)
        invariant pools == PoolsAfter(cache0, pools0, done, listed, allHoprds)
        invariant AllCached(done, listed, allHoprds, cache0.Keys)
      {
        var r :| r in pending;
        OneMore(cache0, pools0, done, r, listed, allHoprds);
        CacheKept(cache0, done, listed, allHoprds);
        MoveOne(locked, pending, r);
        OneMoreCached(locked, done, r, listed, allHoprds, cache0.Keys);
        assert ids[r] == listed[r];
        res := RepairOne(r, listed[r], allHoprds);
        pending, done := pending - {r}, done + {r};
        if res.Err? {
          return;
        }
      }
    }

    /** Counts the identities of one pool and publishes the counters unless they are right. */
    method RecountPool(p: Ref)
      requires p in pools
      modifies `pools
      ensures pools == old(pools)[p := Recounted(ids, p, old(pools)[p])]
    {
      var size, locked := |Members(ids, p)|, |HeldMembers(ids, p)|;
      if pools[p].Some? {
        var status := pools[p].value;
        if status.size != size || status.locked != locked {
          pools := pools[p := Some(PoolStatus(PoolPhase.Ready, size, locked))];
        }
      }
    }

    /**
      Recounts every pool and publishes corrected counters, but caches the pools as they were
      listed, before the correction.
     */
    method SyncIdentityPools()
      modifies `pools, `cache
      ensures pools == map p | p in old(pools) :: Recounted(ids, p, old(pools)[p])
      ensures CacheOf(cache, old(pools))
    {
      var listed := pools;
      cache := map[];
      var pending := listed.Keys;
      while pending != {}
        invariant pending <= listed.Keys && pools.Keys == listed.Keys
        invariant forall p :: p in pending ==> pools[p] == listed[p]
        invariant forall p :: p in listed && p !in pending ==> pools[p] == Recounted(ids, p, listed[p])
        invariant WellKeyed(cache)
        invariant forall k :: k in cache ==> cache[k].pool in listed && cache[k].status == listed[cache[k].pool]
        invariant forall p :: p in listed && p !in pending ==> p.Key() in cache
      {
        var p :| p in pending;
        pending := pending - {p};
        RecountPool(p);
        AddIdentityPool(CachedPool(p, listed[p]));
      }
    }
  }

  /** Identities that are not held are never unlocked. */
  lemma OnlyHeldMatter(cache: Cache, pools: Pools, locked: set<Ref>, ids: Identities, nodeKeys: set<string>)
    requires locked == set r | r in ids && IsHeld(ids[r])
    ensures RepairedIn(ids, locked, nodeKeys) == RepairedAll(ids, nodeKeys)
    ensures CacheAfter(cache, locked, ids, nodeKeys) == CacheAfter(cache, ids.Keys, ids, nodeKeys)
    ensures PoolsAfter(cache, pools, locked, ids, nodeKeys) == PoolsAfter(cache, pools, ids.Keys, ids, nodeKeys)
  {
    forall k ensures UnlockedAt(locked, ids, nodeKeys, k) == UnlockedAt(ids.Keys, ids, nodeKeys, k) {
    }
  }

  /* What both passes make of a store. */

  /** What the API lists when the operator starts. */
  datatype Store = Store(nodes: set<Ref>, ids: Identities, pools: Pools) {
    function Keys(): set<string> {
      NodeKeys(nodes)
    }

    /** How many identities of the pool are unlocked. */
    function UnlockCount(p: Ref): nat {
      |UnlockedAt(ids.Keys, ids, Keys(), p.Key())|
    }

    /** The identities after both passes. */
    function Ids(): Identities {
      RepairedAll(ids, Keys())
    }

    /** The status that stays in memory. */
    function InMemory(p: Ref): Option<PoolStatus>
      requires p in pools
    {
      StatusAfter(pools[p], UnlockCount(p))
    }

    /** The status that is published in the end. */
    function Published(p: Ref): Option<PoolStatus>
      requires p in pools
    {
      Recounted(Ids(), p, InMemory(p))
    }

    /** The pool of every identity that is to be unlocked exists. */
    predicate Complete() {
      forall r :: r in ids && Unlocks(r, ids[r], Keys()) ==> PoolOf(r, ids[r]) in pools
    }
  }

  /**
    The two passes in the order in which the operator runs them before starting its controllers.
    They complete exactly when the pools of all identities to be unlocked are cached; when the
    cache was filled from the listed pools and keys do not collide, their effect is `Store`'s.
   */
  method Synchronize(op: Operator) returns (res: Result<(), RepairError>)
    requires WellKeyed(op.cache)
    modifies op
    ensures res.Ok? <==> CanRepair(old(op.ids), NodeKeys(op.nodes), old(op.cache).Keys)
    ensures res.Ok? && CacheOf(old(op.cache), old(op.pools)) && DistinctKeys(old(op.pools).Keys) ==>
              var s := Store(op.nodes, old(op.ids), old(op.pools));
              && op.ids == s.Ids()
              && op.pools == (map p | p in s.pools :: s.Published(p))
              && CacheOf(op.cache, map p | p in s.pools :: s.InMemory(p))
  {
    ghost var s := Store(op.nodes, op.ids, op.pools);
    ghost var cache := op.cache;
    res := op.SyncIdentities();
    if res.Ok? {
      PublishedFromCache(cache, s);
      op.SyncIdentityPools();
    }
  }

  /** With a cache of the listed pools, what the unlocks publish is what they leave in memory. */
  lemma PublishedFromCache(cache: Cache, s: Store)
    ensures CacheOf(cache, s.pools) && DistinctKeys(s.pools.Keys) ==>
              var memory := PoolsAfter(cache, s.pools, s.ids.Keys, s.ids, s.Keys());
              && memory == (map p | p in s.pools :: s.InMemory(p))
              && (map p | p in memory :: Recounted(s.Ids(), p, memory[p])) == (map p | p in s.pools :: s.Published(p))
  {
    if CacheOf(cache, s.pools) && DistinctKeys(s.pools.Keys) {
      MemoryFromCache(cache, s);
      RecountedMemory(s, PoolsAfter(cache, s.pools, s.ids.Keys, s.ids, s.Keys()));
    }
  }

  lemma MemoryFromCache(cache: Cache, s: Store)
    requires CacheOf(cache, s.pools) && DistinctKeys(s.pools.Keys)
    ensures PoolsAfter(cache, s.pools, s.ids.Keys, s.ids, s.Keys()) == map p | p in s.pools :: s.InMemory(p)
  {
    forall p | p in s.pools
      ensures PoolsAfter(cache, s.pools, s.ids.Keys, s.ids, s.Keys())[p] == s.InMemory(p)
    {
      CachedUnderOwnKey(cache, s, p);
    }
  }

  lemma RecountedMemory(s: Store, memory: Pools)
    requires memory == map p | p in s.pools :: s.InMemory(p)
    ensures (map p | p in memory :: Recounted(s.Ids(), p, memory[p])) == (map p | p in s.pools :: s.Published(p))
  {
  }

  lemma CachedUnderOwnKey(cache: Cache, s: Store, p: Ref)
    requires CacheOf(cache, s.pools) && DistinctKeys(s.pools.Keys) && p in s.pools
    ensures PublishedAfter(cache, p, s.pools[p], s.UnlockCount(p)) == s.InMemory(p)
  {
    assert cache[p.Key()].pool == p;
  }

  /** An operator that starts from the API's list completes its repair if the pool of every orphaned identity exists. */
  lemma RepairCompletes(cache: Cache, s: Store)
    requires CacheOf(cache, s.pools) && s.Complete()
    ensures CanRepair(s.ids, s.Keys(), cache.Keys)
  {
  }

  /* What the repair achieves. */

  /** A holder is recorded exactly while the identity is InUse, as every step of the protocol keeps it. */
  ghost predicate HolderIffInUse(ids: Identities) {
    forall r :: r in ids ==> (ids[r].holder.Some? <==> ids[r].phase == InUse)
  }

  /** The identity is held by a node that does not exist. */
  predicate HeldByMissing(r: Ref, id: Listed, nodes: set<Ref>) {
    IsHeld(id) && Ref(r.namespace, id.holder.value) !in nodes
  }

  /**
    After both passes an identity is held by a missing node if and only if it was, and the
    composite key of the missing node is also the key of an existing one.
   */
  lemma RepairExact(s: Store, r: Ref)
    requires HolderIffInUse(s.ids) && r in s.ids
    ensures
      HeldByMissing(r, s.Ids()[r], s.nodes) <==>
        && HeldByMissing(r, s.ids[r], s.nodes)
        && exists n :: n in s.nodes && n.Key() == Ref(r.namespace, s.ids[r].holder.value).Key()
    ensures HolderIffInUse(s.Ids()) && Members(s.Ids(), PoolOf(r, s.ids[r])) == Members(s.ids, PoolOf(r, s.ids[r]))
  {
  }

  /** Without a colliding key no identity is held by a missing node, and holders that exist keep theirs. */
  lemma RepairFreesOrphans(s: Store, r: Ref)
    requires HolderIffInUse(s.ids) && r in s.ids
    requires IsHeld(s.ids[r]) ==> DistinctKeys(s.nodes + {Ref(r.namespace, s.ids[r].holder.value)})
    ensures !HeldByMissing(r, s.Ids()[r], s.nodes)
    ensures !HeldByMissing(r, s.ids[r], s.nodes) ==> s.Ids()[r] == s.ids[r]
  {
    if IsHeld(s.ids[r]) {
      var holder := Ref(r.namespace, s.ids[r].holder.value);
      forall n | n in s.nodes && n.Key() == holder.Key() ensures n == holder {
        assert n in s.nodes + {holder};
      }
      assert holder in s.nodes ==> holder.Key() in s.Keys();
    }
  }

  /** Composite keys tell objects apart when namespaces contain no '-'; they do not in general. */
  lemma KeyCollision()
    ensures Ref("a", "b-c").Key() == Ref("a-b", "c").Key() && Ref("a", "b-c") != Ref("a-b", "c")
    ensures forall a: Ref, b: Ref :: '-' !in a.namespace && '-' !in b.namespace && a.Key() == b.Key() ==> a == b
  {
    assert Ref("a", "b-c").Key() == "a-b-c" == Ref("a-b", "c").Key();
    forall a: Ref, b: Ref | '-' !in a.namespace && '-' !in b.namespace && a.Key() == b.Key() ensures a == b {
      KeySplits(a, b);
    }
  }

  lemma KeySplits(a: Ref, b: Ref)
    requires '-' !in a.namespace && '-' !in b.namespace && a.Key() == b.Key()
    ensures a == b
  {
    var k := a.Key();
    assert k[|a.namespace|] == '-' && k[|b.namespace|] == '-';
    assert forall i :: 0 <= i < |a.namespace| ==> k[i] == a.namespace[i] && k[i] != '-';
    assert forall i :: 0 <= i < |b.namespace| ==> k[i] == b.namespace[i] && k[i] != '-';
    assert a.namespace == k[..|a.namespace|] == b.namespace;
    assert a.name == k[|a.namespace| + 1..] == b.name;
  }

  /** n unlocks lower `locked` by n and leave `size` alone. */
  lemma StatusAfterCounts(status: Option<PoolStatus>, n: nat)
    requires status.Some?
    ensures
      var after := StatusAfter(status, n);
      && after.Some? && after.value.size == status.value.size && after.value.locked == status.value.locked - n
      && after.value.phase == if n == 0 then status.value.phase else BalancePhase(after.value.size, after.value.locked)
  {
  }

  /** The repair takes exactly the unlocked identities out of the held ones of a pool, and keeps its members. */
  lemma RepairedCounts(s: Store, p: Ref)
    requires HolderIffInUse(s.ids) && s.Complete() && p in s.pools && DistinctKeys(s.pools.Keys)
    ensures Members(s.Ids(), p) == Members(s.ids, p)
    ensures |HeldMembers(s.Ids(), p)| == |HeldMembers(s.ids, p)| - s.UnlockCount(p)
  {
    var unlocked := UnlockedAt(s.ids.Keys, s.ids, s.Keys(), p.Key());
    var held := HeldMembers(s.ids, p);
    assert Members(s.Ids(), p) == Members(s.ids, p);
    assert unlocked <= held;
    assert HeldMembers(s.Ids(), p) == held - unlocked;
  }

  /** After both passes the published counters of every pool with a status are exact, whatever was listed. */
  lemma RecountIsExact(s: Store, p: Ref)
    requires p in s.pools && s.pools[p].Some?
    ensures s.Published(p).Some? && CountsMatch(s.Ids(), p, s.Published(p).value)
  {
    StatusAfterCounts(s.pools[p], s.UnlockCount(p));
  }

  /**
    After both passes every published status has the true counters, while the status in memory is
    off by exactly as much as the listed one was.
   */
  lemma ErrorStaysInMemory(s: Store, p: Ref)
    requires HolderIffInUse(s.ids) && s.Complete() && p in s.pools && DistinctKeys(s.pools.Keys) && s.pools[p].Some?
    ensures s.Published(p).Some? && CountsMatch(s.Ids(), p, s.Published(p).value)
    ensures
      && s.InMemory(p).Some?
      && s.InMemory(p).value.size - |Members(s.Ids(), p)| == s.pools[p].value.size - |Members(s.ids, p)|
      && s.InMemory(p).value.locked - |HeldMembers(s.Ids(), p)| == s.pools[p].value.locked - |HeldMembers(s.ids, p)|
    ensures s.InMemory(p) == s.Published(p) <==> CountsMatch(s.ids, p, s.pools[p].value)
  {
    RepairedCounts(s, p);
    StatusAfterCounts(s.pools[p], s.UnlockCount(p));
  }

  /**
    After both passes a pool is published with its true counters and as Ready, unless its listed
    counters were true already and none of its identities was freed: then it keeps its listed phase.
   */
  lemma RepairPublishes(s: Store, p: Ref)
    requires HolderIffInUse(s.ids) && s.Complete() && p in s.pools && DistinctKeys(s.pools.Keys) && s.pools[p].Some?
    ensures
      var listed, published := s.pools[p].value, s.Published(p);
      var listedTrue := listed.size == |Members(s.ids, p)| && listed.locked == |HeldMembers(s.ids, p)|;
      && published.Some?
      && published.value.size == |Members(s.Ids(), p)| && published.value.locked == |HeldMembers(s.Ids(), p)|
      && published.value.phase == (if listedTrue && s.UnlockCount(p) == 0 then listed.phase else PoolPhase.Ready)
  {
    RepairedCounts(s, p);
    StatusAfterCounts(s.pools[p], s.UnlockCount(p));
    SubsetSize(HeldMembers(s.Ids(), p), Members(s.Ids(), p));
  }

  /** The next counter event is computed from memory: it publishes the true counters if and only if the listed ones were right. */
  lemma RepairIsUndone(s: Store, p: Ref, event: PoolPhase)
    requires HolderIffInUse(s.ids) && s.Complete() && p in s.pools && DistinctKeys(s.pools.Keys) && s.pools[p].Some?
    requires IsCounterEvent(event)
    ensures
      var next := NextStatus(s.InMemory(p).value, event);
      (next.size == |Members(s.Ids(), p)| + SizeChange(event) && next.locked == |HeldMembers(s.Ids(), p)| + LockedChange(event))
      <==> CountsMatch(s.ids, p, s.pools[p].value)
  {
    ErrorStaysInMemory(s, p);
  }

  /** The store as it is left. */
  function After(s: Store): Store {
    Store(s.nodes, s.Ids(), map p | p in s.pools :: s.Published(p))
  }

  /** A second start changes nothing, and memory and API then agree. */
  lemma SecondStart(s: Store)
    requires HolderIffInUse(s.ids) && s.Complete() && DistinctKeys(s.pools.Keys)
    ensures After(After(s)) == After(s)
    ensures forall p :: p in s.pools ==> After(s).InMemory(p) == After(s).Published(p)
  {
    var t := After(s);
    assert forall r :: r in t.ids ==> !Unlocks(r, t.ids[r], t.Keys());
    assert t.Ids() == t.ids;
    forall p | p in s.pools ensures t.InMemory(p) == t.pools[p] == t.Published(p) {
      assert UnlockedAt(t.ids.Keys, t.ids, t.Keys(), p.Key()) == {};
    }
  }
}
