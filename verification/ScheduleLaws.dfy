/** What the operations of the tick schedule do for a pool: its tick is scheduled, deferred, returned and cleared. */
module ScheduleLaws {
  import opened Wrappers
  import opened LmPool
  import opened PoolEpochs
  import opened ScheduleKeys
  import opened Schedule
  import opened ScheduleRuns

  ghost predicate HasNoTick(db: Db, pool: PoolId) {
    forall k :: IsTick(db, k) ==> k.pool != pool
  }

  /** The only tick of the pool is at this height. */
  ghost predicate TickIsAt(db: Db, pool: PoolId, height: u32) {
    && (OfTick(pool, height) in db || OfDeferred(pool, height) in db)
    && forall k :: IsTick(db, k) && k.pool == pool ==> k.height == height
  }

  /**
   After an update that keeps one tick per pool the pool's tick is at the new height, and the stored schedule agrees.
   It stays deferred if it was, and is pending otherwise.
   */
  lemma UpdateSchedules(db: Db, schedule: PoolSchedule)
    requires OneTickPerPool(db) && Near(db, schedule) && schedule.epochLen > 0 && Updated(db, schedule).1.Stored?
    ensures var db', pool, next := Updated(db, schedule).0, schedule.poolId, NextCompoundingAt(schedule).value;
            && TickIsAt(db', pool, next) && NextTickAt(db', pool, next)
            && (OfDeferred(pool, next) in db' <==> OfDeferred(pool, next) in db)
  {
    var db', pool, next := Updated(db, schedule).0, schedule.poolId, NextCompoundingAt(schedule).value;
    NearKeeps(db, schedule);
    HeightIsTick(schedule);
    var k := if OfDeferred(pool, next) in db' then OfDeferred(pool, next) else OfTick(pool, next);
    assert IsTick(db', k);
  }

  /** A deferred tick is deferred until the given time and not pending any more. */
  lemma DeferredIsDeferred(db: Db, tick: Tick, until: int)
    ensures var db' := Deferred(db, tick, until);
            && OfTick(tick.poolId, tick.height) !in db'
            && OfDeferred(tick.poolId, tick.height) in db'
            && db'[OfDeferred(tick.poolId, tick.height)] == Until(until)
            && forall k :: k in db && k !in {OfTick(tick.poolId, tick.height), OfDeferred(tick.poolId, tick.height)} ==>
                 k in db' && db'[k] == db[k]
  {
  }

  /** Removing drops the deferred key of the tick and nothing else. */
  lemma RemovedIsGone(db: Db, tick: Tick)
    ensures var db' := Removed(db, tick);
            && OfDeferred(tick.poolId, tick.height) !in db'
            && (forall k :: k in db' ==> k in db && db'[k] == db[k])
            && forall k :: k in db && k != OfDeferred(tick.poolId, tick.height) ==> k in db'
  {
  }

  /** Deferring the pool's tick and removing it leaves the pool without a tick, and it is not peeked. */
  lemma DeferAndRemoveClears(db: Db, tick: Tick, until: int, now: int, r: Scheduled<Tick>)
    requires OneTickPerPool(db) && NextTickAt(db, tick.poolId, tick.height)
    requires IsPeek(Removed(Deferred(db, tick, until), tick), now, r)
    ensures HasNoTick(Removed(Deferred(db, tick, until), tick), tick.poolId)
    ensures r.At? ==> r.value.poolId != tick.poolId
  {
    var deferred := Deferred(db, tick, until);
    var cleared := Removed(deferred, tick);
    DeferKeepsIff(db, tick, until);
    RemoveKeeps(deferred, tick);
    assert IsTick(deferred, OfDeferred(tick.poolId, tick.height));
    forall k | IsTick(cleared, k) ensures k.pool != tick.poolId {
      assert IsTick(deferred, k);
    }
    PoolWithoutTick(cleared, tick.poolId, now, r);
  }

  lemma PoolWithoutTick(db: Db, pool: PoolId, now: int, r: Scheduled<Tick>)
    requires OneTickPerPool(db) && HasNoTick(db, pool) && IsPeek(db, now, r)
    ensures r.At? ==> r.value.poolId != pool
  {
    PeekIsNearest(db, now, r);
    if r.At? {
      var t, d := OfTick(r.value.poolId, r.value.height), OfDeferred(r.value.poolId, r.value.height);
      assert IsTick(db, t) || IsTick(db, d);
    }
  }

  // ---------------------------------------------------------------- the answer of a peek

  ghost predicate IsFirstPending(db: Db, k: Key) {
    && k in db && k.OfTick?
    && forall j :: j in db && j.OfTick? ==> k == j || k.height < j.height || (k.height == j.height && k.pool < j.pool)
  }

  lemma PendingKeys(db: Db)
    requires OneTickPerPool(db)
    ensures forall k :: k in KeysUnder(db, TICKS_PREFIX) <==> k in db && k.OfTick?
    ensures forall k :: k in db && k.OfTick? ==> !ResolvePending(db, k).Exhausted?
  {
    forall k: Key ensures HasPrefix(k, TICKS_PREFIX) <==> k.OfTick? { PrefixSelects(k); }
    forall k | k in db && k.OfTick? ensures !ResolvePending(db, k).Exhausted? { KeyResolves(db, k); }
  }

  lemma NothingBeforeIsFirstPending(db: Db, k: Key)
    requires k in db && k.OfTick? && forall j :: j in db && j.OfTick? ==> !Before(j, k)
    ensures IsFirstPending(db, k)
  {
    forall j | j in db && j.OfTick? ensures k == j || k.height < j.height || (k.height == j.height && k.pool < j.pool) {
      BeforeByHeight(j, k);
    }
  }

  lemma PendingScanIsFirst(db: Db, r: Scheduled<Tick>)
    requires OneTickPerPool(db) && IsPendingScan(db, r) && r.At?
    ensures IsFirstPending(db, OfTick(r.value.poolId, r.value.height))
  {
    var keys := KeysUnder(db, TICKS_PREFIX);
    PendingKeys(db);
    var k :| k in keys && ResolvePending(db, k) == r
      && forall j :: j in keys && Before(j, k) ==> ResolvePending(db, j).Exhausted?;
    NothingBeforeIsFirstPending(db, k);
    KeyResolves(db, k);
  }

  ghost predicate IsDueFirst(db: Db, d: Key, now: int) {
    IsFirstDeferred(db, d) && db[d].Until? && db[d].time <= now
  }

  /** The first deferred tick is returned if it is due and no pending one is lower. */
  lemma DeferredIsReturned(db: Db, now: int, r: Scheduled<Tick>, d: Key)
    requires OneTickPerPool(db) && IsPeek(db, now, r) && IsDueFirst(db, d, now)
    requires forall j :: j in db && j.OfTick? ==> d.height <= j.height
    ensures r.At? && r.value.poolId == d.pool && r.value.height == d.height
  {
    var p, q :| IsPendingScan(db, p) && IsDeferredScan(db, now, q) && r == Nearer(p, q);
    PendingScanIsNearest(db, p);
    DeferredScanIff(db, now, q);
  }

  /** The first pending tick is returned if no due first deferred one is level with it or lower. */
  lemma PendingIsReturned(db: Db, now: int, r: Scheduled<Tick>, k: Key)
    requires OneTickPerPool(db) && IsPeek(db, now, r) && IsFirstPending(db, k)
    requires forall d :: IsDueFirst(db, d, now) ==> k.height < d.height
    ensures r.At? && r.value.poolId == k.pool && r.value.height == k.height
  {
    var p, q :| IsPendingScan(db, p) && IsDeferredScan(db, now, q) && r == Nearer(p, q);
    PendingScanIsNearest(db, p);
    PendingScanIsFirst(db, p);
    DeferredScanIff(db, now, q);
    if q.At? { assert IsDueFirst(db, OfDeferred(q.value.poolId, q.value.height), now); }
  }
}
