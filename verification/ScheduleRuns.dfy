/** Runs of the tick schedule: one tick per pool, the nearest tick first, and complete cleaning. */
module ScheduleRuns {
  import opened Wrappers
  import opened Arith
  import opened LmPool
  import opened PoolEpochs
  import opened ScheduleKeys
  import opened Schedule

  /** A value lies under a key of its own kind; a schedule lies under the key of its pool. */
  predicate WellKeyed(k: Key, v: Value) {
    match k
    case OfSchedule(pool) => v.Schedule? && v.schedule.poolId == pool
    case OfTick(_, _) => v.Nil?
    case OfDeferred(_, _) => v.Until?
  }

  /** The pool's stored schedule has its next tick at this height. */
  predicate NextTickAt(db: Db, pool: PoolId, height: u32) {
    var r := Resolve(db, Some(pool));
    r.At? && r.value.height == height
  }

  predicate IsTick(db: Db, k: Key) {
    k in db && !k.OfSchedule?
  }

  /** Each pool has at most one tick key, pending or deferred, at its stored schedule's next height. */
  ghost predicate OneTickPerPool(db: Db) {
    && (forall k :: k in db ==> WellKeyed(k, db[k]))
    && (forall k :: IsTick(db, k) ==> NextTickAt(db, k.pool, k.height))
    && (forall k, j :: IsTick(db, k) && IsTick(db, j) && k.pool == j.pool ==> k == j)
  }

  // ---------------------------------------------------------------- operations

  /** Two heights at most one epoch apart. */
  predicate Within(h: u32, next: u32, len: u32) {
    h == next || h + len == next || h == next + len
  }

  /** Every tick of the pool is at the new height or one epoch before or after it. */
  ghost predicate Near(db: Db, schedule: PoolSchedule) {
    match NextCompoundingAt(schedule)
    case At(next) => next + schedule.epochLen < U32_LIMIT ==> AllWithin(db, schedule.poolId, next, schedule.epochLen)
    case _ => true
  }

  ghost predicate AllWithin(db: Db, pool: PoolId, next: u32, len: u32) {
    forall k :: IsTick(db, k) && k.pool == pool ==> Within(k.height, next, len)
  }

  predicate TicksAt(schedule: PoolSchedule, height: u32) {
    TickOf(schedule).At? && TickOf(schedule).value.height == height
  }

  lemma HeightIsTick(schedule: PoolSchedule)
    requires NextCompoundingAt(schedule).At?
    ensures NextCompoundingAt(schedule).value >= schedule.epochLen
    ensures schedule.epochLen > 0 ==> TicksAt(schedule, NextCompoundingAt(schedule).value)
  {
    var last: nat, len: nat, n: nat := schedule.lastCompletedEpochIx, schedule.epochLen, schedule.epochNum;
    MulNonNeg(last, len);
    if last >= n && len > 0 {
      MulMono(n, last, len);
      assert false;
    }
  }

  lemma RescheduledKeeps(db: Db, schedule: PoolSchedule, next: u32)
    requires OneTickPerPool(db) && next >= schedule.epochLen
    requires schedule.epochLen > 0 ==> TicksAt(schedule, next)
    requires next + schedule.epochLen < U32_LIMIT && AllWithin(db, schedule.poolId, next, schedule.epochLen)
    requires OfDeferred(schedule.poolId, next) !in db && OfTick(schedule.poolId, next) !in db
    ensures OneTickPerPool(Rescheduled(db, schedule, next).0)
  {
    var pool, db' := schedule.poolId, Rescheduled(db, schedule, next).0;
    forall k | IsTick(db', k) && k.pool == pool ensures k == OfTick(pool, next) && schedule.epochLen > 0 {
      assert k != OfTick(pool, next) ==> IsTick(db, k);
    }
    forall k | IsTick(db', k) ensures NextTickAt(db', k.pool, k.height) {
      if k.pool != pool {
        assert IsTick(db, k);
      }
    }
    forall k, j | IsTick(db', k) && IsTick(db', j) && k.pool == j.pool ensures k == j {
      if k.pool != pool {
        assert IsTick(db, k) && IsTick(db, j);
      }
    }
  }

  /** A tick further than one epoch away survives the update and no longer fits the schedule. */
  lemma FarTickStays(db: Db, schedule: PoolSchedule, k: Key)
    requires OneTickPerPool(db) && Updated(db, schedule).1.Stored? && IsTick(db, k) && k.pool == schedule.poolId
    requires !Within(k.height, NextCompoundingAt(schedule).value, schedule.epochLen)
    ensures !OneTickPerPool(Updated(db, schedule).0)
  {
    var pool, next, db' := schedule.poolId, NextCompoundingAt(schedule).value, Updated(db, schedule).0;
    HeightIsTick(schedule);
    assert !IsTick(db, OfDeferred(pool, next)) && !IsTick(db, OfTick(pool, next));
    assert IsTick(db', k) && !NextTickAt(db', pool, k.height);
  }

  lemma NearKeeps(db: Db, schedule: PoolSchedule)
    requires OneTickPerPool(db) && Near(db, schedule)
    ensures OneTickPerPool(Updated(db, schedule).0)
  {
    if NextCompoundingAt(schedule).At? {
      var pool, next: nat := schedule.poolId, NextCompoundingAt(schedule).value;
      if next + schedule.epochLen < U32_LIMIT && OfDeferred(pool, next) !in db && OfTick(pool, next) !in db {
        HeightIsTick(schedule);
        RescheduledKeeps(db, schedule, next);
      }
    }
  }

  /** An update keeps one tick per pool exactly when it lands within one epoch of the pool's tick. */
  lemma UpdateKeepsIff(db: Db, schedule: PoolSchedule)
    requires OneTickPerPool(db)
    ensures OneTickPerPool(Updated(db, schedule).0) <==> Near(db, schedule)
  {
    if Near(db, schedule) {
      NearKeeps(db, schedule);
    } else {
      var k :| IsTick(db, k) && k.pool == schedule.poolId &&
        !Within(k.height, NextCompoundingAt(schedule).value, schedule.epochLen);
      FarTickStays(db, schedule, k);
    }
  }

  /** Deferring keeps one tick per pool exactly when the deferred tick is the pool's next one. */
  lemma DeferKeepsIff(db: Db, tick: Tick, until: int)
    requires OneTickPerPool(db)
    ensures OneTickPerPool(Deferred(db, tick, until)) <==> NextTickAt(db, tick.poolId, tick.height)
  {
  }

  lemma RemoveKeeps(db: Db, tick: Tick)
    requires OneTickPerPool(db)
    ensures OneTickPerPool(Removed(db, tick))
  {
  }

  /** Cleaning removes every key of the pool and changes nothing under any other key. */
  lemma CleanIsExact(db: Db, pool: PoolId)
    ensures forall k :: k in Cleaned(db, pool) <==> k in db && k.pool != pool
    ensures forall k :: k in Cleaned(db, pool) ==> Cleaned(db, pool)[k] == db[k]
  {
    forall k: Key ensures ExtractPoolId(Encode(k)) == Some(k.pool) {
      KeyRoundTrip(k);
    }
  }

  lemma CleanKeeps(db: Db, pool: PoolId)
    requires OneTickPerPool(db)
    ensures OneTickPerPool(Cleaned(db, pool))
  {
    CleanIsExact(db, pool);
    var db' := Cleaned(db, pool);
    forall k | IsTick(db', k) ensures NextTickAt(db', k.pool, k.height) {
      assert IsTick(db, k);
    }
  }

  // ---------------------------------------------------------------- runs

  datatype Op =
    | Update(schedule: PoolSchedule)
    | Defer(tick: Tick, until: int)
    | Remove(tick: Tick)
    | Clean(pool: PoolId)

  function Apply(db: Db, op: Op): Db {
    match op
    case Update(schedule) => Updated(db, schedule).0
    case Defer(tick, until) => Deferred(db, tick, until)
    case Remove(tick) => Removed(db, tick)
    case Clean(pool) => Cleaned(db, pool)
  }

  /** The schedule continues the stored one, at most one epoch further or back. */
  predicate OneEpochApart(db: Db, schedule: PoolSchedule) {
    OfSchedule(schedule.poolId) in db && db[OfSchedule(schedule.poolId)].Schedule? ==>
      var stored := db[OfSchedule(schedule.poolId)].schedule;
      && stored.epochLen == schedule.epochLen && stored.programStart == schedule.programStart
      && stored.lastCompletedEpochIx - 1 <= schedule.lastCompletedEpochIx <= stored.lastCompletedEpochIx + 1
  }

  /** Updates move by at most one epoch, and the tick that is deferred is the pool's next one. */
  predicate Allowed(db: Db, op: Op) {
    match op
    case Update(schedule) => OneEpochApart(db, schedule)
    case Defer(tick, _) => NextTickAt(db, tick.poolId, tick.height)
    case _ => true
  }

  ghost predicate IsRun(dbs: seq<Db>, ops: seq<Op>) {
    && |dbs| == |ops| + 1
    && dbs[0] == map[]
    && forall i :: 0 <= i < |ops| ==> Allowed(dbs[i], ops[i]) && dbs[i + 1] == Apply(dbs[i], ops[i])
  }

  /** Heights of schedules of one program are one epoch apart when their completed epochs are. */
  lemma HeightsWithin(sc: PoolSchedule, sc': PoolSchedule)
    requires NextCompoundingAt(sc).At? && NextCompoundingAt(sc').At?
    requires sc.epochLen == sc'.epochLen && sc.programStart == sc'.programStart
    requires sc.lastCompletedEpochIx - 1 <= sc'.lastCompletedEpochIx <= sc.lastCompletedEpochIx + 1
    ensures Within(NextCompoundingAt(sc).value, NextCompoundingAt(sc').value, sc.epochLen)
  {
    var last: int, last': int, len: int := sc.lastCompletedEpochIx, sc'.lastCompletedEpochIx, sc.epochLen;
    assert last' == last + 1 ==> last' * len == last * len + len;
    assert last' == last - 1 ==> last' * len == last * len - len;
  }

  lemma OneEpochApartIsNear(db: Db, schedule: PoolSchedule)
    requires OneTickPerPool(db) && OneEpochApart(db, schedule)
    ensures Near(db, schedule)
  {
    if Updated(db, schedule).1.Stored? {
      forall k | IsTick(db, k) && k.pool == schedule.poolId
        ensures Within(k.height, NextCompoundingAt(schedule).value, schedule.epochLen)
      {
        assert NextTickAt(db, k.pool, k.height);
        HeightsWithin(db[OfSchedule(schedule.poolId)].schedule, schedule);
      }
    }
  }

  /** In every run each pool has at most one tick key, at its stored schedule's next height. */
  lemma {:induction false} OneTickOverRuns(dbs: seq<Db>, ops: seq<Op>, i: nat)
    requires IsRun(dbs, ops) && i <= |ops|
    ensures OneTickPerPool(dbs[i])
  {
    if i > 0 {
      OneTickOverRuns(dbs, ops, i - 1);
      var db := dbs[i - 1];
      match ops[i - 1] {
        case Update(schedule) =>
          OneEpochApartIsNear(db, schedule);
          UpdateKeepsIff(db, schedule);
        case Defer(tick, until) => DeferKeepsIff(db, tick, until);
        case Remove(tick) => RemoveKeeps(db, tick);
        case Clean(pool) => CleanKeeps(db, pool);
      }
    }
  }

  // ---------------------------------------------------------------- peeking

  /** The deferred tick that comes first, by height and then by pool id. */
  ghost predicate IsFirstDeferred(db: Db, k: Key) {
    && k in db && k.OfDeferred?
    && forall j :: j in db && j.OfDeferred? ==>
         k == j || k.height < j.height || (k.height == j.height && k.pool < j.pool)
  }

  /** The first deferred tick is due. */
  ghost predicate FirstDeferredIsDue(db: Db, now: int) {
    exists k :: IsFirstDeferred(db, k) && db[k].Until? && db[k].time <= now
  }

  ghost predicate PendingAtOrBelow(db: Db, height: u32) {
    exists k :: k in db && k.OfTick? && k.height <= height
  }

  /** Each tick key resolves to its pool's tick at the key's own height. */
  lemma KeyResolves(db: Db, k: Key)
    requires OneTickPerPool(db) && IsTick(db, k)
    ensures var r := if k.OfTick? then ResolvePending(db, k) else ResolveDeferred(db, k);
            r.At? && r.value.height == k.height && r.value.poolId == k.pool && r == Resolve(db, Some(k.pool))
  {
    assert NextTickAt(db, k.pool, k.height);
    assert WellKeyed(OfSchedule(k.pool), db[OfSchedule(k.pool)]);
    KeyRoundTrip(k);
  }

  lemma PendingScanIsNearest(db: Db, r: Scheduled<Tick>)
    requires OneTickPerPool(db) && IsPendingScan(db, r)
    ensures !r.ScheduleTrapped?
    ensures r.Exhausted? ==> forall k :: k in db ==> !k.OfTick?
    ensures r.At? ==> OfTick(r.value.poolId, r.value.height) in db && r == Resolve(db, Some(r.value.poolId))
    ensures r.At? ==> forall j :: j in db && j.OfTick? ==> r.value.height <= j.height
  {
    var keys := KeysUnder(db, TICKS_PREFIX);
    forall k | k in db ensures (k in keys <==> k.OfTick?) && (k.OfTick? ==> ResolvePending(db, k).At?) {
      PrefixSelects(k);
      if k.OfTick? { KeyResolves(db, k); }
    }
    if !r.Exhausted? {
      var k :| k in keys && ResolvePending(db, k) == r
        && forall j :: j in keys && Before(j, k) ==> ResolvePending(db, j).Exhausted?;
      KeyResolves(db, k);
      forall j | j in db && j.OfTick? ensures r.value.height <= j.height {
        BeforeByHeight(j, k);
      }
    }
  }

  lemma DeferredKeys(db: Db, now: int)
    requires OneTickPerPool(db)
    ensures forall k :: k in KeysUnder(db, DEFERRED_TICKS_PREFIX) <==> k in db && k.OfDeferred?
    ensures forall k :: k in db && k.OfDeferred? ==> db[k].Until? && !Passed(db, k, now)
  {
    forall k: Key ensures HasPrefix(k, DEFERRED_TICKS_PREFIX) <==> k.OfDeferred? { PrefixSelects(k); }
    forall k | k in db && k.OfDeferred? ensures db[k].Until? && !Passed(db, k, now) { KeyResolves(db, k); }
  }

  lemma NothingBeforeIsFirst(db: Db, k: Key)
    requires k in db && k.OfDeferred? && forall j :: j in db && j.OfDeferred? ==> !Before(j, k)
    ensures IsFirstDeferred(db, k)
  {
    forall j | j in db && j.OfDeferred?
      ensures k == j || k.height < j.height || (k.height == j.height && k.pool < j.pool)
    {
      BeforeByHeight(j, k);
    }
  }

  lemma FirstDecides(db: Db, k: Key, now: int)
    requires IsFirstDeferred(db, k) && db[k].Until?
    ensures FirstDeferredIsDue(db, now) <==> db[k].time <= now
  {
  }

  /** The scan of the deferred ticks finds one exactly when the first of them is due, and then finds that one. */
  lemma DeferredScanIff(db: Db, now: int, r: Scheduled<Tick>)
    requires OneTickPerPool(db) && IsDeferredScan(db, now, r)
    ensures !r.ScheduleTrapped?
    ensures r.At? <==> FirstDeferredIsDue(db, now)
    ensures r.At? ==>
              var k := OfDeferred(r.value.poolId, r.value.height);
              IsFirstDeferred(db, k) && db[k].Until? && db[k].time <= now && r == Resolve(db, Some(r.value.poolId))
  {
    var keys := KeysUnder(db, DEFERRED_TICKS_PREFIX);
    DeferredKeys(db, now);
    if !(r.Exhausted? && (forall k :: k in keys ==> Passed(db, k, now))) {
      var k :| k in keys && db[k].Until?
        && (forall j :: j in keys && Before(j, k) ==> Passed(db, j, now))
        && if r.Exhausted? then db[k].time > now else db[k].time <= now && ResolveDeferred(db, k) == r;
      NothingBeforeIsFirst(db, k);
      FirstDecides(db, k, now);
      KeyResolves(db, k);
    }
  }

  /**
   Peeking returns the next tick of a pool, pending or due, and none above a pending tick. It returns nothing
   exactly when no tick is pending and the first deferred one is not due, and a tick at or below a deferred
   one exactly when the first deferred one is due or a tick is pending there.
   */
  lemma PeekIsNearest(db: Db, now: int, r: Scheduled<Tick>)
    requires OneTickPerPool(db) && IsPeek(db, now, r)
    ensures !r.ScheduleTrapped?
    ensures r.At? ==> r == Resolve(db, Some(r.value.poolId))
    ensures r.At? ==>
              var t, d := OfTick(r.value.poolId, r.value.height), OfDeferred(r.value.poolId, r.value.height);
              t in db || (IsFirstDeferred(db, d) && db[d].Until? && db[d].time <= now)
    ensures forall j :: j in db && j.OfTick? ==> r.At? && r.value.height <= j.height
    ensures r.Exhausted? <==> !FirstDeferredIsDue(db, now) && forall j :: j in db ==> !j.OfTick?
    ensures forall j :: j in db && j.OfDeferred? ==>
              (r.At? && r.value.height <= j.height <==> FirstDeferredIsDue(db, now) || PendingAtOrBelow(db, j.height))
  {
    var p, d :| IsPendingScan(db, p) && IsDeferredScan(db, now, d) && r == Nearer(p, d);
    PendingScanIsNearest(db, p);
    DeferredScanIff(db, now, d);
    if d.At? {
      forall j | j in db && j.OfDeferred? ensures d.value.height <= j.height {
        assert IsFirstDeferred(db, OfDeferred(d.value.poolId, d.value.height));
      }
    }
  }

  /** While the first deferred tick is not due and none is pending, peeking returns nothing. */
  lemma NothingToPeek(db: Db, now: int, k: Key, r: Scheduled<Tick>)
    requires OneTickPerPool(db) && IsPeek(db, now, r)
    requires IsFirstDeferred(db, k) && db[k].Until? && db[k].time > now && forall j :: j in db ==> !j.OfTick?
    ensures r == Exhausted
  {
    PeekIsNearest(db, now, r);
    FirstDecides(db, k, now);
  }

  lemma RunExtends(dbs: seq<Db>, ops: seq<Op>, op: Op)
    requires IsRun(dbs, ops) && Allowed(dbs[|ops|], op)
    ensures IsRun(dbs + [Apply(dbs[|ops|], op)], ops + [op])
  {
    var dbs', ops' := dbs + [Apply(dbs[|ops|], op)], ops + [op];
    forall i | 0 <= i < |ops'| ensures Allowed(dbs'[i], ops'[i]) && dbs'[i + 1] == Apply(dbs'[i], ops'[i]) {
      if i < |ops| { assert dbs'[i] == dbs[i] && dbs'[i + 1] == dbs[i + 1] && ops'[i] == ops[i]; }
    }
  }

  /** The schedules of two pools, and their ticks deferred, the lower one for longer. */
  function Waiting(low: PoolSchedule, high: PoolSchedule): Db {
    map[OfSchedule(1) := Schedule(low), OfSchedule(2) := Schedule(high),
        OfDeferred(1, 110) := Until(100), OfDeferred(2, 120) := Until(0)]
  }

  lemma TwoUpdates(low: PoolSchedule, high: PoolSchedule) returns (dbs: seq<Db>, ops: seq<Op>)
    requires low == PoolSchedule(1, 10, 10, 100, 0) && high == PoolSchedule(2, 20, 10, 100, 0)
    ensures IsRun(dbs, ops)
    ensures dbs[|ops|] == map[OfSchedule(1) := Schedule(low), OfTick(1, 110) := Nil,
                              OfSchedule(2) := Schedule(high), OfTick(2, 120) := Nil]
  {
    RunExtends([map[]], [], Update(low));
    var db: Db := map[OfSchedule(1) := Schedule(low), OfTick(1, 110) := Nil];
    assert Apply(map[], Update(low)) == db;
    dbs, ops := [map[]] + [db], [] + [Update(low)];
    RunExtends(dbs, ops, Update(high));
    dbs, ops := dbs + [Apply(db, Update(high))], ops + [Update(high)];
  }

  lemma WaitingRun(low: PoolSchedule, high: PoolSchedule) returns (dbs: seq<Db>, ops: seq<Op>)
    requires low == PoolSchedule(1, 10, 10, 100, 0) && high == PoolSchedule(2, 20, 10, 100, 0)
    ensures IsRun(dbs, ops) && dbs[|ops|] == Waiting(low, high)
  {
    dbs, ops := TwoUpdates(low, high);
    var db, first, second := dbs[|ops|], Tick(1, 1, 110), Tick(2, 1, 120);
    assert TickOf(low) == At(first) && TickOf(high) == At(second);
    RunExtends(dbs, ops, Defer(first, 100));
    dbs, ops := dbs + [Deferred(db, first, 100)], ops + [Defer(first, 100)];
    RunExtends(dbs, ops, Defer(second, 0));
    dbs, ops := dbs + [Deferred(Deferred(db, first, 100), second, 0)], ops + [Defer(second, 0)];
  }

  /** A run after which a tick is due and peeking returns nothing: a lower tick of another pool is not due yet. */
  lemma DueTickWaits() returns (dbs: seq<Db>, ops: seq<Op>, due: Key)
    ensures IsRun(dbs, ops)
    ensures due in dbs[|ops|] && due.OfDeferred? && dbs[|ops|][due] == Until(0)
    ensures forall r :: IsPeek(dbs[|ops|], 50, r) ==> r == Exhausted
  {
    var low, high := PoolSchedule(1, 10, 10, 100, 0), PoolSchedule(2, 20, 10, 100, 0);
    dbs, ops := WaitingRun(low, high);
    due := OfDeferred(2, 120);
    OneTickOverRuns(dbs, ops, |ops|);
    forall r | IsPeek(Waiting(low, high), 50, r) ensures r == Exhausted {
      LowerIsFirst(low, high);
      NothingToPeek(Waiting(low, high), 50, OfDeferred(1, 110), r);
    }
  }

  lemma LowerIsFirst(low: PoolSchedule, high: PoolSchedule)
    ensures IsFirstDeferred(Waiting(low, high), OfDeferred(1, 110))
    ensures Waiting(low, high)[OfDeferred(1, 110)] == Until(100)
    ensures forall k :: k in Waiting(low, high) ==> !k.OfTick?
  {
  }

  /** A schedule that jumps two epochs leaves the tick of the first epoch behind: two pending ticks of one pool. */
  lemma TwoEpochsLeaveTwoTicks(pool: PoolId)
    ensures var sc := PoolSchedule(pool, 10, 10, 100, 0);
            var db := Updated(Updated(map[], sc).0, sc.(lastCompletedEpochIx := 2)).0;
            OfTick(pool, 110) in db && OfTick(pool, 130) in db && !OneTickPerPool(db)
  {
  }
}
