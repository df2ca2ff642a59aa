/** The tick schedule: pending and deferred ticks of every pool in one database. */
module Schedule {
  import opened Wrappers
  import opened LmPool
  import opened PoolEpochs
  import opened ScheduleKeys

  datatype Value = Schedule(schedule: PoolSchedule) | Nil | Until(time: int)

  /** The database; `ScheduleKeys.Encode` writes different keys differently, so the keys stand for their bytes. */
  type Db = map<Key, Value>

  datatype UpdateResult = Stored | ProgramOver | UpdateTrapped

  /** What is written for a schedule whose next tick was not tried yet. */
  function Written(db: Db, schedule: PoolSchedule, next: u32, prev: u32, afterNext: u32): Db {
    var pool := schedule.poolId;
    db[OfSchedule(pool) := Schedule(schedule)][OfTick(pool, next) := Nil]
      - {OfTick(pool, prev), OfTick(pool, afterNext), OfDeferred(pool, prev), OfDeferred(pool, afterNext)}
  }

  /** Written only if this height was not tried yet; the neighbouring ticks are dropped. */
  function Rescheduled(db: Db, schedule: PoolSchedule, next: u32): (Db, UpdateResult) {
    if next + schedule.epochLen >= U32_LIMIT then (db, UpdateTrapped)
    else if OfDeferred(schedule.poolId, next) in db || OfTick(schedule.poolId, next) in db then (db, Stored)
    else (Written(db, schedule, next, SatSub(next, schedule.epochLen), next + schedule.epochLen), Stored)
  }

  function Updated(db: Db, schedule: PoolSchedule): (Db, UpdateResult) {
    match NextCompoundingAt(schedule)
    case ScheduleTrapped => (db, UpdateTrapped)
    case Exhausted => (db, ProgramOver)
    case At(next) => Rescheduled(db, schedule, next)
  }

  function Removed(db: Db, tick: Tick): Db {
    db - {OfDeferred(tick.poolId, tick.height)}
  }

  function Deferred(db: Db, tick: Tick, until: int): Db {
    (db - {OfTick(tick.poolId, tick.height)})[OfDeferred(tick.poolId, tick.height) := Until(until)]
  }

  /** The last 32 bytes of the key are the pool's id. */
  predicate Belongs(k: Key, pool: PoolId) {
    ExtractPoolId(Encode(k)) == Some(pool)
  }

  function Cleaned(db: Db, pool: PoolId): Db {
    map k | k in db && !Belongs(k, pool) :: db[k]
  }

  /** The tick that a destructured key leads to, by way of the schedule stored for its pool. */
  function Resolve(db: Db, pool: Option<PoolId>): Scheduled<Tick> {
    match pool
    case None => Exhausted
    case Some(id) =>
      if OfSchedule(id) in db && db[OfSchedule(id)].Schedule? then TickOf(db[OfSchedule(id)].schedule) else Exhausted
  }

  function ResolvePending(db: Db, k: Key): Scheduled<Tick> {
    Resolve(db, DestructureTickKey(Encode(k)))
  }

  function ResolveDeferred(db: Db, k: Key): Scheduled<Tick> {
    Resolve(db, DestructureDeferredTickKey(Encode(k)))
  }

  function KeysUnder(db: Db, prefix: string): set<Key> {
    set k | k in db && HasPrefix(k, prefix)
  }

  /** Whether the scan of the deferred ticks passes over a key. */
  predicate Passed(db: Db, k: Key, now: int)
    requires k in db
  {
    db[k].Until? ==> db[k].time <= now && ResolveDeferred(db, k).Exhausted?
  }

  /** The first pending key that resolves to a tick. */
  ghost predicate IsPendingScan(db: Db, r: Scheduled<Tick>) {
    var keys := KeysUnder(db, TICKS_PREFIX);
    if r.Exhausted? then forall k :: k in keys ==> ResolvePending(db, k).Exhausted?
    else
      exists k :: k in keys && ResolvePending(db, k) == r
        && forall j :: j in keys && Before(j, k) ==> ResolvePending(db, j).Exhausted?
  }

  /** The first deferred key that is due and resolves to a tick, up to the first one that is not due. */
  ghost predicate IsDeferredScan(db: Db, now: int, r: Scheduled<Tick>) {
    var keys := KeysUnder(db, DEFERRED_TICKS_PREFIX);
    || (r.Exhausted? && forall k :: k in keys ==> Passed(db, k, now))
    || exists k :: k in keys && db[k].Until?
         && (forall j :: j in keys && Before(j, k) ==> Passed(db, j, now))
         && if r.Exhausted? then db[k].time > now else db[k].time <= now && ResolveDeferred(db, k) == r
  }

  /** The lower of the two ticks; the deferred one where they are level. */
  function Nearer(pending: Scheduled<Tick>, deferred: Scheduled<Tick>): Scheduled<Tick> {
    if pending.ScheduleTrapped? || deferred.ScheduleTrapped? then ScheduleTrapped
    else if deferred.Exhausted? then pending
    else if pending.Exhausted? then deferred
    else if pending.value.height < deferred.value.height then pending
    else deferred
  }

  ghost predicate IsPeek(db: Db, now: int, r: Scheduled<Tick>) {
    exists p, d :: IsPendingScan(db, p) && IsDeferredScan(db, now, d) && r == Nearer(p, d)
  }

  class ScheduleRepoRocksDB {
    var db: Db

    constructor ()
      ensures db == map[]
    {
      db := map[];
    }

    method UpdateSchedule(schedule: PoolSchedule) returns (r: UpdateResult)
      modifies this
      ensures (db, r) == Updated(old(db), schedule)
    {
      var pool := schedule.poolId;
      match NextCompoundingAt(schedule) {
        case ScheduleTrapped => r := UpdateTrapped;
        case Exhausted => r := ProgramOver;
        case At(next) =>
          var prev := SatSub(next, schedule.epochLen);
          if next + schedule.epochLen >= U32_LIMIT { return UpdateTrapped; }
          var afterNext := next + schedule.epochLen;
          if OfDeferred(pool, next) !in db && OfTick(pool, next) !in db {
            db := db[OfSchedule(pool) := Schedule(schedule)];
            db := db[OfTick(pool, next) := Nil];
            db := db - {OfTick(pool, prev)};
            db := db - {OfTick(pool, afterNext)};
            db := db - {OfDeferred(pool, prev)};
            db := db - {OfDeferred(pool, afterNext)};
            assert db == Written(old(db), schedule, next, prev, afterNext);
          }
          r := Stored;
      }
    }

    method Peek(now: int) returns (r: Scheduled<Tick>)
      ensures IsPeek(db, now, r)
    {
      var pending := PeekPending();
      var deferred := PeekDeferred(now);
      r := Nearer(pending, deferred);
    }

    method PeekPending() returns (tick: Scheduled<Tick>)
      ensures IsPendingScan(db, tick)
    {
      var keys := KeysUnder(db, TICKS_PREFIX);
      var left := keys;
      tick := Exhausted;
      while tick.Exhausted? && left != {}
        invariant left <= keys
        invariant tick.Exhausted? ==> forall j :: j in keys - left ==> ResolvePending(db, j).Exhausted?
        invariant !tick.Exhausted? ==> IsPendingScan(db, tick)
        decreases |left|
      {
        var k := Least(left);
        tick := ResolvePending(db, k);
        left := left - {k};
      }
    }

    method PeekDeferred(now: int) returns (tick: Scheduled<Tick>)
      ensures IsDeferredScan(db, now, tick)
    {
      var keys := KeysUnder(db, DEFERRED_TICKS_PREFIX);
      var left := keys;
      tick := Exhausted;
      while tick.Exhausted? && left != {}
        invariant left <= keys
        invariant tick.Exhausted? ==> forall j :: j in keys - left ==> Passed(db, j, now)
        invariant !tick.Exhausted? ==> IsDeferredScan(db, now, tick)
        decreases |left|
      {
        var k := Least(left);
        if db[k].Until? {
          if db[k].time > now { return; }
          tick := ResolveDeferred(db, k);
        }
        left := left - {k};
      }
    }

    /** Only a deferred tick can be removed. */
    method Remove(tick: Tick)
      modifies this
      ensures db == Removed(old(db), tick)
    {
      db := db - {OfDeferred(tick.poolId, tick.height)};
    }

    method Defer(tick: Tick, until: int)
      modifies this
      ensures db == Deferred(old(db), tick, until)
    {
      db := db - {OfTick(tick.poolId, tick.height)};
      db := db[OfDeferred(tick.poolId, tick.height) := Until(until)];
    }

    method Clean(pool: PoolId)
      modifies this
      ensures db == Cleaned(old(db), pool)
    {
      var deleted := Select(db.Keys, k => Belongs(k, pool));
      db := db - deleted;
    }
  }

  /** Iterate over the keys and collect those that pass a test. */
  method Select(keys: set<Key>, test: Key -> bool) returns (selected: set<Key>)
    ensures forall k :: k in selected <==> k in keys && test(k)
  {
    var left := keys;
    selected := {};
    while left != {}
      invariant left <= keys
      invariant forall k :: k in selected <==> k in keys - left && test(k)
      decreases |left|
    {
      var k := Least(left);
      if test(k) { selected := selected + {k}; }
      left := left - {k};
    }
  }
}
