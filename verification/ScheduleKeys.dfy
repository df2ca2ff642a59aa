/** The byte keys of the tick schedule. */
module ScheduleKeys {
  import opened Bytes
  import opened Wrappers
  import opened LmPool

  /** A pool's schedule, a pending tick of a pool, and a deferred one. */
  datatype Key = OfSchedule(pool: PoolId) | OfTick(pool: PoolId, height: u32) | OfDeferred(pool: PoolId, height: u32)

  const SCHEDULE_PREFIX := "sc:"
  const TICKS_PREFIX := "ts:"
  const DEFERRED_TICKS_PREFIX := "tr:ts:"
  const TICK_KEY_LEN: nat := 47
  const TRIED_TICK_KEY_LEN: nat := 50
  const POOL_ID_LEN: nat := 32

  function TickKey(prefix: string, pool: PoolId, height: u32): (r: seq<byte>)
    ensures |r| == 8 + |prefix| + 4 + POOL_ID_LEN
  {
    Serialized(prefix) + (BigEndian(height, 4) + BigEndian(pool, POOL_ID_LEN))
  }

  /** The key as it is written to the database. */
  function Encode(k: Key): seq<byte> {
    match k
    case OfSchedule(pool) => Serialized(SCHEDULE_PREFIX) + BigEndian(pool, POOL_ID_LEN)
    case OfTick(pool, height) => TickKey(TICKS_PREFIX, pool, height)
    case OfDeferred(pool, height) => TickKey(DEFERRED_TICKS_PREFIX, pool, height)
  }

  lemma PoolIdWidth()
    ensures Pow256(POOL_ID_LEN) == 0x1_0000000000000000_0000000000000000_0000000000000000_0000000000000000
  {
    assert Pow256(8) == 0x1_0000000000000000;
    assert Pow256(16) == 0x1_0000000000000000_0000000000000000;
    assert Pow256(24) == 0x1_0000000000000000_0000000000000000_0000000000000000;
  }

  function PoolIdOf(bytes: seq<byte>): PoolId
    requires |bytes| == POOL_ID_LEN
  {
    PoolIdWidth();
    BigEndianOfNumber(bytes);
    Number(bytes)
  }

  function DestructureTickKey(bytes: seq<byte>): Option<PoolId> {
    if |bytes| == TICK_KEY_LEN then Some(PoolIdOf(bytes[15..])) else None
  }

  function DestructureDeferredTickKey(bytes: seq<byte>): Option<PoolId> {
    if |bytes| == TRIED_TICK_KEY_LEN then Some(PoolIdOf(bytes[18..])) else None
  }

  function ExtractPoolId(bytes: seq<byte>): Option<PoolId> {
    if |bytes| >= POOL_ID_LEN then Some(PoolIdOf(bytes[|bytes| - POOL_ID_LEN..])) else None
  }

  /** The order in which the database iterates. */
  predicate Before(k: Key, j: Key) {
    Precedes(Encode(k), Encode(j))
  }

  /** The range of keys that a prefix selects. */
  predicate HasPrefix(k: Key, prefix: string) {
    Serialized(prefix) <= Encode(k)
  }

  lemma PoolIdRoundTrip(pool: PoolId)
    ensures PoolIdOf(BigEndian(pool, POOL_ID_LEN)) == pool
  {
    PoolIdWidth();
    NumberOfBigEndian(pool, POOL_ID_LEN);
  }

  lemma Tail(a: seq<byte>, b: seq<byte>)
    ensures (a + b)[|a|..] == b
  {
  }

  lemma TickKeyTail(prefix: string, pool: PoolId, height: u32)
    ensures TickKey(prefix, pool, height)[8 + |prefix| + 4..] == BigEndian(pool, POOL_ID_LEN)
  {
  }

  /** A key gives back its pool: the last 32 bytes of any key, and exactly the tick keys are destructured. */
  lemma KeyRoundTrip(k: Key)
    ensures ExtractPoolId(Encode(k)) == Some(k.pool)
    ensures DestructureTickKey(Encode(k)) == if k.OfTick? then Some(k.pool) else None
    ensures DestructureDeferredTickKey(Encode(k)) == if k.OfDeferred? then Some(k.pool) else None
  {
    var id := BigEndian(k.pool, POOL_ID_LEN);
    PoolIdRoundTrip(k.pool);
    match k {
      case OfSchedule(pool) => Tail(Serialized(SCHEDULE_PREFIX), id);
      case OfTick(pool, height) => TickKeyTail(TICKS_PREFIX, pool, height);
      case OfDeferred(pool, height) => TickKeyTail(DEFERRED_TICKS_PREFIX, pool, height);
    }
  }

  lemma SerializedHead(s: string)
    requires 0 < |s| < 256
    ensures Serialized(s)[0] == |s| && Serialized(s)[8] == s[0] as int % 256
  {
  }

  function PrefixOf(k: Key): string {
    match k
    case OfSchedule(_) => SCHEDULE_PREFIX
    case OfTick(_, _) => TICKS_PREFIX
    case OfDeferred(_, _) => DEFERRED_TICKS_PREFIX
  }

  lemma StartsWithPrefix(k: Key)
    ensures Serialized(PrefixOf(k)) <= Encode(k)
  {
  }

  /** The prefixes select the kinds of keys. */
  lemma PrefixSelects(k: Key)
    ensures HasPrefix(k, TICKS_PREFIX) <==> k.OfTick?
    ensures HasPrefix(k, DEFERRED_TICKS_PREFIX) <==> k.OfDeferred?
  {
    StartsWithPrefix(k);
    SerializedHead(PrefixOf(k));
    SerializedHead(TICKS_PREFIX);
    SerializedHead(DEFERRED_TICKS_PREFIX);
    var own, bytes := Serialized(PrefixOf(k)), Encode(k);
    assert bytes[0] == own[0] && bytes[8] == own[8];
  }

  /** Ticks of one kind are iterated by height, and by pool id within one height. */
  lemma TickKeyOrder(prefix: string, pool: PoolId, height: u32, pool': PoolId, height': u32)
    ensures Precedes(TickKey(prefix, pool, height), TickKey(prefix, pool', height')) <==>
            height < height' || (height == height' && pool < pool')
  {
    var p := Serialized(prefix);
    var h, h' := BigEndian(height, 4), BigEndian(height', 4);
    var id, id' := BigEndian(pool, POOL_ID_LEN), BigEndian(pool', POOL_ID_LEN);
    PrecedesIrreflexive(p);
    PrecedesByField(p, p, h + id, h' + id');
    PrecedesByField(h, h', id, id');
    PoolIdWidth();
    assert Pow256(4) == U32_LIMIT;
    BigEndianOrder(height, height', 4);
    BigEndianOrder(pool, pool', POOL_ID_LEN);
    NumberOfBigEndian(height, 4);
    NumberOfBigEndian(height', 4);
  }

  lemma BeforeByHeight(k: Key, j: Key)
    requires (k.OfTick? && j.OfTick?) || (k.OfDeferred? && j.OfDeferred?)
    ensures Before(k, j) <==> k.height < j.height || (k.height == j.height && k.pool < j.pool)
  {
    TickKeyOrder(if k.OfTick? then TICKS_PREFIX else DEFERRED_TICKS_PREFIX, k.pool, k.height, j.pool, j.height);
  }

  /** Different keys are written differently. */
  lemma EncodeInjective(k: Key, j: Key)
    requires Encode(k) == Encode(j)
    ensures k == j
  {
    PrefixSelects(k);
    PrefixSelects(j);
    KeyRoundTrip(k);
    KeyRoundTrip(j);
    if !k.OfSchedule? {
      PrecedesIrreflexive(Encode(k));
      BeforeByHeight(k, j);
      BeforeByHeight(j, k);
    }
  }

  /** The key that an iterator over the given keys returns next. */
  method Least(keys: set<Key>) returns (least: Key)
    requires keys != {}
    ensures least in keys
    ensures forall k :: k in keys ==> !Before(k, least)
  {
    least := Pick(keys);
    PrecedesIrreflexive(Encode(least));
    var left := keys - {least};
    while left != {}
      invariant left <= keys && least in keys
      invariant forall k :: k in keys - left ==> !Before(k, least)
      decreases |left|
    {
      var key := Pick(left);
      if Before(key, least) {
        PrecedesIrreflexive(Encode(key));
        forall k | k in keys - left ensures !Before(k, key) {
          if Before(k, key) { PrecedesTransitive(Encode(k), Encode(key), Encode(least)); }
        }
        least := key;
      }
      left := left - {key};
    }
  }
}
