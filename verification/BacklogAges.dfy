/** How old an order is when the backlog drops it: queue entries against the stored timestamps. */
module BacklogAges {
  import opened Wrappers
  import opened Backlog

  ghost predicate InQueues(s: State, w: WeightedOrder) {
    w in s.pending || w in s.suspended
  }

  /** Every pending or suspended entry of a stored order carries the stored timestamp. */
  ghost predicate Stamped(s: State) {
    forall w :: InQueues(s, w) && w.orderId in s.store ==> w.timestamp == s.store[w.orderId].timestamp
  }

  /** No revisit entry of a stored order is older than the order. */
  ghost predicate RevisitedLater(s: State) {
    forall w :: w in s.revisit && w.orderId in s.store ==> s.store[w.orderId].timestamp <= w.timestamp
  }

  // ---------------------------------------------------------------- what keeps the stamps

  /** Entries of the order that a put leaves where they are. */
  ghost predicate LeftBehind(s: State, w: WeightedOrder, id: OrderId, wasSuspended: Option<WeightedOrder>) {
    w.orderId == id && (w in s.pending || (w in s.suspended && wasSuspended != Some(w)))
  }

  /**
   A put keeps the stamps exactly when the order is stored and is pending or comes with the stored timestamp, or
   it is not stored and every entry of it left behind has the new timestamp.
   */
  lemma PutStampedIff(s: State, order: Order, timestamp: int, wasSuspended: Option<WeightedOrder>,
                      wasPending: Option<WeightedOrder>)
    requires Stamped(s) && Finds(s.suspended, order.id, wasSuspended) && Finds(s.pending, order.id, wasPending)
    ensures Stamped(AfterPut(s, order, timestamp, wasSuspended, wasPending)) <==>
            if order.id in s.store then Queued(s.pending, order.id) || timestamp == s.store[order.id].timestamp
            else forall w :: LeftBehind(s, w, order.id, wasSuspended) ==> w.timestamp == timestamp
  {
    var s', entry := AfterPut(s, order, timestamp, wasSuspended, wasPending), WeightedOrder(order.id, timestamp);
    if order.id in s.store {
      if wasPending.None? { assert InQueues(s', entry); }
    } else if w :| LeftBehind(s, w, order.id, wasSuspended) && w.timestamp != timestamp {
      assert InQueues(s', w);
    } else {
      forall w | InQueues(s', w) && w.orderId in s'.store
        ensures w.timestamp == s'.store[w.orderId].timestamp
      {
        assert w != entry && w.orderId == order.id ==> LeftBehind(s, w, order.id, wasSuspended);
        assert w.orderId != order.id ==> InQueues(s, w);
      }
    }
  }

  /** A put keeps revisit entries late exactly when the order is stored or no entry left behind is too early. */
  lemma PutRevisitedLaterIff(s: State, order: Order, timestamp: int, wasSuspended: Option<WeightedOrder>,
                             wasPending: Option<WeightedOrder>)
    requires RevisitedLater(s)
    ensures RevisitedLater(AfterPut(s, order, timestamp, wasSuspended, wasPending)) <==>
            || order.id in s.store
            || forall w :: w in Without(s.revisit, order.id) && w.orderId == order.id ==> timestamp <= w.timestamp
  {
    WithoutIsPart(s.revisit, order.id);
  }

  lemma {:induction false} WithoutIsPart(revisit: seq<WeightedOrder>, id: OrderId)
    ensures forall w :: w in Without(revisit, id) ==> w in revisit
  {
    if revisit != [] { WithoutIsPart(revisit[1..], id); }
  }

  /** Checking later keeps revisit entries late exactly when the order was not stored in the future. */
  lemma CheckLaterIff(s: State, order: Order, timestamp: int)
    requires RevisitedLater(s)
    ensures RevisitedLater(AfterCheckLater(s, order, timestamp)) <==>
            order.id in s.store ==> s.store[order.id].timestamp <= timestamp
  {
    if order.id in s.store {
      var s' := AfterCheckLater(s, order, timestamp);
      assert WeightedOrder(order.id, timestamp) in s'.revisit;
    }
  }

  /** Revisiting and the other operations always keep both. */
  lemma RevisitKeepsAges(s: State, now: int, conf: Config, weightOf: OrderId -> nat)
    requires s.revisit != [] && Weighted(s, weightOf) && Stamped(s) && RevisitedLater(s)
    ensures var s' := AfterRevisit(s, now, conf); Weighted(s', weightOf) && Stamped(s') && RevisitedLater(s')
  {
    var s' := AfterRevisit(s, now, conf);
    forall w | InQueues(s', w) && w.orderId in s'.store ensures w.timestamp == s'.store[w.orderId].timestamp {
      assert InQueues(s, w) || w == WeightedOrder(s.revisit[0].orderId, s.store[s.revisit[0].orderId].timestamp);
    }
    assert forall w :: w in s'.revisit ==> w in s.revisit;
  }

  lemma {:induction false} RevisitedKeepsAges(s: State, clock: nat -> int, next: nat, now: int, conf: Config,
                                              weightOf: OrderId -> nat)
    requires Weighted(s, weightOf) && Stamped(s) && RevisitedLater(s)
    ensures var s' := Revisited(s, clock, next, now, conf).0; Stamped(s') && RevisitedLater(s')
    decreases |s.revisit|
  {
    if s.revisit != [] && clock(next) - s.revisit[0].timestamp > conf.orderExecTime {
      RevisitKeepsAges(s, clock(next), conf, weightOf);
      RevisitedKeepsAges(AfterRevisit(s, clock(next), conf), clock, next + 1, clock(next), conf, weightOf);
    }
  }

  lemma PopKeepsAges(s: State, s': State, retry: bool, popped: Option<WeightedOrder>, expired: set<WeightedOrder>,
                     conf: Config, now: int)
    requires Stamped(s) && RevisitedLater(s) && PoppedFrom(s, s', retry, popped, expired, conf, now)
    ensures Stamped(s') && RevisitedLater(s')
  {
    forall w | InQueues(s', w) && w.orderId in s'.store ensures w.timestamp == s'.store[w.orderId].timestamp {
      assert InQueues(s, w);
    }
  }

  // ---------------------------------------------------------------- what is dropped

  /** Where the entries carry the stored timestamps, a pop drops only orders older than the lifespan. */
  lemma PopDropsOld(s: State, s': State, retry: bool, popped: Option<WeightedOrder>, expired: set<WeightedOrder>,
                    conf: Config, now: int, id: OrderId)
    requires Stamped(s) && PoppedFrom(s, s', retry, popped, expired, conf, now)
    requires id in s.store && id !in s'.store
    ensures now - s.store[id].timestamp > conf.orderLifespan
  {
    var w :| w in expired && w.orderId == id;
    assert InQueues(s, w);
  }

  /** An operation that keeps the ages, by the conditions above. */
  ghost predicate KeepsAges(w: World, op: Op) {
    match op
    case PutOrder(order, timestamp, wasSuspended, wasPending) =>
      if order.id in w.s.store then Queued(w.s.pending, order.id) || timestamp == w.s.store[order.id].timestamp
      else
        && (forall e :: LeftBehind(w.s, e, order.id, wasSuspended) ==> e.timestamp == timestamp)
        && (forall e :: e in Without(w.s.revisit, order.id) && e.orderId == order.id ==> timestamp <= e.timestamp)
    case CheckOrderLater(order, timestamp) => order.id in w.s.store ==> w.s.store[order.id].timestamp <= timestamp
    case _ => true
  }

  lemma StepKeepsAges(w: World, op: Op, w': World, conf: Config, weightOf: OrderId -> nat)
    requires Holds(w.s, w.inFlight, w.now, weightOf) && Genuine(op, weightOf) && Next(w, op, w', conf)
    requires Stamped(w.s) && RevisitedLater(w.s) && KeepsAges(w, op)
    ensures Stamped(w'.s) && RevisitedLater(w'.s)
  {
    match op {
      case PutOrder(order, timestamp, wasSuspended, wasPending) =>
        PutStampedIff(w.s, order, timestamp, wasSuspended, wasPending);
        PutRevisitedLaterIff(w.s, order, timestamp, wasSuspended, wasPending);
      case CheckOrderLater(order, timestamp) => CheckLaterIff(w.s, order, timestamp);
      case PopOrder(clock, retry, popped, expired) =>
        RevisitedKeepsAges(w.s, clock, 0, w.now, conf, weightOf);
        PopKeepsAges(Revisited(w.s, clock, 0, w.now, conf).0, w'.s, retry, popped, expired, conf, w'.now);
      case SuspendOrder(order) => assert forall e :: e in w'.s.pending ==> InQueues(w.s, e);
      case RechargeOrder(order) => assert forall e :: e in w'.s.suspended ==> InQueues(w.s, e);
      case RemoveOrder(id) => assert forall e :: InQueues(w'.s, e) ==> InQueues(w.s, e);
    }
  }

  lemma {:induction false} AgesOverRuns(ws: seq<World>, ops: seq<Op>, conf: Config, weightOf: OrderId -> nat, i: nat)
    requires IsRun(ws, ops, conf, weightOf) && i <= |ops|
    requires Holds(ws[0].s, ws[0].inFlight, ws[0].now, weightOf) && Stamped(ws[0].s) && RevisitedLater(ws[0].s)
    requires forall k :: 0 <= k < i ==> KeepsAges(ws[k], ops[k])
    ensures Stamped(ws[i].s) && RevisitedLater(ws[i].s)
  {
    if i > 0 {
      AgesOverRuns(ws, ops, conf, weightOf, i - 1);
      NeverStranded(ws, ops, conf, weightOf, i - 1);
      assert IsStep(ws, ops, i - 1, conf, weightOf);
      StepKeepsAges(ws[i - 1], ops[i - 1], ws[i], conf, weightOf);
    }
  }

  /**
   In every run whose puts and checks keep the ages, an order leaves the store only by being removed, or when it is
   older than the lifespan.
   */
  lemma DropsOnlyOld(ws: seq<World>, ops: seq<Op>, conf: Config, weightOf: OrderId -> nat, i: nat, id: OrderId)
    requires IsRun(ws, ops, conf, weightOf) && i < |ops|
    requires Holds(ws[0].s, ws[0].inFlight, ws[0].now, weightOf) && Stamped(ws[0].s) && RevisitedLater(ws[0].s)
    requires forall k :: 0 <= k < i ==> KeepsAges(ws[k], ops[k])
    requires id in ws[i].s.store && id !in ws[i + 1].s.store
    ensures ops[i] == RemoveOrder(id) || ws[i + 1].now - ws[i].s.store[id].timestamp > conf.orderLifespan
  {
    AgesOverRuns(ws, ops, conf, weightOf, i);
    NeverStranded(ws, ops, conf, weightOf, i);
    assert IsStep(ws, ops, i, conf, weightOf);
    if ops[i].PopOrder? {
      StepDropsOld(ws[i], ops[i], ws[i + 1], conf, weightOf, id);
    }
  }

  lemma StepDropsOld(w: World, op: Op, w': World, conf: Config, weightOf: OrderId -> nat, id: OrderId)
    requires Holds(w.s, w.inFlight, w.now, weightOf) && Stamped(w.s) && RevisitedLater(w.s)
    requires op.PopOrder? && Next(w, op, w', conf) && id in w.s.store && id !in w'.s.store
    ensures w'.now - w.s.store[id].timestamp > conf.orderLifespan
  {
    var (mid, _, reading) := Revisited(w.s, op.clock, 0, w.now, conf);
    RevisitKeeps(w.s, op.clock, 0, w.now, conf);
    if id in mid.store {
      RevisitedKeepsAges(w.s, op.clock, 0, w.now, conf, weightOf);
      PopDropsOld(mid, w'.s, op.retry, op.popped, op.expired, conf, w'.now, id);
    } else {
      RevisitDropsExpired(w.s, op.clock, 0, w.now, conf, id);
      var k :| 0 <= k < |w.s.revisit| && w.s.revisit[k].orderId == id
               && reading - w.s.revisit[k].timestamp > conf.orderLifespan;
      assert w.s.revisit[k] in w.s.revisit;
    }
  }

  /**
   An order that was removed and put again one second ago is dropped: the entry of the first put stayed behind,
   keeps the second one from being queued, and is older than the lifespan.
   */
  lemma FreshOrderIsDropped(conf: Config) returns (ws: seq<World>, ops: seq<Op>, order: Order)
    requires conf.orderLifespan == 60
    ensures IsRun(ws, ops, conf, _ => 1) && |ops| == 4
    ensures ws[0] == World(State(map[], map[], map[], []), {}, 0)
    ensures ops[3].PopOrder? && ws[4].now == 101
    ensures order.id in ws[3].s.store && ws[3].s.store[order.id].timestamp == 100 && order.id !in ws[4].s.store
  {
    order := Order(7, 1);
    var entry, clock := WeightedOrder(7, 0), (i: nat) => 101;
    var empty: State := State(map[], map[], map[], []);
    var first := State(map[7 := BacklogOrder(order, 0)], map[entry := 1], map[], []);
    var again := State(map[7 := BacklogOrder(order, 100)], map[entry := 1], map[], []);
    ws := [World(empty, {}, 0), World(first, {}, 0), World(first.(store := map[]), {}, 0), World(again, {}, 0),
           World(empty, {}, 101)];
    ops := [PutOrder(order, 0, None, None), RemoveOrder(7), PutOrder(order, 100, None, Some(entry)),
            PopOrder(clock, false, None, {entry})];
    assert AfterPut(empty, order, 0, None, None) == first;
    assert AfterPut(first.(store := map[]), order, 100, None, Some(entry)) == again;
    assert Ids({entry}) == {7};
    assert PoppedFrom(again, empty, false, None, {entry}, conf, 101);
  }
}
