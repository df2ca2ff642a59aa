/** The order backlog: a store, two priority queues and a first-in first-out queue of submitted orders. */
module Backlog {
  import opened Wrappers

  type OrderId = int

  datatype Order = Order(id: OrderId, weight: nat)
  datatype BacklogOrder = BacklogOrder(order: Order, timestamp: int)
  datatype WeightedOrder = WeightedOrder(orderId: OrderId, timestamp: int)

  /** Priorities of the queued entries; pushing an entry again replaces its priority. */
  type Queue = map<WeightedOrder, nat>

  datatype Config = Config(orderLifespan: int, orderExecTime: int, retrySuspendedProb: nat)

  datatype State = State(
    store: map<OrderId, BacklogOrder>,
    pending: Queue,
    suspended: Queue,
    revisit: seq<WeightedOrder>)

  ghost predicate Queued(q: Queue, id: OrderId) {
    exists w :: w in q && w.orderId == id
  }

  ghost predicate InRevisit(revisit: seq<WeightedOrder>, id: OrderId) {
    exists i :: 0 <= i < |revisit| && revisit[i].orderId == id
  }

  /** The entry, if any, that a search for the order returns. */
  ghost predicate Finds(q: Queue, id: OrderId, r: Option<WeightedOrder>) {
    match r
    case Some(w) => w in q && w.orderId == id
    case None => !Queued(q, id)
  }

  /** The order is in one of the queues or was handed out and not handed back. */
  ghost predicate Reachable(s: State, inFlight: set<OrderId>, id: OrderId) {
    Queued(s.pending, id) || Queued(s.suspended, id) || InRevisit(s.revisit, id) || id in inFlight
  }

  /** No stored order is stranded. */
  ghost predicate NoneStranded(s: State, inFlight: set<OrderId>) {
    forall id :: id in s.store ==> Reachable(s, inFlight, id)
  }

  /** An id fixes its order: orders are stored under their own id and queued with their own weight. */
  ghost predicate Weighted(s: State, weightOf: OrderId -> nat) {
    && (forall id :: id in s.store ==> s.store[id].order == Order(id, weightOf(id)))
    && (forall w :: w in s.pending ==> s.pending[w] == weightOf(w.orderId))
    && (forall w :: w in s.suspended ==> s.suspended[w] == weightOf(w.orderId))
  }

  /** The revisit queue is ordered by time and holds nothing from the future. */
  ghost predicate Sorted(revisit: seq<WeightedOrder>, now: int) {
    && (forall i, j :: 0 <= i < j < |revisit| ==> revisit[i].timestamp <= revisit[j].timestamp)
    && (forall i :: 0 <= i < |revisit| ==> revisit[i].timestamp <= now)
  }

  /** The invariant of the backlog. */
  ghost predicate Holds(s: State, inFlight: set<OrderId>, now: int, weightOf: OrderId -> nat) {
    && NoneStranded(s, inFlight)
    && Weighted(s, weightOf)
    && Sorted(s.revisit, now)
  }

  /** An entry that can still be executed: its order is stored and its life is not over. */
  ghost predicate Live(w: WeightedOrder, store: map<OrderId, BacklogOrder>, conf: Config, now: int) {
    w.orderId in store && now - w.timestamp <= conf.orderLifespan
  }

  ghost predicate IsMax(q: Queue, w: WeightedOrder) {
    w in q && forall v :: v in q ==> q[v] <= q[w]
  }

  ghost function Ids(ws: set<WeightedOrder>): set<OrderId> {
    set w | w in ws :: w.orderId
  }

  /** The orders of these entries are gone from the store because their life was over. */
  ghost predicate OnlyExpired(store: map<OrderId, BacklogOrder>, store': map<OrderId, BacklogOrder>,
                              expired: set<WeightedOrder>, conf: Config, now: int)
  {
    store' == store - Ids(expired) && forall w :: w in expired ==> now - w.timestamp > conf.orderLifespan
  }

  /**
   An entry of greatest priority among those whose orders are stored was popped, or there was none; on the
   way expired orders left the store and entries without an order were dropped.
   */
  ghost predicate TookMax(q: Queue, q': Queue, store: map<OrderId, BacklogOrder>, store': map<OrderId, BacklogOrder>,
                          popped: Option<WeightedOrder>, expired: set<WeightedOrder>, conf: Config, now: int)
  {
    && OnlyExpired(store, store', expired, conf, now) && expired <= q.Keys
    && (forall w :: w in q' ==> w in q && q'[w] == q[w])
    && (forall w :: w in q ==> w in q' || w.orderId !in store' || popped == Some(w))
    && match popped
       case Some(w) =>
         && w in q && w !in q' && Live(w, store', conf, now)
         && forall v :: v in q && v.orderId in store' ==> q[v] <= q[w]
       case None => q' == map[]
  }

  /** Remove the first entry of an order. */
  function Without(revisit: seq<WeightedOrder>, id: OrderId): seq<WeightedOrder> {
    if revisit == [] then []
    else if revisit[0].orderId == id then revisit[1..]
    else [revisit[0]] + Without(revisit[1..], id)
  }

  class BacklogService {
    var store: map<OrderId, BacklogOrder>
    const conf: Config
    var pending: Queue
    var suspended: Queue
    var revisit: seq<WeightedOrder>
    /** Orders handed out by `TryPop` and not handed back yet. */
    ghost var inFlight: set<OrderId>
    /** The clock: no reading is below an earlier one. */
    ghost var now: int

    ghost function View(): State
      reads this
    {
      State(store, pending, suspended, revisit)
    }

    ghost predicate Valid(weightOf: OrderId -> nat)
      reads this
    {
      Holds(View(), inFlight, now, weightOf)
    }

    /** Every stored order is restored as pending. */
    constructor (store: map<OrderId, BacklogOrder>, conf: Config, ghost weightOf: OrderId -> nat, ghost now: int)
      requires forall id :: id in store ==> store[id].order == Order(id, weightOf(id))
      ensures Valid(weightOf) && this.store == store && this.conf == conf
      ensures suspended == map[] && revisit == [] && inFlight == {}
      ensures forall w :: w in pending <==> w.orderId in store && w.timestamp == store[w.orderId].timestamp
    {
      this.store, this.conf := store, conf;
      var queue: Queue := map[];
      var left := store.Keys;
      while left != {}
        invariant left <= store.Keys
        invariant forall w :: w in queue <==>
                    w.orderId in store.Keys - left && w.timestamp == store[w.orderId].timestamp
        invariant forall w :: w in queue ==> queue[w] == weightOf(w.orderId)
        decreases |left|
      {
        var id := Pick(left);
        queue := queue[WeightedOrder(id, store[id].timestamp) := store[id].order.weight];
        left := left - {id};
      }
      pending, suspended, revisit := queue, map[], [];
      inFlight := {};
      this.now := now;
      new;
      forall id | id in store ensures Queued(pending, id) {
        assert WeightedOrder(id, store[id].timestamp) in pending;
      }
    }

    /** Put a new order; it ends up pending and leaves the other queues. */
    method Put(order: Order, timestamp: int, ghost weightOf: OrderId -> nat)
      returns (ghost wasSuspended: Option<WeightedOrder>, ghost wasPending: Option<WeightedOrder>)
      requires Valid(weightOf) && order == Order(order.id, weightOf(order.id))
      modifies this
      ensures Valid(weightOf) && now == old(now) && inFlight == old(inFlight) - {order.id}
      ensures Finds(old(suspended), order.id, wasSuspended) && Finds(old(pending), order.id, wasPending)
      ensures View() == AfterPut(old(View()), order, timestamp, wasSuspended, wasPending)
    {
      var inSuspended := FindEntry(suspended, order.id);
      var inPending := FindEntry(pending, order.id);
      var revisited := RemoveFirst(revisit, order.id);
      wasSuspended, wasPending := inSuspended, inPending;
      PutHolds(View(), inFlight, now, weightOf, order, timestamp, inSuspended, inPending);
      if order.id !in store { store := store[order.id := BacklogOrder(order, timestamp)]; }
      if inSuspended.Some? { suspended := suspended - {inSuspended.value}; }
      if inPending.None? { pending := pending[WeightedOrder(order.id, timestamp) := order.weight]; }
      revisit := revisited;
      inFlight := inFlight - {order.id};
      assert View() == AfterPut(old(View()), order, timestamp, wasSuspended, wasPending);
    }

    /** Suspend a failed order. */
    method Suspend(order: Order, ghost weightOf: OrderId -> nat) returns (r: bool)
      requires Valid(weightOf) && order == Order(order.id, weightOf(order.id))
      modifies this
      ensures Valid(weightOf) && now == old(now) && inFlight == old(inFlight) - {order.id}
      ensures View() == AfterSuspend(old(View()), order) && (r <==> order.id in old(store))
    {
      SuspendHolds(View(), inFlight, now, weightOf, order);
      r := order.id in store;
      inFlight := inFlight - {order.id};
      if r { suspended := suspended[WeightedOrder(order.id, store[order.id].timestamp) := order.weight]; }
    }

    /** Remember a submitted order, stamped with the current time, to check on it later. */
    method CheckLater(order: Order, timestamp: int, ghost weightOf: OrderId -> nat) returns (r: bool)
      requires Valid(weightOf) && now <= timestamp
      modifies this
      ensures Valid(weightOf) && now == timestamp && inFlight == old(inFlight) - {order.id}
      ensures View() == AfterCheckLater(old(View()), order, timestamp) && (r <==> order.id in old(store))
    {
      CheckLaterHolds(View(), inFlight, now, weightOf, order, timestamp);
      r := order.id in store;
      inFlight, now := inFlight - {order.id}, timestamp;
      if r { revisit := revisit + [WeightedOrder(order.id, timestamp)]; }
    }

    /** Hand an order back to the pending queue. */
    method Recharge(order: Order, ghost weightOf: OrderId -> nat)
      requires Valid(weightOf) && order == Order(order.id, weightOf(order.id))
      modifies this
      ensures Valid(weightOf) && now == old(now) && inFlight == old(inFlight) - {order.id}
      ensures View() == AfterRecharge(old(View()), order)
    {
      RechargeHolds(View(), inFlight, now, weightOf, order);
      inFlight := inFlight - {order.id};
      if order.id in store {
        pending := pending[WeightedOrder(order.id, store[order.id].timestamp) := order.weight];
      }
    }

    /** Remove an order; its queue entries stay behind and are skipped later. */
    method Remove(id: OrderId, ghost weightOf: OrderId -> nat)
      requires Valid(weightOf)
      modifies this
      ensures Valid(weightOf) && now == old(now) && inFlight == old(inFlight)
      ensures View() == AfterRemove(old(View()), id)
    {
      RemoveHolds(View(), inFlight, now, weightOf, id);
      store := store - {id};
    }

    /** Take the front off the revisit queue: its order is pending again, or removed if it has expired. */
    method RevisitFront(reading: int)
      requires revisit != []
      modifies this`store, this`pending, this`revisit
      ensures View() == AfterRevisit(old(View()), reading, conf)
    {
      var entry := revisit[0];
      revisit := revisit[1..];
      if reading - entry.timestamp <= conf.orderLifespan {
        if entry.orderId in store {
          var stored := store[entry.orderId];
          pending := pending[WeightedOrder(stored.order.id, stored.timestamp) := stored.order.weight];
        }
      } else {
        store := store - {entry.orderId};
      }
    }

    /** Move orders that should have settled by now back to the pending queue. */
    method RevisitProgressingOrders(clock: nat -> int, from: nat) returns (next: nat)
      modifies this`store, this`pending, this`revisit, this`now
      ensures (View(), next, now) == Revisited(old(View()), clock, from, old(now), conf)
    {
      next := from;
      while revisit != []
        invariant Revisited(View(), clock, next, now, conf) == Revisited(old(View()), clock, from, old(now), conf)
        decreases |revisit|
      {
        var reading := clock(next);
        next, now := next + 1, reading;
        if reading - revisit[0].timestamp <= conf.orderExecTime {
          // Too soon: the entry goes back to the front, and the entries behind it are younger.
          break;
        }
        RevisitFront(reading);
      }
    }

    /** Pop the best order of the pending queue, or of the suspended queue when the draw says so. */
    method TryPop(clock: nat -> int, draw: nat, ghost weightOf: OrderId -> nat)
      returns (r: Option<Order>, ghost mid: State, ghost popped: Option<WeightedOrder>,
               ghost expired: set<WeightedOrder>)
      requires Valid(weightOf) && Ticks(clock) && now <= clock(0)
      modifies this
      ensures Valid(weightOf) && mid == Revisited(old(View()), clock, 0, old(now), conf).0
      ensures PoppedFrom(mid, View(), draw < conf.retrySuspendedProb, popped, expired, conf, now)
      ensures r == match popped case Some(w) => Some(store[w.orderId].order) case None => None
      ensures inFlight == HandedOut(old(inFlight), popped)
    {
      RevisitAdvances(View(), clock, 0, now, conf);
      RevisitedHolds(View(), inFlight, clock, 0, now, conf, weightOf);
      var n := RevisitProgressingOrders(clock, 0);
      mid := View();
      ghost var before := now;
      r, popped, expired := PopFrom(draw, clock, n);
      PopHolds(mid, old(inFlight), before, View(), draw < conf.retrySuspendedProb, popped, expired, conf, now,
               weightOf);
    }

    method PopFrom(draw: nat, clock: nat -> int, from: nat)
      returns (r: Option<Order>, ghost popped: Option<WeightedOrder>, ghost expired: set<WeightedOrder>)
      requires Ticks(clock) && now <= clock(from)
      modifies this`store, this`pending, this`suspended, this`inFlight, this`now
      ensures old(now) <= now
      ensures PoppedFrom(old(View()), View(), draw < conf.retrySuspendedProb, popped, expired, conf, now)
      ensures r == match popped case Some(w) => Some(store[w.orderId].order) case None => None
      ensures inFlight == HandedOut(old(inFlight), popped)
    {
      var n;
      if draw >= conf.retrySuspendedProb {
        r, store, pending, n, popped, now, expired := PopMaxOrder(conf, store, pending, clock, from, now);
      } else {
        r, store, suspended, n, popped, now, expired := PopMaxOrder(conf, store, suspended, clock, from, now);
      }
      inFlight := HandedOut(inFlight, popped);
    }
  }

  /**
   Pop entries by weight until one can still be executed: expired orders are removed from the store,
   entries without an order are dropped.
   */
  method PopMaxOrder(conf: Config, store: map<OrderId, BacklogOrder>, queue: Queue, clock: nat -> int, from: nat,
                     ghost now: int)
    returns (r: Option<Order>, store': map<OrderId, BacklogOrder>, queue': Queue, next: nat,
             ghost popped: Option<WeightedOrder>, ghost now': int, ghost expired: set<WeightedOrder>)
    requires Ticks(clock) && now <= clock(from)
    ensures from <= next && now <= now' <= clock(next)
    ensures TookMax(queue, queue', store, store', popped, expired, conf, now')
    ensures r == match popped case Some(w) => Some(store'[w.orderId].order) case None => None
  {
    r, store', queue', next, popped, now', expired := None, store, queue, from, None, now, {};
    while queue' != map[]
      invariant from <= next && now <= now' <= clock(next)
      invariant OnlyExpired(store, store', expired, conf, now') && expired <= queue.Keys
      invariant forall w :: w in queue' ==> w in queue && queue'[w] == queue[w]
      invariant forall w :: w in queue ==> w in queue' || w.orderId !in store'
      decreases |queue'|
    {
      var w := MaxEntry(queue');
      queue' := queue' - {w};
      var reading := clock(next);
      next := next + 1;
      now' := reading;
      if reading - w.timestamp > conf.orderLifespan {
        store' := store' - {w.orderId};
        IdsOfMore(expired, w);
        expired := expired + {w};
      } else if w.orderId in store' {
        popped := Some(w);
        return Some(store'[w.orderId].order), store', queue', next, popped, now', expired;
      }
    }
  }

  /** An entry of greatest priority. */
  method MaxEntry(queue: Queue) returns (w: WeightedOrder)
    requires queue != map[]
    ensures IsMax(queue, w)
  {
    assert queue.Keys != {};
    w := Pick(queue.Keys);
    var left := queue.Keys - {w};
    while left != {}
      invariant left <= queue.Keys && w in queue
      invariant forall v :: v in queue && v !in left ==> queue[v] <= queue[w]
      decreases |left|
    {
      var v := Pick(left);
      if queue[v] > queue[w] { w := v; }
      left := left - {v};
    }
  }

  /** Some entry of the given order, if there is one. */
  method FindEntry(queue: Queue, id: OrderId) returns (r: Option<WeightedOrder>)
    ensures Finds(queue, id, r)
  {
    var left := queue.Keys;
    while left != {}
      invariant left <= queue.Keys
      invariant forall w :: w in queue && w !in left ==> w.orderId != id
      decreases |left|
    {
      var w := Pick(left);
      if w.orderId == id { return Some(w); }
      left := left - {w};
    }
    r := None;
  }

  /** Drop the first entry of an order from the revisit queue. */
  method RemoveFirst(revisit: seq<WeightedOrder>, id: OrderId) returns (r: seq<WeightedOrder>)
    ensures r == Without(revisit, id)
  {
    var i := 0;
    while i < |revisit| && revisit[i].orderId != id
      invariant 0 <= i <= |revisit|
      invariant Without(revisit, id) == revisit[..i] + Without(revisit[i..], id)
    {
      assert revisit[i..][1..] == revisit[i + 1..];
      assert revisit[..i + 1] == revisit[..i] + [revisit[i]];
      i := i + 1;
    }
    if i < |revisit| {
      assert revisit[i..][1..] == revisit[i + 1..];
      r := revisit[..i] + revisit[i + 1..];
    } else {
      r := revisit;
    }
  }

  // ---------------------------------------------------------------- facts about the queues

  lemma IdsOfMore(ws: set<WeightedOrder>, w: WeightedOrder)
    ensures Ids(ws + {w}) == Ids(ws) + {w.orderId}
  {
  }

  /** A clock whose readings never go backwards. */
  ghost predicate Ticks(clock: nat -> int) {
    forall i: nat, j: nat :: i <= j ==> clock(i) <= clock(j)
  }

  lemma {:induction false} WithoutSorted(revisit: seq<WeightedOrder>, id: OrderId, now: int)
    requires Sorted(revisit, now)
    ensures Sorted(Without(revisit, id), now)
    ensures forall w :: w in Without(revisit, id) ==> w in revisit
  {
    if revisit != [] && revisit[0].orderId != id {
      WithoutSorted(revisit[1..], id, now);
      assert forall w :: w in revisit[1..] ==> revisit[0].timestamp <= w.timestamp;
    }
  }

  lemma {:induction false} WithoutKeeps(revisit: seq<WeightedOrder>, id: OrderId, other: OrderId)
    requires other != id && InRevisit(revisit, other)
    ensures InRevisit(Without(revisit, id), other)
  {
    var i :| 0 <= i < |revisit| && revisit[i].orderId == other;
    if revisit[0].orderId == id {
      assert revisit[1..][i - 1].orderId == other;
    } else if i == 0 {
      assert Without(revisit, id)[0].orderId == other;
    } else {
      assert revisit[1..][i - 1].orderId == other;
      WithoutKeeps(revisit[1..], id, other);
      var rest := Without(revisit[1..], id);
      var j :| 0 <= j < |rest| && rest[j].orderId == other;
      assert Without(revisit, id)[j + 1].orderId == other;
    }
  }

  /** An operation on one order strands no other order. */
  lemma OthersKept(s: State, inFlight: set<OrderId>, s': State, inFlight': set<OrderId>, id: OrderId)
    requires NoneStranded(s, inFlight)
    requires s'.store.Keys <= s.store.Keys + {id} && inFlight - {id} <= inFlight'
    requires forall w :: w in s.pending && w.orderId != id ==> w in s'.pending
    requires forall w :: w in s.suspended && w.orderId != id ==> w in s'.suspended
    requires forall other :: other != id && InRevisit(s.revisit, other) ==> InRevisit(s'.revisit, other)
    requires id in s'.store ==> Reachable(s', inFlight', id)
    ensures NoneStranded(s', inFlight')
  {
  }

  /** The state after `Put`, given the queue entries found for the order. */
  ghost function AfterPut(s: State, order: Order, timestamp: int, wasSuspended: Option<WeightedOrder>,
                          wasPending: Option<WeightedOrder>): State
  {
    State(if order.id in s.store then s.store else s.store[order.id := BacklogOrder(order, timestamp)],
          if wasPending.Some? then s.pending else s.pending[WeightedOrder(order.id, timestamp) := order.weight],
          if wasSuspended.Some? then s.suspended - {wasSuspended.value} else s.suspended,
          Without(s.revisit, order.id))
  }

  lemma PutHolds(s: State, inFlight: set<OrderId>, now: int, weightOf: OrderId -> nat, order: Order, timestamp: int,
                 wasSuspended: Option<WeightedOrder>, wasPending: Option<WeightedOrder>)
    requires Holds(s, inFlight, now, weightOf) && order == Order(order.id, weightOf(order.id))
    requires Finds(s.suspended, order.id, wasSuspended) && Finds(s.pending, order.id, wasPending)
    ensures Holds(AfterPut(s, order, timestamp, wasSuspended, wasPending), inFlight - {order.id}, now, weightOf)
  {
    var s', id := AfterPut(s, order, timestamp, wasSuspended, wasPending), order.id;
    WithoutSorted(s.revisit, id, now);
    var entry := if wasPending.Some? then wasPending.value else WeightedOrder(id, timestamp);
    assert entry in s'.pending && entry.orderId == id;
    forall other | other != id && InRevisit(s.revisit, other) ensures InRevisit(s'.revisit, other) {
      WithoutKeeps(s.revisit, id, other);
    }
    OthersKept(s, inFlight, s', inFlight - {id}, id);
  }

  ghost function AfterSuspend(s: State, order: Order): State {
    if order.id !in s.store then s
    else s.(suspended := s.suspended[WeightedOrder(order.id, s.store[order.id].timestamp) := order.weight])
  }

  ghost function AfterCheckLater(s: State, order: Order, timestamp: int): State {
    if order.id !in s.store then s else s.(revisit := s.revisit + [WeightedOrder(order.id, timestamp)])
  }

  ghost function AfterRecharge(s: State, order: Order): State {
    if order.id !in s.store then s
    else s.(pending := s.pending[WeightedOrder(order.id, s.store[order.id].timestamp) := order.weight])
  }

  ghost function AfterRemove(s: State, id: OrderId): State {
    s.(store := s.store - {id})
  }

  lemma SuspendHolds(s: State, inFlight: set<OrderId>, now: int, weightOf: OrderId -> nat, order: Order)
    requires Holds(s, inFlight, now, weightOf) && order == Order(order.id, weightOf(order.id))
    ensures Holds(AfterSuspend(s, order), inFlight - {order.id}, now, weightOf)
  {
  }

  lemma CheckLaterHolds(s: State, inFlight: set<OrderId>, now: int, weightOf: OrderId -> nat, order: Order,
                        timestamp: int)
    requires Holds(s, inFlight, now, weightOf) && now <= timestamp
    ensures Holds(AfterCheckLater(s, order, timestamp), inFlight - {order.id}, timestamp, weightOf)
  {
    var s' := AfterCheckLater(s, order, timestamp);
    if order.id in s.store { assert s'.revisit[|s.revisit|].orderId == order.id; }
    forall other | InRevisit(s.revisit, other) ensures InRevisit(s'.revisit, other) {
      var i :| 0 <= i < |s.revisit| && s.revisit[i].orderId == other;
      assert s'.revisit[i].orderId == other;
    }
    OthersKept(s, inFlight, s', inFlight - {order.id}, order.id);
  }

  lemma RechargeHolds(s: State, inFlight: set<OrderId>, now: int, weightOf: OrderId -> nat, order: Order)
    requires Holds(s, inFlight, now, weightOf) && order == Order(order.id, weightOf(order.id))
    ensures Holds(AfterRecharge(s, order), inFlight - {order.id}, now, weightOf)
  {
  }

  lemma RemoveHolds(s: State, inFlight: set<OrderId>, now: int, weightOf: OrderId -> nat, id: OrderId)
    requires Holds(s, inFlight, now, weightOf)
    ensures Holds(AfterRemove(s, id), inFlight, now, weightOf)
  {
  }

  ghost function HandedOut(inFlight: set<OrderId>, popped: Option<WeightedOrder>): set<OrderId> {
    match popped case Some(w) => inFlight + {w.orderId} case None => inFlight
  }

  /** The suspended queue was popped if the draw said to retry, the pending one otherwise; nothing else changed. */
  ghost predicate PoppedFrom(s: State, s': State, retry: bool, popped: Option<WeightedOrder>,
                             expired: set<WeightedOrder>, conf: Config, now: int)
  {
    if retry then
      && s' == s.(store := s'.store, suspended := s'.suspended)
      && TookMax(s.suspended, s'.suspended, s.store, s'.store, popped, expired, conf, now)
    else
      && s' == s.(store := s'.store, pending := s'.pending)
      && TookMax(s.pending, s'.pending, s.store, s'.store, popped, expired, conf, now)
  }

  /** Popping an entry strands nobody: what is popped is handed out, what is dropped is not stored. */
  lemma PopHolds(s: State, inFlight: set<OrderId>, now: int, s': State, retry: bool, popped: Option<WeightedOrder>,
                 expired: set<WeightedOrder>, conf: Config, now': int, weightOf: OrderId -> nat)
    requires Holds(s, inFlight, now, weightOf) && PoppedFrom(s, s', retry, popped, expired, conf, now') && now <= now'
    ensures Holds(s', HandedOut(inFlight, popped), now', weightOf)
  {
    forall id | id in s'.store ensures Reachable(s', HandedOut(inFlight, popped), id) {
      assert Reachable(s, inFlight, id);
      if Queued(s.pending, id) {
        var w :| w in s.pending && w.orderId == id;
        assert w in s'.pending || popped == Some(w);
      } else if Queued(s.suspended, id) {
        var w :| w in s.suspended && w.orderId == id;
        assert w in s'.suspended || popped == Some(w);
      }
    }
  }

  /** The state after the front of the revisit queue has been dealt with. */
  ghost function AfterRevisit(s: State, now: int, conf: Config): State
    requires s.revisit != []
  {
    var entry, left := s.revisit[0], s.(revisit := s.revisit[1..]);
    if now - entry.timestamp > conf.orderLifespan then left.(store := s.store - {entry.orderId})
    else if entry.orderId !in s.store then left
    else
      var stored := s.store[entry.orderId];
      left.(pending := s.pending[WeightedOrder(stored.order.id, stored.timestamp) := stored.order.weight])
  }

  lemma RevisitHolds(s: State, inFlight: set<OrderId>, now: int, conf: Config, weightOf: OrderId -> nat)
    requires s.revisit != [] && Holds(s, inFlight, now, weightOf)
    ensures Holds(AfterRevisit(s, now, conf), inFlight, now, weightOf)
    ensures s.revisit[0].orderId in AfterRevisit(s, now, conf).store ==>
              Queued(AfterRevisit(s, now, conf).pending, s.revisit[0].orderId)
    ensures forall id :: Queued(s.pending, id) ==> Queued(AfterRevisit(s, now, conf).pending, id)
  {
    var s', id := AfterRevisit(s, now, conf), s.revisit[0].orderId;
    if id in s'.store {
      assert WeightedOrder(id, s.store[id].timestamp) in s'.pending;
    }
    forall other | Queued(s.pending, other) ensures Queued(s'.pending, other) {
      var w :| w in s.pending && w.orderId == other;
      assert w in s'.pending;
    }
    forall other | other != id && InRevisit(s.revisit, other) ensures InRevisit(s'.revisit, other) {
      var i :| 0 <= i < |s.revisit| && s.revisit[i].orderId == other;
      assert s'.revisit[i - 1].orderId == other;
    }
    OthersKept(s, inFlight, s', inFlight, id);
  }

  /** The front of the revisit queue is dealt with until it is too recent; the last reading is the new time. */
  ghost function Revisited(s: State, clock: nat -> int, next: nat, now: int, conf: Config): (State, nat, int)
    decreases |s.revisit|
  {
    if s.revisit == [] then (s, next, now)
    else if clock(next) - s.revisit[0].timestamp <= conf.orderExecTime then (s, next + 1, clock(next))
    else Revisited(AfterRevisit(s, clock(next), conf), clock, next + 1, clock(next), conf)
  }

  lemma {:induction false} RevisitAdvances(s: State, clock: nat -> int, next: nat, now: int, conf: Config)
    requires Ticks(clock) && now <= clock(next)
    ensures var (_, next', now') := Revisited(s, clock, next, now, conf);
            next <= next' && now <= now' <= clock(next') && (s.revisit != [] ==> clock(next) <= now')
    decreases |s.revisit|
  {
    if s.revisit != [] && clock(next) - s.revisit[0].timestamp > conf.orderExecTime {
      RevisitAdvances(AfterRevisit(s, clock(next), conf), clock, next + 1, clock(next), conf);
    }
  }

  /** Revisiting keeps the invariant: nobody is stranded. */
  lemma {:induction false} RevisitedHolds(s: State, inFlight: set<OrderId>, clock: nat -> int, next: nat, now: int,
                                          conf: Config, weightOf: OrderId -> nat)
    requires Holds(s, inFlight, now, weightOf) && Ticks(clock) && now <= clock(next)
    ensures Holds(Revisited(s, clock, next, now, conf).0, inFlight, Revisited(s, clock, next, now, conf).2, weightOf)
    decreases |s.revisit|
  {
    if s.revisit != [] {
      var reading := clock(next);
      assert Holds(s, inFlight, reading, weightOf);
      if reading - s.revisit[0].timestamp > conf.orderExecTime {
        RevisitHolds(s, inFlight, reading, conf, weightOf);
        RevisitedHolds(AfterRevisit(s, reading, conf), inFlight, clock, next + 1, reading, conf, weightOf);
      }
    }
  }

  ghost predicate AllRecent(revisit: seq<WeightedOrder>, conf: Config, now: int) {
    forall i :: 0 <= i < |revisit| ==> now - revisit[i].timestamp <= conf.orderExecTime
  }

  /** The early exit is complete: no entry older than the execution time is left. */
  lemma {:induction false} RevisitIsComplete(s: State, clock: nat -> int, next: nat, now: int, conf: Config)
    requires Sorted(s.revisit, now) && Ticks(clock) && now <= clock(next)
    ensures var (s', _, now') := Revisited(s, clock, next, now, conf);
            AllRecent(s'.revisit, conf, now')
    decreases |s.revisit|
  {
    if s.revisit != [] {
      if clock(next) - s.revisit[0].timestamp > conf.orderExecTime {
        var after := AfterRevisit(s, clock(next), conf);
        assert Revisited(s, clock, next, now, conf) == Revisited(after, clock, next + 1, clock(next), conf);
        RevisitIsComplete(after, clock, next + 1, clock(next), conf);
      } else {
        assert Revisited(s, clock, next, now, conf) == (s, next + 1, clock(next));
      }
    }
  }

  /** The entries taken are the front of the queue. */
  lemma {:induction false} RevisitTakesFront(s: State, clock: nat -> int, next: nat, now: int, conf: Config)
    ensures var left := Revisited(s, clock, next, now, conf).0.revisit;
            |left| <= |s.revisit| && left == s.revisit[|s.revisit| - |left|..]
    decreases |s.revisit|
  {
    if s.revisit != [] && clock(next) - s.revisit[0].timestamp > conf.orderExecTime {
      RevisitTakesFront(AfterRevisit(s, clock(next), conf), clock, next + 1, clock(next), conf);
    }
  }

  /** Revisiting takes nothing off the pending queue, leaves the suspended queue alone and stores nothing new. */
  lemma {:induction false} RevisitKeeps(s: State, clock: nat -> int, next: nat, now: int, conf: Config)
    ensures var s' := Revisited(s, clock, next, now, conf).0;
            && s'.suspended == s.suspended
            && (forall w :: w in s.pending ==> w in s'.pending)
            && (forall id :: id in s'.store ==> id in s.store && s'.store[id] == s.store[id])
    decreases |s.revisit|
  {
    if s.revisit != [] && clock(next) - s.revisit[0].timestamp > conf.orderExecTime {
      RevisitKeeps(AfterRevisit(s, clock(next), conf), clock, next + 1, clock(next), conf);
    }
  }

  /** Each entry taken was older than the execution time, and its order is pending again or no longer stored. */
  lemma {:induction false} RevisitSettles(s: State, clock: nat -> int, next: nat, now: int, conf: Config, i: nat)
    requires Ticks(clock) && now <= clock(next)
    requires forall id :: id in s.store ==> s.store[id].order.id == id
    requires i < |s.revisit| - |Revisited(s, clock, next, now, conf).0.revisit|
    ensures var (s', _, now') := Revisited(s, clock, next, now, conf);
            && now' - s.revisit[i].timestamp > conf.orderExecTime
            && (s.revisit[i].orderId in s'.store ==> Queued(s'.pending, s.revisit[i].orderId))
    decreases |s.revisit|
  {
    var reading, id := clock(next), s.revisit[0].orderId;
    var after := AfterRevisit(s, reading, conf);
    RevisitAdvances(after, clock, next + 1, reading, conf);
    RevisitKeeps(after, clock, next + 1, reading, conf);
    if i > 0 {
      RevisitSettles(after, clock, next + 1, reading, conf, i - 1);
    } else if id in after.store {
      assert WeightedOrder(id, s.store[id].timestamp) in Revisited(s, clock, next, now, conf).0.pending;
    }
  }

  ghost predicate HasOutlived(revisit: seq<WeightedOrder>, id: OrderId, conf: Config, now: int) {
    exists i :: 0 <= i < |revisit| && revisit[i].orderId == id && now - revisit[i].timestamp > conf.orderLifespan
  }

  /** An order leaves the store during revisiting only if an entry of it has outlived the lifespan. */
  lemma {:induction false} RevisitDropsExpired(s: State, clock: nat -> int, next: nat, now: int, conf: Config,
                                               id: OrderId)
    requires Ticks(clock) && now <= clock(next)
    requires id in s.store && id !in Revisited(s, clock, next, now, conf).0.store
    ensures HasOutlived(s.revisit, id, conf, Revisited(s, clock, next, now, conf).2)
    decreases |s.revisit|
  {
    var after := AfterRevisit(s, clock(next), conf);
    RevisitAdvances(after, clock, next + 1, clock(next), conf);
    if id in after.store {
      RevisitDropsExpired(after, clock, next + 1, clock(next), conf, id);
      assert after.revisit == s.revisit[1..];
    }
  }

  /** The popped order is stored, alive and of maximum weight among the live entries; nothing live is lost. */
  lemma PopIsOptimal(s: State, inFlight: set<OrderId>, now: int, weightOf: OrderId -> nat, q: Queue, q': Queue,
                     store': map<OrderId, BacklogOrder>, popped: Option<WeightedOrder>, expired: set<WeightedOrder>,
                     conf: Config, now': int)
    requires Holds(s, inFlight, now, weightOf) && (q == s.pending || q == s.suspended)
    requires TookMax(q, q', s.store, store', popped, expired, conf, now')
    ensures forall v :: v in q && Live(v, store', conf, now') ==>
              popped.Some? && store'[v.orderId].order.weight <= store'[popped.value.orderId].order.weight
    ensures forall v :: v in q && Live(v, store', conf, now') ==> v in q' || popped == Some(v)
    ensures forall id :: id in s.store && id !in store' ==>
              exists w :: w in q && w.orderId == id && now' - w.timestamp > conf.orderLifespan
  {
  }

  // ---------------------------------------------------------------- runs

  datatype World = World(s: State, inFlight: set<OrderId>, now: int)

  datatype Op =
    | PutOrder(order: Order, timestamp: int, wasSuspended: Option<WeightedOrder>, wasPending: Option<WeightedOrder>)
    | SuspendOrder(order: Order)
    | CheckOrderLater(order: Order, timestamp: int)
    | RechargeOrder(order: Order)
    | RemoveOrder(id: OrderId)
    | PopOrder(clock: nat -> int, retry: bool, popped: Option<WeightedOrder>, expired: set<WeightedOrder>)

  /** One operation of the backlog, with the choices it leaves open. */
  ghost predicate Next(w: World, op: Op, w': World, conf: Config) {
    match op
    case PutOrder(order, timestamp, wasSuspended, wasPending) =>
      && Finds(w.s.suspended, order.id, wasSuspended) && Finds(w.s.pending, order.id, wasPending)
      && w' == World(AfterPut(w.s, order, timestamp, wasSuspended, wasPending), w.inFlight - {order.id}, w.now)
    case SuspendOrder(order) => w' == World(AfterSuspend(w.s, order), w.inFlight - {order.id}, w.now)
    case CheckOrderLater(order, timestamp) =>
      w.now <= timestamp && w' == World(AfterCheckLater(w.s, order, timestamp), w.inFlight - {order.id}, timestamp)
    case RechargeOrder(order) => w' == World(AfterRecharge(w.s, order), w.inFlight - {order.id}, w.now)
    case RemoveOrder(id) => w' == World(AfterRemove(w.s, id), w.inFlight, w.now)
    case PopOrder(clock, retry, popped, expired) =>
      && Ticks(clock) && w.now <= clock(0)
      && var (mid, _, reading) := Revisited(w.s, clock, 0, w.now, conf);
      && reading <= w'.now && PoppedFrom(mid, w'.s, retry, popped, expired, conf, w'.now)
      && w'.inFlight == HandedOut(w.inFlight, popped)
  }

  /** An order always comes with the weight that its id fixes. */
  ghost predicate Genuine(op: Op, weightOf: OrderId -> nat) {
    (op.PutOrder? || op.SuspendOrder? || op.RechargeOrder?) ==> op.order == Order(op.order.id, weightOf(op.order.id))
  }

  ghost predicate IsRun(ws: seq<World>, ops: seq<Op>, conf: Config, weightOf: OrderId -> nat) {
    |ws| == |ops| + 1 && forall i :: 0 <= i < |ops| ==> IsStep(ws, ops, i, conf, weightOf)
  }

  ghost predicate IsStep(ws: seq<World>, ops: seq<Op>, i: nat, conf: Config, weightOf: OrderId -> nat)
    requires |ws| == |ops| + 1 && i < |ops|
  {
    Genuine(ops[i], weightOf) && Next(ws[i], ops[i], ws[i + 1], conf)
  }

  lemma StepHolds(w: World, op: Op, w': World, conf: Config, weightOf: OrderId -> nat)
    requires Holds(w.s, w.inFlight, w.now, weightOf) && Genuine(op, weightOf) && Next(w, op, w', conf)
    ensures Holds(w'.s, w'.inFlight, w'.now, weightOf)
  {
    match op {
      case PutOrder(order, timestamp, wasSuspended, wasPending) =>
        PutHolds(w.s, w.inFlight, w.now, weightOf, order, timestamp, wasSuspended, wasPending);
      case SuspendOrder(order) => SuspendHolds(w.s, w.inFlight, w.now, weightOf, order);
      case CheckOrderLater(order, timestamp) => CheckLaterHolds(w.s, w.inFlight, w.now, weightOf, order, timestamp);
      case RechargeOrder(order) => RechargeHolds(w.s, w.inFlight, w.now, weightOf, order);
      case RemoveOrder(id) => RemoveHolds(w.s, w.inFlight, w.now, weightOf, id);
      case PopOrder(clock, retry, popped, expired) =>
        RevisitedHolds(w.s, w.inFlight, clock, 0, w.now, conf, weightOf);
        var (mid, _, reading) := Revisited(w.s, clock, 0, w.now, conf);
        PopHolds(mid, w.inFlight, reading, w'.s, retry, popped, expired, conf, w'.now, weightOf);
    }
  }

  /** In every run each stored order is queued somewhere, or was popped and not handed back; no order is stranded. */
  lemma {:induction false} NeverStranded(ws: seq<World>, ops: seq<Op>, conf: Config, weightOf: OrderId -> nat, i: nat)
    requires IsRun(ws, ops, conf, weightOf) && i <= |ops|
    requires Holds(ws[0].s, ws[0].inFlight, ws[0].now, weightOf)
    ensures Holds(ws[i].s, ws[i].inFlight, ws[i].now, weightOf)
  {
    if i > 0 {
      NeverStranded(ws, ops, conf, weightOf, i - 1);
      assert IsStep(ws, ops, i - 1, conf, weightOf);
      StepHolds(ws[i - 1], ops[i - 1], ws[i], conf, weightOf);
    }
  }
}
