/** Which queue an order is in, and which pops can return it. */
module BacklogQueues {
  import opened Wrappers
  import opened Backlog

  // ---------------------------------------------------------------- one operation

  /** A suspended order is in the suspended queue, and the others are as before. */
  lemma SuspendedIsQueued(s: State, order: Order)
    requires order.id in s.store
    ensures var s' := AfterSuspend(s, order);
            && s'.store == s.store && s'.pending == s.pending && s'.revisit == s.revisit
            && Queued(s'.suspended, order.id)
            && forall w :: w in s'.suspended ==>
                 w in s.suspended || (w.orderId == order.id && s'.suspended[w] == order.weight)
  {
    assert WeightedOrder(order.id, s.store[order.id].timestamp) in AfterSuspend(s, order).suspended;
  }

  /** A recharged order is in the pending queue, and the others are as before. */
  lemma RechargedIsQueued(s: State, order: Order)
    requires order.id in s.store
    ensures var s' := AfterRecharge(s, order);
            && s'.store == s.store && s'.suspended == s.suspended && s'.revisit == s.revisit
            && Queued(s'.pending, order.id)
            && forall w :: w in s'.pending ==>
                 w in s.pending || (w.orderId == order.id && s'.pending[w] == order.weight)
  {
    assert WeightedOrder(order.id, s.store[order.id].timestamp) in AfterRecharge(s, order).pending;
  }

  /** The entries of an order in the revisit queue. */
  function EntriesOf(revisit: seq<WeightedOrder>, id: OrderId): seq<WeightedOrder> {
    if revisit == [] then []
    else (if revisit[0].orderId == id then [revisit[0]] else []) + EntriesOf(revisit[1..], id)
  }

  /** An order that is put is pending, and the first revisit entry of it is gone, while other orders keep theirs. */
  lemma {:induction false} WithoutEntries(revisit: seq<WeightedOrder>, id: OrderId, other: OrderId)
    ensures EntriesOf(Without(revisit, id), other) ==
            if other == id && EntriesOf(revisit, id) != [] then EntriesOf(revisit, id)[1..]
            else EntriesOf(revisit, other)
  {
    if revisit != [] {
      if revisit[0].orderId == id {
        if other == id { assert EntriesOf(revisit, id)[1..] == EntriesOf(revisit[1..], id); }
      } else {
        WithoutEntries(revisit[1..], id, other);
        var rest := Without(revisit, id);
        assert rest[0] == revisit[0] && rest[1..] == Without(revisit[1..], id);
      }
    }
  }

  lemma {:induction false} EntriesAreThere(revisit: seq<WeightedOrder>, id: OrderId)
    ensures EntriesOf(revisit, id) == [] <==> !InRevisit(revisit, id)
  {
    if revisit != [] {
      EntriesAreThere(revisit[1..], id);
      if i :| 0 <= i < |revisit| && revisit[i].orderId == id {
        if i > 0 { assert revisit[1..][i - 1].orderId == id; }
      }
      if i :| 0 <= i < |revisit[1..]| && revisit[1..][i].orderId == id { assert revisit[i + 1].orderId == id; }
    }
  }

  ghost predicate OneEntry(q: Queue, id: OrderId) {
    forall v, w :: v in q && w in q && v.orderId == w.orderId == id ==> v == w
  }

  /**
   An order that is put is pending. It leaves the revisit queue if it had one entry there, and the suspended
   queue if it had one entry there, so that only the pending queue returns it.
   */
  lemma PutIsPending(s: State, order: Order, timestamp: int, wasSuspended: Option<WeightedOrder>,
                     wasPending: Option<WeightedOrder>)
    requires Finds(s.suspended, order.id, wasSuspended) && Finds(s.pending, order.id, wasPending)
    ensures var s' := AfterPut(s, order, timestamp, wasSuspended, wasPending);
            && order.id in s'.store && Queued(s'.pending, order.id)
            && (|EntriesOf(s.revisit, order.id)| <= 1 ==> !InRevisit(s'.revisit, order.id))
            && (OneEntry(s.suspended, order.id) ==> !Queued(s'.suspended, order.id))
  {
    var s' := AfterPut(s, order, timestamp, wasSuspended, wasPending);
    WithoutEntries(s.revisit, order.id, order.id);
    EntriesAreThere(s.revisit, order.id);
    EntriesAreThere(s'.revisit, order.id);
    var entry := if wasPending.Some? then wasPending.value else WeightedOrder(order.id, timestamp);
    assert entry in s'.pending && entry.orderId == order.id;
  }

  // ---------------------------------------------------------------- what revisiting adds

  lemma FrontIsAnother(s: State, now: int, conf: Config, weightOf: OrderId -> nat, id: OrderId)
    requires Weighted(s, weightOf) && s.revisit != [] && s.revisit[0].orderId != id && !Queued(s.pending, id)
    ensures !Queued(AfterRevisit(s, now, conf).pending, id) && Weighted(AfterRevisit(s, now, conf), weightOf)
  {
  }

  /** Revisiting makes only orders pending that have a revisit entry old enough. */
  lemma {:induction false} RevisitAddsOnlyOld(s: State, clock: nat -> int, next: nat, now: int, conf: Config,
                                              weightOf: OrderId -> nat, id: OrderId)
    requires Weighted(s, weightOf) && Ticks(clock) && now <= clock(next)
    requires !Queued(s.pending, id) && Queued(Revisited(s, clock, next, now, conf).0.pending, id)
    ensures exists i :: 0 <= i < |s.revisit| && s.revisit[i].orderId == id
              && Revisited(s, clock, next, now, conf).2 - s.revisit[i].timestamp > conf.orderExecTime
    decreases |s.revisit|
  {
    var reading := clock(next);
    var after := AfterRevisit(s, reading, conf);
    RevisitAdvances(after, clock, next + 1, reading, conf);
    if s.revisit[0].orderId != id {
      FrontIsAnother(s, reading, conf, weightOf, id);
      RevisitAddsOnlyOld(after, clock, next + 1, reading, conf, weightOf, id);
      var i :| 0 <= i < |after.revisit| && after.revisit[i].orderId == id
        && Revisited(s, clock, next, now, conf).2 - after.revisit[i].timestamp > conf.orderExecTime;
      assert s.revisit[i + 1] == after.revisit[i];
    }
  }

  lemma PopKeepsOut(q: Queue, q': Queue, id: OrderId)
    requires !Queued(q, id) && forall w :: w in q' ==> w in q
    ensures !Queued(q', id)
  {
  }

  lemma {:induction false} RevisitTakesOnly(s: State, clock: nat -> int, next: nat, now: int, conf: Config)
    ensures forall w :: w in Revisited(s, clock, next, now, conf).0.revisit ==> w in s.revisit
    decreases |s.revisit|
  {
    if s.revisit != [] && clock(next) - s.revisit[0].timestamp > conf.orderExecTime {
      RevisitTakesOnly(AfterRevisit(s, clock(next), conf), clock, next + 1, clock(next), conf);
    }
  }

  // ---------------------------------------------------------------- over runs

  /** The order is neither pending nor to be revisited. */
  ghost predicate OnlySuspended(s: State, id: OrderId) {
    !Queued(s.pending, id) && !InRevisit(s.revisit, id)
  }

  /** The operation hands the order to the pending or the revisit queue. */
  predicate HandsOver(op: Op, id: OrderId) {
    (op.PutOrder? || op.RechargeOrder? || op.CheckOrderLater?) && op.order.id == id
  }

  /** The operation returns the order. */
  predicate Returns(op: Op, id: OrderId) {
    op.PopOrder? && op.popped.Some? && op.popped.value.orderId == id
  }

  lemma StepKeepsSuspended(w: World, op: Op, w': World, conf: Config, weightOf: OrderId -> nat, id: OrderId)
    requires Holds(w.s, w.inFlight, w.now, weightOf) && Next(w, op, w', conf)
    requires OnlySuspended(w.s, id) && !HandsOver(op, id)
    ensures OnlySuspended(w'.s, id)
    ensures Returns(op, id) ==> op.retry
  {
    match op {
      case PutOrder(order, timestamp, wasSuspended, wasPending) =>
        PutsOther(w.s, order, timestamp, wasSuspended, wasPending, id);
      case SuspendOrder(order) =>
      case CheckOrderLater(order, timestamp) =>
      case RechargeOrder(order) =>
      case RemoveOrder(_) =>
      case PopOrder(clock, retry, popped, expired) =>
        var mid := Revisited(w.s, clock, 0, w.now, conf).0;
        if Queued(mid.pending, id) { RevisitAddsOnlyOld(w.s, clock, 0, w.now, conf, weightOf, id); }
        RevisitTakesOnly(w.s, clock, 0, w.now, conf);
        NotInPart(w.s.revisit, mid.revisit, id);
        if !retry { PopKeepsOut(mid.pending, w'.s.pending, id); }
    }
  }

  lemma NotInPart(all: seq<WeightedOrder>, part: seq<WeightedOrder>, id: OrderId)
    requires !InRevisit(all, id) && forall w :: w in part ==> w in all
    ensures !InRevisit(part, id)
  {
    forall i | 0 <= i < |part| ensures part[i].orderId != id { assert part[i] in all; }
  }

  /** Putting another order leaves this one's entries. */
  lemma PutsOther(s: State, order: Order, timestamp: int, wasSuspended: Option<WeightedOrder>,
                  wasPending: Option<WeightedOrder>, id: OrderId)
    requires order.id != id && OnlySuspended(s, id)
    ensures OnlySuspended(AfterPut(s, order, timestamp, wasSuspended, wasPending), id)
  {
    WithoutEntries(s.revisit, order.id, id);
    EntriesAreThere(s.revisit, id);
    EntriesAreThere(Without(s.revisit, order.id), id);
  }

  /**
   A suspended order that is neither pending nor to be revisited is returned only by pops of the suspended queue,
   until it is put, recharged or checked again.
   */
  lemma {:induction false} SuspendedOnlyRetried(ws: seq<World>, ops: seq<Op>, conf: Config, weightOf: OrderId -> nat,
                                                i: nat, j: nat, id: OrderId)
    requires IsRun(ws, ops, conf, weightOf) && i <= j < |ops|
    requires Holds(ws[0].s, ws[0].inFlight, ws[0].now, weightOf) && OnlySuspended(ws[i].s, id)
    requires forall k :: i <= k <= j ==> !HandsOver(ops[k], id)
    ensures OnlySuspended(ws[j + 1].s, id)
    ensures Returns(ops[j], id) ==> ops[j].retry
  {
    if j > i { SuspendedOnlyRetried(ws, ops, conf, weightOf, i, j - 1, id); }
    SuspendedAt(ws, ops, conf, weightOf, j, id);
  }

  lemma SuspendedAt(ws: seq<World>, ops: seq<Op>, conf: Config, weightOf: OrderId -> nat, j: nat, id: OrderId)
    requires IsRun(ws, ops, conf, weightOf) && j < |ops| && Holds(ws[0].s, ws[0].inFlight, ws[0].now, weightOf)
    requires OnlySuspended(ws[j].s, id) && !HandsOver(ops[j], id)
    ensures OnlySuspended(ws[j + 1].s, id)
    ensures Returns(ops[j], id) ==> ops[j].retry
  {
    NeverStranded(ws, ops, conf, weightOf, j);
    assert IsStep(ws, ops, j, conf, weightOf);
    StepKeepsSuspended(ws[j], ops[j], ws[j + 1], conf, weightOf, id);
  }

  lemma UnsuspendedAt(ws: seq<World>, ops: seq<Op>, conf: Config, weightOf: OrderId -> nat, j: nat, id: OrderId)
    requires IsRun(ws, ops, conf, weightOf) && j < |ops| && !Queued(ws[j].s.suspended, id)
    requires !(ops[j].SuspendOrder? && ops[j].order.id == id)
    ensures !Queued(ws[j + 1].s.suspended, id)
    ensures Returns(ops[j], id) ==> !ops[j].retry
  {
    assert IsStep(ws, ops, j, conf, weightOf);
    StepKeepsUnsuspended(ws[j], ops[j], ws[j + 1], conf, id);
  }

  lemma StepKeepsUnsuspended(w: World, op: Op, w': World, conf: Config, id: OrderId)
    requires Next(w, op, w', conf) && !Queued(w.s.suspended, id) && !(op.SuspendOrder? && op.order.id == id)
    ensures !Queued(w'.s.suspended, id)
    ensures Returns(op, id) ==> !op.retry
  {
    if op.PopOrder? { RevisitKeeps(w.s, op.clock, 0, w.now, conf); }
  }

  /** An order that is not suspended is never returned by pops of the suspended queue, until it is suspended. */
  lemma {:induction false} NeverRetriedUnlessSuspended(ws: seq<World>, ops: seq<Op>, conf: Config,
                                                       weightOf: OrderId -> nat, i: nat, j: nat, id: OrderId)
    requires IsRun(ws, ops, conf, weightOf) && i <= j < |ops| && !Queued(ws[i].s.suspended, id)
    requires forall k :: i <= k <= j ==> !(ops[k].SuspendOrder? && ops[k].order.id == id)
    ensures !Queued(ws[j + 1].s.suspended, id)
    ensures Returns(ops[j], id) ==> !ops[j].retry
  {
    if j > i { NeverRetriedUnlessSuspended(ws, ops, conf, weightOf, i, j - 1, id); }
    UnsuspendedAt(ws, ops, conf, weightOf, j, id);
  }

  /** The order is only to be revisited, since the given time or later. */
  ghost predicate OnlyToRevisit(s: State, id: OrderId, since: int) {
    && !Queued(s.pending, id) && !Queued(s.suspended, id)
    && forall w :: w in s.revisit && w.orderId == id ==> w.timestamp >= since
  }

  /** A submitted order joins the revisit queue only, and is not returned before the execution time has passed. */
  lemma CheckedIsOnlyToRevisit(s: State, order: Order, timestamp: int)
    requires order.id in s.store && OnlyToRevisit(s, order.id, timestamp)
    ensures InRevisit(AfterCheckLater(s, order, timestamp).revisit, order.id)
    ensures OnlyToRevisit(AfterCheckLater(s, order, timestamp), order.id, timestamp)
  {
    var s' := AfterCheckLater(s, order, timestamp);
    assert s'.revisit[|s.revisit|].orderId == order.id;
  }

  lemma NotReturnedEarly(w: World, op: Op, w': World, conf: Config, weightOf: OrderId -> nat, id: OrderId, since: int)
    requires Holds(w.s, w.inFlight, w.now, weightOf) && Next(w, op, w', conf) && op.PopOrder?
    requires OnlyToRevisit(w.s, id, since) && w'.now - since <= conf.orderExecTime
    ensures OnlyToRevisit(w'.s, id, since) && !Returns(op, id)
  {
    var (mid, _, reading) := Revisited(w.s, op.clock, 0, w.now, conf);
    assert forall i :: 0 <= i < |w.s.revisit| && w.s.revisit[i].orderId == id ==> w.s.revisit[i].timestamp >= since;
    if Queued(mid.pending, id) { RevisitAddsOnlyOld(w.s, op.clock, 0, w.now, conf, weightOf, id); }
    RevisitTakesOnly(w.s, op.clock, 0, w.now, conf);
    RevisitKeeps(w.s, op.clock, 0, w.now, conf);
    if op.retry { PopKeepsOut(mid.suspended, w'.s.suspended, id); } else { PopKeepsOut(mid.pending, w'.s.pending, id); }
  }

  /** A pop that reads the clock before the execution time is over. */
  ghost predicate PopsEarly(ws: seq<World>, ops: seq<Op>, k: nat, conf: Config, since: int)
    requires k < |ops| && |ws| == |ops| + 1
  {
    ops[k].PopOrder? && ws[k + 1].now - since <= conf.orderExecTime
  }

  /** A submitted order stays away from the executor until the execution time has passed. */
  lemma {:induction false} CheckedIsNotReturnedEarly(
    ws: seq<World>, ops: seq<Op>, conf: Config, weightOf: OrderId -> nat, i: nat, j: nat, id: OrderId, since: int)
    requires IsRun(ws, ops, conf, weightOf) && i <= j < |ops|
    requires Holds(ws[0].s, ws[0].inFlight, ws[0].now, weightOf) && OnlyToRevisit(ws[i].s, id, since)
    requires forall k :: i <= k <= j ==> PopsEarly(ws, ops, k, conf, since)
    ensures OnlyToRevisit(ws[j + 1].s, id, since) && !Returns(ops[j], id)
  {
    if j > i { CheckedIsNotReturnedEarly(ws, ops, conf, weightOf, i, j - 1, id, since); }
    assert PopsEarly(ws, ops, j, conf, since);
    CheckedAt(ws, ops, conf, weightOf, j, id, since);
  }

  lemma CheckedAt(ws: seq<World>, ops: seq<Op>, conf: Config, weightOf: OrderId -> nat, j: nat, id: OrderId, since: int)
    requires IsRun(ws, ops, conf, weightOf) && j < |ops| && Holds(ws[0].s, ws[0].inFlight, ws[0].now, weightOf)
    requires OnlyToRevisit(ws[j].s, id, since) && ops[j].PopOrder? && ws[j + 1].now - since <= conf.orderExecTime
    ensures OnlyToRevisit(ws[j + 1].s, id, since) && !Returns(ops[j], id)
  {
    NeverStranded(ws, ops, conf, weightOf, j);
    assert IsStep(ws, ops, j, conf, weightOf);
    NotReturnedEarly(ws[j], ops[j], ws[j + 1], conf, weightOf, id, since);
  }
}
