/** Mempool synchronisation: a window of recent blocks, a projection of the mempool and queued updates. */
module Mempool {
  import opened Wrappers
  import opened Chain

  datatype MempoolUpdate = TxAccepted(tx: Tx) | TxWithdrawn(tx: Tx) | TxConfirmed(tx: Tx)

  type Window = seq<set<TxId>>
  type Projection = map<TxId, Tx>

  const KEEP_LAST_BLOCKS: nat := 10

  datatype State = State(latestBlocks: Window, projection: Projection, pending: seq<MempoolUpdate>)

  function TxIds(txs: seq<Tx>): set<TxId> {
    set tx | tx in txs :: tx.id
  }

  function Pushed(w: Window, b: Block): Window {
    var longer := w + [TxIds(b.transactions)];
    if |longer| > KEEP_LAST_BLOCKS then longer[1..] else longer
  }

  function Popped(w: Window): Window {
    if w == [] then w else DropLast(w)
  }

  predicate InWindow(w: Window, id: TxId) {
    exists i :: 0 <= i < |w| && id in w[i]
  }

  /** What became of a transaction that left the mempool. */
  function Fate(w: Window, tx: Tx, id: TxId): MempoolUpdate {
    if InWindow(w, id) then TxConfirmed(tx) else TxWithdrawn(tx)
  }

  /** The projection and the queued updates after the given transactions left the mempool. */
  function Eliminated(m: Projection, w: Window, ids: seq<TxId>): (Projection, seq<MempoolUpdate>) {
    if ids == [] then (m, [])
    else
      var (m', us) := Eliminated(m, w, DropLast(ids));
      var id := Last(ids);
      if id in m' then (m' - {id}, us + [Fate(w, m'[id], id)]) else (m', us)
  }

  /** The projection and the queued updates after the fetched transactions are added. */
  function Admitted(m: Projection, pool: seq<Tx>): (Projection, seq<MempoolUpdate>) {
    if pool == [] then (m, [])
    else
      var (m', us) := Admitted(m, DropLast(pool));
      var tx := Last(pool);
      if tx.id in m' then (m', us) else (m'[tx.id := tx], us + [TxAccepted(tx)])
  }

  /** One synchronisation with the fetched pool; `gone` lists the vanished ids in iteration order. */
  function Synced(s: State, gone: seq<TxId>, pool: seq<Tx>): State {
    var (m, removed) := Eliminated(s.projection, s.latestBlocks, gone);
    var (m', added) := Admitted(m, pool);
    State(s.latestBlocks, m', s.pending + removed + added)
  }

  /** The sequence lists each id of the set once. */
  ghost predicate Lists(order: seq<TxId>, ids: set<TxId>) {
    && (forall i, j :: 0 <= i < j < |order| ==> order[i] != order[j])
    && (forall id :: id in order <==> id in ids)
  }

  /** The sequence lists exactly the ids that are in the projection and not in the fetched pool. */
  ghost predicate ListsGone(gone: seq<TxId>, m: Projection, pool: seq<Tx>) {
    Lists(gone, m.Keys - TxIds(pool))
  }

  class SyncState {
    var latestBlocks: Window
    var mempoolProjection: Projection
    var pendingUpdates: seq<MempoolUpdate>

    function View(): State
      reads this
    {
      State(latestBlocks, mempoolProjection, pendingUpdates)
    }

    constructor ()
      ensures View() == State([], map[], [])
    {
      latestBlocks, mempoolProjection, pendingUpdates := [], map[], [];
    }

    method PushBlock(b: Block)
      modifies this
      ensures View() == old(View()).(latestBlocks := Pushed(old(latestBlocks), b))
    {
      latestBlocks := latestBlocks + [TxIds(b.transactions)];
      if |latestBlocks| > KEEP_LAST_BLOCKS { latestBlocks := latestBlocks[1..]; }
    }

    method PopBlock()
      modifies this
      ensures View() == old(View()).(latestBlocks := Popped(old(latestBlocks)))
    {
      if latestBlocks != [] { latestBlocks := latestBlocks[..|latestBlocks| - 1]; }
    }

    method PopUpdate() returns (r: Option<MempoolUpdate>)
      modifies this
      ensures latestBlocks == old(latestBlocks) && mempoolProjection == old(mempoolProjection)
      ensures old(pendingUpdates) == (if r.Some? then [r.value] else []) + pendingUpdates
      ensures r.None? <==> old(pendingUpdates) == []
    {
      if pendingUpdates == [] { return None; }
      r := Some(pendingUpdates[0]);
      pendingUpdates := pendingUpdates[1..];
    }

    method Sync(pool: seq<Tx>) returns (ghost gone: seq<TxId>)
      modifies this
      ensures ListsGone(gone, old(mempoolProjection), pool)
      ensures View() == Synced(old(View()), gone, pool)
    {
      gone := Eliminate(mempoolProjection.Keys - TxIds(pool));
      Admit(pool);
    }

    /** Remove transactions, in any order, as confirmed or withdrawn. */
    method Eliminate(ids: set<TxId>) returns (ghost gone: seq<TxId>)
      modifies this
      ensures Lists(gone, ids)
      ensures latestBlocks == old(latestBlocks)
      ensures mempoolProjection == Eliminated(old(mempoolProjection), latestBlocks, gone).0
      ensures pendingUpdates == old(pendingUpdates) + Eliminated(old(mempoolProjection), latestBlocks, gone).1
    {
      var left := ids;
      gone := [];
      while left != {}
        invariant left <= ids && Lists(gone, ids - left)
        invariant latestBlocks == old(latestBlocks)
        invariant mempoolProjection == Eliminated(old(mempoolProjection), latestBlocks, gone).0
        invariant pendingUpdates == old(pendingUpdates) + Eliminated(old(mempoolProjection), latestBlocks, gone).1
        decreases |left|
      {
        var id := Pick(left);
        left := left - {id};
        assert DropLast(gone + [id]) == gone;
        gone := gone + [id];
        if id in mempoolProjection {
          var tx := mempoolProjection[id];
          mempoolProjection := mempoolProjection - {id};
          var confirmed := Contains(latestBlocks, id);
          pendingUpdates := pendingUpdates + [if confirmed then TxConfirmed(tx) else TxWithdrawn(tx)];
        }
      }
    }

    /** Add the transactions that are not known yet. */
    method Admit(pool: seq<Tx>)
      modifies this
      ensures latestBlocks == old(latestBlocks)
      ensures mempoolProjection == Admitted(old(mempoolProjection), pool).0
      ensures pendingUpdates == old(pendingUpdates) + Admitted(old(mempoolProjection), pool).1
    {
      for i := 0 to |pool|
        invariant latestBlocks == old(latestBlocks)
        invariant mempoolProjection == Admitted(old(mempoolProjection), pool[..i]).0
        invariant pendingUpdates == old(pendingUpdates) + Admitted(old(mempoolProjection), pool[..i]).1
      {
        assert DropLast(pool[..i + 1]) == pool[..i];
        var tx := pool[i];
        if tx.id !in mempoolProjection {
          mempoolProjection := mempoolProjection[tx.id := tx];
          pendingUpdates := pendingUpdates + [TxAccepted(tx)];
        }
      }
      assert pool[..|pool|] == pool;
    }
  }

  /** Whether one of the recent blocks holds the transaction. */
  method Contains(w: Window, id: TxId) returns (r: bool)
    ensures r <==> InWindow(w, id)
  {
    for i := 0 to |w|
      invariant forall j :: 0 <= j < i ==> id !in w[j]
    {
      if id in w[i] { return true; }
    }
    r := false;
  }

  // ---------------------------------------------------------------- the window

  ghost function BlockTxs(chain: seq<Block>): Window {
    seq(|chain|, i requires 0 <= i < |chain| => TxIds(chain[i].transactions))
  }

  /** The window is the end of the chain, at most ten blocks of it. */
  ghost predicate IsEndOf(w: Window, chain: seq<Block>) {
    |w| <= KEEP_LAST_BLOCKS && |w| <= |chain| && w == BlockTxs(chain)[|chain| - |w|..]
  }

  lemma PushKeepsEnd(w: Window, chain: seq<Block>, b: Block)
    requires IsEndOf(w, chain)
    ensures IsEndOf(Pushed(w, b), chain + [b])
  {
    var longer, txs := BlockTxs(chain), TxIds(b.transactions);
    assert BlockTxs(chain + [b]) == longer + [txs];
    assert w + [txs] == (longer + [txs])[|chain| - |w|..];
  }

  lemma PopKeepsEnd(w: Window, chain: seq<Block>)
    requires IsEndOf(w, chain) && chain != []
    ensures IsEndOf(Popped(w), DropLast(chain))
  {
    assert BlockTxs(chain) == BlockTxs(DropLast(chain)) + [TxIds(Last(chain).transactions)];
  }

  // ---------------------------------------------------------------- the updates

  /** A consumer's view of the mempool: every accepted transaction is added, every other update removes one. */
  function Fold(history: seq<MempoolUpdate>): Projection {
    if history == [] then map[]
    else
      match Last(history)
      case TxAccepted(tx) => Fold(DropLast(history))[tx.id := tx]
      case TxWithdrawn(tx) => Fold(DropLast(history)) - {tx.id}
      case TxConfirmed(tx) => Fold(DropLast(history)) - {tx.id}
  }

  /** The updates about one transaction. */
  function About(history: seq<MempoolUpdate>, id: TxId): seq<MempoolUpdate> {
    if history == [] then []
    else About(DropLast(history), id) + if Last(history).tx.id == id then [Last(history)] else []
  }

  /** Acceptance and removal take turns, beginning with acceptance, and a removal repeats what was accepted. */
  predicate Alternates(us: seq<MempoolUpdate>) {
    && (forall i :: 0 <= i < |us| ==> (us[i].TxAccepted? <==> i % 2 == 0))
    && (forall i, j :: 0 <= i < |us| && j == i + 1 < |us| && !us[j].TxAccepted? ==> us[j].tx == us[i].tx)
  }

  function Lookup(m: Projection, id: TxId): Option<Tx> {
    if id in m then Some(m[id]) else None
  }

  /** The updates about one transaction take turns and end with what the projection holds for it. */
  predicate EndsWith(us: seq<MempoolUpdate>, entry: Option<Tx>) {
    && Alternates(us)
    && (entry.Some? <==> |us| % 2 == 1)
    && (entry.Some? ==> Last(us).tx == entry.value)
  }

  /** The updates queued so far describe the projection. */
  ghost predicate Describes(history: seq<MempoolUpdate>, m: Projection) {
    && Fold(history) == m
    && (forall id :: id in m ==> m[id].id == id)
    && forall id :: EndsWith(About(history, id), Lookup(m, id))
  }

  /** What an update makes of the projection. */
  function Changed(m: Projection, u: MempoolUpdate): Projection {
    if u.TxAccepted? then m[u.tx.id := u.tx] else m - {u.tx.id}
  }

  lemma TurnTaken(us: seq<MempoolUpdate>, entry: Option<Tx>, u: MempoolUpdate)
    requires EndsWith(us, entry)
    requires entry == if u.TxAccepted? then None else Some(u.tx)
    ensures EndsWith(us + [u], if u.TxAccepted? then Some(u.tx) else None)
  {
  }

  lemma QueueKeeps(history: seq<MempoolUpdate>, m: Projection, u: MempoolUpdate)
    requires Describes(history, m)
    requires Lookup(m, u.tx.id) == if u.TxAccepted? then None else Some(u.tx)
    ensures Describes(history + [u], Changed(m, u))
  {
    var longer := history + [u];
    assert DropLast(longer) == history && Last(longer) == u;
    forall id ensures EndsWith(About(longer, id), Lookup(Changed(m, u), id)) {
      assert EndsWith(About(history, id), Lookup(m, id));
      if id == u.tx.id {
        TurnTaken(About(history, id), Lookup(m, id), u);
      } else {
        assert About(longer, id) == About(history, id);
      }
    }
  }

  lemma {:induction false} EliminatedDescribes(history: seq<MempoolUpdate>, m: Projection, w: Window, ids: seq<TxId>)
    requires Describes(history, m)
    ensures Describes(history + Eliminated(m, w, ids).1, Eliminated(m, w, ids).0)
    ensures forall id :: id in Eliminated(m, w, ids).0 <==> id in m && id !in ids
    ensures forall u :: u in Eliminated(m, w, ids).1 ==>
              u.tx.id in ids && u == Fate(w, u.tx, u.tx.id)
  {
    if ids == [] {
      assert history + [] == history;
    } else {
      EliminatedDescribes(history, m, w, DropLast(ids));
      var (m', us) := Eliminated(m, w, DropLast(ids));
      var id := Last(ids);
      assert ids == DropLast(ids) + [id];
      if id in m' {
        var u := Fate(w, m'[id], id);
        QueueKeeps(history + us, m', u);
        assert history + us + [u] == history + (us + [u]);
      }
    }
  }

  lemma {:induction false} AdmittedDescribes(history: seq<MempoolUpdate>, m: Projection, pool: seq<Tx>)
    requires Describes(history, m)
    ensures Describes(history + Admitted(m, pool).1, Admitted(m, pool).0)
    ensures Admitted(m, pool).0.Keys == m.Keys + TxIds(pool)
    ensures forall u :: u in Admitted(m, pool).1 ==> u.TxAccepted? && u.tx in pool
  {
    if pool == [] {
      assert history + [] == history;
    } else {
      AdmittedDescribes(history, m, DropLast(pool));
      var (m', us) := Admitted(m, DropLast(pool));
      var tx := Last(pool);
      assert pool == DropLast(pool) + [tx];
      assert TxIds(pool) == TxIds(DropLast(pool)) + {tx.id};
      if tx.id !in m' {
        QueueKeeps(history + us, m', TxAccepted(tx));
        assert history + us + [TxAccepted(tx)] == history + (us + [TxAccepted(tx)]);
      }
    }
  }

  // ---------------------------------------------------------------- runs

  /** The emitted chain upgrades, the updates handed out so far, and the state. */
  datatype World = World(log: seq<ChainUpgrade>, delivered: seq<MempoolUpdate>, state: State)

  datatype Step = Upgrade(u: ChainUpgrade) | Deliver | SyncPool(gone: seq<TxId>, pool: seq<Tx>)

  /** Every update ever queued. */
  function History(w: World): seq<MempoolUpdate> {
    w.delivered + w.state.pending
  }

  ghost predicate Next(w: World, step: Step, w': World) {
    match step
    case Upgrade(u) =>
      && Replay(w.log + [u]).Some?
      && w' == w.(log := w.log + [u],
                  state := w.state.(latestBlocks := match u
                                                    case RollForward(b) => Pushed(w.state.latestBlocks, b)
                                                    case RollBackward(_) => Popped(w.state.latestBlocks)))
    case Deliver =>
      && w.state.pending != []
      && w' == w.(delivered := w.delivered + [w.state.pending[0]], state := w.state.(pending := w.state.pending[1..]))
    case SyncPool(gone, pool) =>
      && ListsGone(gone, w.state.projection, pool)
      && w' == w.(state := Synced(w.state, gone, pool))
  }

  ghost predicate IsRun(ws: seq<World>, steps: seq<Step>) {
    && |ws| == |steps| + 1
    && ws[0] == World([], [], State([], map[], []))
    && forall i :: 0 <= i < |steps| ==> Next(ws[i], steps[i], ws[i + 1])
  }

  ghost predicate Holds(w: World) {
    && Replay(w.log).Some?
    && IsEndOf(w.state.latestBlocks, Replay(w.log).value)
    && Describes(History(w), w.state.projection)
  }

  /** After a synchronisation the projection holds exactly the fetched ids, and the new updates explain it. */
  lemma SyncDescribes(history: seq<MempoolUpdate>, s: State, gone: seq<TxId>, pool: seq<Tx>)
    requires Describes(history, s.projection) && ListsGone(gone, s.projection, pool)
    ensures var (m, removed) := Eliminated(s.projection, s.latestBlocks, gone);
            var (m', added) := Admitted(m, pool);
            Describes(history + removed + added, m') && m'.Keys == TxIds(pool)
  {
    EliminatedDescribes(history, s.projection, s.latestBlocks, gone);
    var (m, removed) := Eliminated(s.projection, s.latestBlocks, gone);
    forall id | id in m ensures id in TxIds(pool) {
      assert id in s.projection && id !in gone;
    }
    AdmittedDescribes(history + removed, m, pool);
  }

  lemma SyncKeeps(w: World, gone: seq<TxId>, pool: seq<Tx>)
    requires Holds(w) && ListsGone(gone, w.state.projection, pool)
    ensures var w' := w.(state := Synced(w.state, gone, pool));
            Holds(w') && History(w) <= History(w') && w'.state.projection.Keys == TxIds(pool)
  {
    SyncDescribes(History(w), w.state, gone, pool);
    var (m, removed) := Eliminated(w.state.projection, w.state.latestBlocks, gone);
    assert History(w.(state := Synced(w.state, gone, pool))) == History(w) + removed + Admitted(m, pool).1;
  }

  /**
   A synchronisation accepts only fetched transactions; what left the mempool is confirmed if it is in one
   of the recent blocks, and withdrawn otherwise.
   */
  lemma SyncQueues(w: World, gone: seq<TxId>, pool: seq<Tx>, k: nat)
    requires Holds(w) && ListsGone(gone, w.state.projection, pool)
    requires |History(w)| <= k < |History(w.(state := Synced(w.state, gone, pool)))|
    ensures var u := History(w.(state := Synced(w.state, gone, pool)))[k];
            if u.TxAccepted? then u.tx in pool
            else u == Fate(w.state.latestBlocks, u.tx, u.tx.id) && u.tx.id !in TxIds(pool)
  {
    var h, m := History(w), w.state.projection;
    EliminatedDescribes(h, m, w.state.latestBlocks, gone);
    var (m', removed) := Eliminated(m, w.state.latestBlocks, gone);
    AdmittedDescribes(h + removed, m', pool);
    var added := Admitted(m', pool).1;
    var u := History(w.(state := Synced(w.state, gone, pool)))[k];
    assert u == (h + removed + added)[k];
    assert u in removed || u in added;
  }

  /** A chain upgrade queues nothing and keeps the window at the end of the chain. */
  lemma UpgradeKeeps(w: World, u: ChainUpgrade, w': World)
    requires Holds(w) && Next(w, Upgrade(u), w')
    ensures Holds(w') && History(w') == History(w)
  {
    var window, chain := w.state.latestBlocks, Replay(w.log).value;
    assert DropLast(w.log + [u]) == w.log && Last(w.log + [u]) == u;
    match u {
      case RollForward(b) => PushKeepsEnd(window, chain, b);
      case RollBackward(_) => PopKeepsEnd(window, chain);
    }
  }

  lemma DeliverKeeps(w: World, w': World)
    requires Holds(w) && Next(w, Deliver, w')
    ensures Holds(w') && History(w') == History(w)
  {
    assert History(w') == History(w);
  }

  lemma StepKeeps(w: World, step: Step, w': World)
    requires Holds(w) && Next(w, step, w')
    ensures Holds(w') && History(w) <= History(w')
    ensures !step.SyncPool? ==> History(w') == History(w)
  {
    match step {
      case Upgrade(u) => UpgradeKeeps(w, u, w');
      case Deliver => DeliverKeeps(w, w');
      case SyncPool(gone, pool) => SyncKeeps(w, gone, pool);
    }
  }

  lemma NothingYet()
    ensures Holds(World([], [], State([], map[], [])))
  {
    assert History(World([], [], State([], map[], []))) == [];
  }

  /**
   In every run the queued updates fold to the projection, the updates of each transaction take turns, and
   the window is the end of the replayed chain.
   */
  lemma {:induction false} ProjectionOverRuns(ws: seq<World>, steps: seq<Step>, i: nat)
    requires IsRun(ws, steps) && i <= |steps|
    ensures Holds(ws[i])
  {
    if i == 0 {
      NothingYet();
    } else {
      ProjectionOverRuns(ws, steps, i - 1);
      StepKeeps(ws[i - 1], steps[i - 1], ws[i]);
    }
  }

  /** A transaction lies in one of the last ten blocks of a chain. */
  ghost predicate RecentlyIn(chain: seq<Block>, id: TxId) {
    exists j :: 0 <= j < |chain| && |chain| - KEEP_LAST_BLOCKS <= j && id in TxIds(chain[j].transactions)
  }

  lemma WindowIsRecent(w: Window, chain: seq<Block>, id: TxId)
    requires IsEndOf(w, chain) && InWindow(w, id)
    ensures RecentlyIn(chain, id)
  {
    var j :| 0 <= j < |w| && id in w[j];
    assert w[j] == TxIds(chain[|chain| - |w| + j].transactions);
  }

  /** Every confirmation queued in a run is of a transaction in one of the last ten blocks at that moment. */
  lemma ConfirmedIsOnChain(ws: seq<World>, steps: seq<Step>, i: nat, k: nat)
    requires IsRun(ws, steps) && i < |steps| && Replay(ws[i].log).Some?
    requires |History(ws[i])| <= k < |History(ws[i + 1])| && History(ws[i + 1])[k].TxConfirmed?
    ensures RecentlyIn(Replay(ws[i].log).value, History(ws[i + 1])[k].tx.id)
  {
    ProjectionOverRuns(ws, steps, i);
    StepKeeps(ws[i], steps[i], ws[i + 1]);
    SyncQueues(ws[i], steps[i].gone, steps[i].pool, k);
    WindowIsRecent(ws[i].state.latestBlocks, Replay(ws[i].log).value, History(ws[i + 1])[k].tx.id);
  }
}
