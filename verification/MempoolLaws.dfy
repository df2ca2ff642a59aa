/** What a mempool synchronisation queues for each transaction, and how many blocks the window spans. */
module MempoolLaws {
  import opened Wrappers
  import opened Chain
  import opened Mempool

  // ---------------------------------------------------------------- one synchronisation

  /** The updates that a synchronisation queues. */
  function NewUpdates(s: State, gone: seq<TxId>, pool: seq<Tx>): seq<MempoolUpdate> {
    var (m, removed) := Eliminated(s.projection, s.latestBlocks, gone);
    removed + Admitted(m, pool).1
  }

  lemma {:induction false} AboutConcat(us: seq<MempoolUpdate>, vs: seq<MempoolUpdate>, id: TxId)
    ensures About(us + vs, id) == About(us, id) + About(vs, id)
  {
    if vs == [] {
      assert us + vs == us;
    } else {
      assert DropLast(us + vs) == us + DropLast(vs) && Last(us + vs) == Last(vs);
      AboutConcat(us, DropLast(vs), id);
    }
  }

  lemma AboutOne(us: seq<MempoolUpdate>, u: MempoolUpdate, id: TxId)
    ensures About(us + [u], id) == About(us, id) + if u.tx.id == id then [u] else []
  {
    assert DropLast(us + [u]) == us;
  }

  ghost predicate OwnIds(m: Projection) {
    forall id :: id in m ==> m[id].id == id
  }

  /** The one update about a transaction that left: it is confirmed exactly when one of the blocks holds it. */
  ghost predicate IsFarewell(us: seq<MempoolUpdate>, tx: Tx, w: Window, id: TxId) {
    && |us| == 1 && us[0].tx == tx && !us[0].TxAccepted?
    && (us[0].TxConfirmed? <==> exists i :: 0 <= i < |w| && id in w[i])
    && (us[0].TxWithdrawn? <==> forall i :: 0 <= i < |w| ==> id !in w[i])
  }

  lemma {:induction false} EliminatedAbout(m: Projection, w: Window, ids: seq<TxId>, id: TxId)
    requires OwnIds(m)
    ensures var (m', us) := Eliminated(m, w, ids);
            && OwnIds(m') && (id in m' <==> id in m && id !in ids) && (id in m' ==> m'[id] == m[id])
            && if id in m && id in ids then IsFarewell(About(us, id), m[id], w, id) else About(us, id) == []
  {
    if ids != [] {
      var front, last := DropLast(ids), Last(ids);
      EliminatedAbout(m, w, front, id);
      var (m', us) := Eliminated(m, w, front);
      assert ids == front + [last];
      if last in m' { AboutOne(us, Fate(w, m'[last], last), id); }
    }
  }

  lemma {:induction false} AdmittedAbout(m: Projection, pool: seq<Tx>, id: TxId)
    ensures var (m', us) := Admitted(m, pool);
            && (id in m' <==> id in m || id in TxIds(pool))
            && if id !in m && id in TxIds(pool) then
                 |About(us, id)| == 1 && About(us, id)[0].TxAccepted? && About(us, id)[0].tx in pool
               else About(us, id) == []
  {
    if pool != [] {
      var front, last := DropLast(pool), Last(pool);
      AdmittedAbout(m, front, id);
      var (m', us) := Admitted(m, front);
      assert pool == front + [last] && TxIds(pool) == TxIds(front) + {last.id};
      if last.id !in m' { AboutOne(us, TxAccepted(last), id); }
    }
  }

  /**
   For every id a synchronisation queues: exactly one farewell if it was known and is not fetched any more,
   exactly one acceptance if it is fetched and was not known, and nothing otherwise.
   */
  lemma SyncAccounts(s: State, gone: seq<TxId>, pool: seq<Tx>, id: TxId)
    requires OwnIds(s.projection) && ListsGone(gone, s.projection, pool)
    ensures var us := About(NewUpdates(s, gone, pool), id);
            if id in s.projection && id !in TxIds(pool) then IsFarewell(us, s.projection[id], s.latestBlocks, id)
            else if id !in s.projection && id in TxIds(pool) then
              |us| == 1 && us[0].TxAccepted? && us[0].tx in pool && us[0].tx.id == id
            else us == []
  {
    var (m, removed) := Eliminated(s.projection, s.latestBlocks, gone);
    EliminatedAbout(s.projection, s.latestBlocks, gone, id);
    AdmittedAbout(m, pool, id);
    AboutConcat(removed, Admitted(m, pool).1, id);
    assert id in gone <==> id in s.projection.Keys - TxIds(pool);
    AboutIsAbout(NewUpdates(s, gone, pool), id);
  }

  lemma {:induction false} AboutIsAbout(us: seq<MempoolUpdate>, id: TxId)
    ensures forall u :: u in About(us, id) ==> u.tx.id == id && u in us
  {
    if us != [] {
      AboutIsAbout(DropLast(us), id);
      assert us == DropLast(us) + [Last(us)];
    }
  }

  lemma NewUpdatesAreQueued(w: World, gone: seq<TxId>, pool: seq<Tx>)
    ensures History(w.(state := Synced(w.state, gone, pool))) == History(w) + NewUpdates(w.state, gone, pool)
  {
  }

  // ---------------------------------------------------------------- the span of the window

  /** How many blocks the window spans after a log of upgrades: ten at most, one less after each rollback. */
  function Span(log: seq<ChainUpgrade>): nat {
    if log == [] then 0
    else
      var span := Span(DropLast(log));
      match Last(log)
      case RollForward(_) => if span < 10 then span + 1 else 10
      case RollBackward(_) => if span > 0 then span - 1 else 0
  }

  lemma SpanStep(log: seq<ChainUpgrade>, u: ChainUpgrade)
    ensures Span(log + [u]) == match u
                               case RollForward(_) => if Span(log) < 10 then Span(log) + 1 else 10
                               case RollBackward(_) => if Span(log) > 0 then Span(log) - 1 else 0
  {
    assert DropLast(log + [u]) == log && Last(log + [u]) == u;
  }

  lemma {:induction false} WindowSpans(ws: seq<World>, steps: seq<Step>, i: nat)
    requires IsRun(ws, steps) && i <= |steps|
    ensures |ws[i].state.latestBlocks| == Span(ws[i].log) <= 10
  {
    if i > 0 {
      WindowSpans(ws, steps, i - 1);
      assert Next(ws[i - 1], steps[i - 1], ws[i]);
      match steps[i - 1] {
        case Upgrade(u) =>
          SpanStep(ws[i - 1].log, u);
        case Deliver =>
        case SyncPool(_, _) =>
      }
    }
  }

  /** After as many blocks in a row as it can hold, the window is full; before, it holds at least those. */
  lemma {:induction false} SpanAfterForwards(log: seq<ChainUpgrade>, m: nat)
    requires m <= |log| && forall k :: |log| - m <= k < |log| ==> log[k].RollForward?
    ensures Span(log) >= if m < 10 then m else 10
    ensures Span(log) <= 10 && (m == |log| ==> Span(log) == if m < 10 then m else 10)
    decreases |log|
  {
    if log != [] { SpanAfterForwards(DropLast(log), if m > 0 then m - 1 else 0); }
  }

  /** A farewell is a confirmation exactly when the window holds the transaction. */
  lemma FarewellIff(s: State, gone: seq<TxId>, pool: seq<Tx>, n: nat)
    requires OwnIds(s.projection) && ListsGone(gone, s.projection, pool)
    requires n < |NewUpdates(s, gone, pool)| && !NewUpdates(s, gone, pool)[n].TxAccepted?
    ensures var u := NewUpdates(s, gone, pool)[n];
            u.TxConfirmed? <==> exists i :: 0 <= i < |s.latestBlocks| && u.tx.id in s.latestBlocks[i]
  {
    var us := NewUpdates(s, gone, pool);
    IsOneOf(us, n);
    SyncAccounts(s, gone, pool, us[n].tx.id);
  }

  /** Only a synchronisation queues updates, and it queues these. */
  lemma QueuedBySync(ws: seq<World>, steps: seq<Step>, i: nat)
    requires IsRun(ws, steps) && i < |steps| && |History(ws[i + 1])| > |History(ws[i])|
    ensures Holds(ws[i]) && steps[i].SyncPool? && ListsGone(steps[i].gone, ws[i].state.projection, steps[i].pool)
    ensures History(ws[i + 1]) == History(ws[i]) + NewUpdates(ws[i].state, steps[i].gone, steps[i].pool)
  {
    ProjectionOverRuns(ws, steps, i);
    assert Next(ws[i], steps[i], ws[i + 1]);
    StepKeeps(ws[i], steps[i], ws[i + 1]);
    NewUpdatesAreQueued(ws[i], steps[i].gone, steps[i].pool);
  }

  /**
   Every update about a transaction that left is a confirmation exactly when the transaction is in one of the
   blocks at the end of the replayed chain that the window spans.
   */
  lemma ConfirmedIff(ws: seq<World>, steps: seq<Step>, i: nat, k: nat)
    requires IsRun(ws, steps) && i < |steps| && Replay(ws[i].log).Some?
    requires |History(ws[i])| <= k < |History(ws[i + 1])| && !History(ws[i + 1])[k].TxAccepted?
    ensures var chain, u := Replay(ws[i].log).value, History(ws[i + 1])[k];
            && Span(ws[i].log) <= |chain|
            && (u.TxConfirmed? <==>
                  exists j :: |chain| - Span(ws[i].log) <= j < |chain| && u.tx.id in TxIds(chain[j].transactions))
  {
    QueuedBySync(ws, steps, i);
    WindowSpans(ws, steps, i);
    FarewellIff(ws[i].state, steps[i].gone, steps[i].pool, k - |History(ws[i])|);
    WindowIsEnd(ws[i].state.latestBlocks, Replay(ws[i].log).value, History(ws[i + 1])[k].tx.id);
  }

  lemma {:induction false} IsOneOf(us: seq<MempoolUpdate>, n: nat)
    requires n < |us|
    ensures us[n] in About(us, us[n].tx.id)
  {
    if n < |us| - 1 { IsOneOf(DropLast(us), n); }
  }

  lemma WindowIsEnd(w: Window, chain: seq<Block>, id: TxId)
    requires IsEndOf(w, chain)
    ensures (exists i :: 0 <= i < |w| && id in w[i]) <==>
            exists j :: |chain| - |w| <= j < |chain| && id in TxIds(chain[j].transactions)
  {
    assert forall i :: 0 <= i < |w| ==> w[i] == TxIds(chain[|chain| - |w| + i].transactions);
    if j :| |chain| - |w| <= j < |chain| && id in TxIds(chain[j].transactions) {
      assert id in w[j - (|chain| - |w|)];
    }
  }
}
