/**
 The persistent chain cache: a bounded window of blocks spread over parent, child, height and
 transaction keys, with records of the best and the oldest block. Keys with different suffixes have
 different encodings, so each kind of key is a map of its own.
 */
module RocksCache {
  import opened Wrappers
  import opened Chain

  datatype Store = Store(
    parent: map<BlockId, BlockId>,
    child: map<BlockId, BlockId>,
    height: map<BlockId, nat>,
    txIds: map<BlockId, seq<TxId>>,
    txs: map<TxId, Tx>,
    best: Option<BlockRecord>,
    oldest: Option<BlockRecord>)

  const EMPTY_STORE: Store := Store(map[], map[], map[], map[], map[], None, None)

  function TxIds(txs: seq<Tx>): seq<TxId> {
    seq(|txs|, i requires 0 <= i < |txs| => txs[i].id)
  }

  function PutTxs(m: map<TxId, Tx>, txs: seq<Tx>): map<TxId, Tx> {
    if txs == [] then m else PutTxs(m, DropLast(txs))[Last(txs).id := Last(txs)]
  }

  /** Remove the given transactions. */
  function DeleteTxs(m: map<TxId, Tx>, ids: seq<TxId>): map<TxId, Tx> {
    m - Elems(ids)
  }

  function Elems(ids: seq<TxId>): set<TxId> {
    set id | id in ids
  }

  lemma ElemsOfPrefix(ids: seq<TxId>, i: nat)
    requires i < |ids|
    ensures Elems(ids[..i + 1]) == Elems(ids[..i]) + {ids[i]}
  {
  }

  function RecordOf(b: Block): BlockRecord {
    BlockRecord(b.id, b.height)
  }

  /** The keys written for the new block. */
  function Written(st: Store, b: Block): Store {
    Store(st.parent[b.id := b.parentId], st.child[b.parentId := b.id], st.height[b.id := b.height],
          st.txIds[b.id := TxIds(b.transactions)], PutTxs(st.txs, b.transactions),
          Some(RecordOf(b)), st.oldest)
  }

  /** Drop the oldest block; `None` when a key it needs is missing. */
  function Evicted(st: Store, oldest: BlockRecord): Option<Store> {
    if oldest.id !in st.child || oldest.id !in st.txIds then None
    else
      Some(Store(st.parent - {oldest.id}, st.child - {oldest.id}, st.height - {oldest.id}, st.txIds - {oldest.id},
                 DeleteTxs(st.txs, st.txIds[oldest.id]), st.best,
                 Some(BlockRecord(st.child[oldest.id], oldest.height + 1))))
  }

  /** `None` when the source panics: a missing key or a height below the oldest one. */
  function Append(st: Store, b: Block, depth: nat): Option<Store> {
    var written := Written(st, b);
    match st.oldest
    case None => Some(written.(oldest := Some(RecordOf(b))))
    case Some(oldest) =>
      if b.height < oldest.height then None
      else if b.height - oldest.height == depth then Evicted(written, oldest)
      else Some(written)
  }

  /** Bodies of the given transactions; `None` when one is missing or listed twice. */
  function Bodies(m: map<TxId, Tx>, ids: seq<TxId>): Option<seq<Tx>> {
    if ids == [] then Some([])
    else
      match Bodies(m, DropLast(ids))
      case None => None
      case Some(txs) =>
        if Last(ids) in m && Last(ids) !in DropLast(ids) then Some(txs + [m[Last(ids)]]) else None
  }

  datatype Taken = Taken(store: Store, block: Option<Block>)

  /** `None` when the source panics on a missing key. */
  function Take(st: Store): Option<Taken> {
    if st.best.None? || st.best.value.id !in st.txIds then Some(Taken(st, None))
    else
      var BlockRecord(id, height) := st.best.value;
      match Bodies(st.txs, st.txIds[id])
      case None => None
      case Some(bodies) =>
        if id !in st.parent then None
        else
          var parentId := st.parent[id];
          if parentId in st.parent && parentId !in st.height then None
          else
            var best := if parentId in st.parent then Some(BlockRecord(parentId, st.height[parentId])) else None;
            Some(Taken(st.(txs := DeleteTxs(st.txs, st.txIds[id]), best := best),
                       Some(Block(id, parentId, height, 0, bodies))))
  }

  class ChainCacheRocksDB {
    const maxRollbackDepth: nat
    var store: Store

    constructor (depth: nat)
      ensures store == EMPTY_STORE && maxRollbackDepth == depth
    {
      store, maxRollbackDepth := EMPTY_STORE, depth;
    }

    /** One put per key, one put per transaction, then eviction when the window is full. */
    method AppendBlock(block: Block) returns (panicked: bool)
      modifies this
      ensures panicked <==> Append(old(store), block, maxRollbackDepth).None?
      ensures !panicked ==> Some(store) == Append(old(store), block, maxRollbackDepth)
    {
      var db := store;
      db := db.(parent := db.parent[block.id := block.parentId]);
      db := db.(child := db.child[block.parentId := block.id]);
      db := db.(height := db.height[block.id := block.height]);
      db := db.(txIds := db.txIds[block.id := TxIds(block.transactions)]);
      var txs := db.txs;
      var i := 0;
      while i < |block.transactions|
        invariant 0 <= i <= |block.transactions|
        invariant txs == PutTxs(old(store).txs, block.transactions[..i])
      {
        assert DropLast(block.transactions[..i + 1]) == block.transactions[..i];
        txs := txs[block.transactions[i].id := block.transactions[i]];
        i := i + 1;
      }
      assert block.transactions[..i] == block.transactions;
      db := db.(txs := txs, best := Some(BlockRecord(block.id, block.height)));
      assert db == Written(old(store), block);
      if db.oldest.None? {
        db := db.(oldest := Some(BlockRecord(block.id, block.height)));
      } else {
        var BlockRecord(oldestId, oldestHeight) := db.oldest.value;
        if block.height < oldestHeight { return true; }
        if block.height - oldestHeight == maxRollbackDepth {
          if oldestId !in db.child || oldestId !in db.txIds { return true; }
          var left := DeleteEach(db.txs, db.txIds[oldestId]);
          db := Store(db.parent - {oldestId}, db.child - {oldestId}, db.height - {oldestId}, db.txIds - {oldestId},
                      left, db.best, Some(BlockRecord(db.child[oldestId], oldestHeight + 1)));
        }
      }
      store := db;
      return false;
    }

    method Exists(id: BlockId) returns (r: bool)
      ensures r <==> id in store.height
    {
      r := id in store.height;
    }

    method GetBestBlock() returns (r: Option<BlockRecord>)
      ensures r == store.best
    {
      r := store.best;
    }

    method TakeBestBlock() returns (panicked: bool, r: Option<Block>)
      modifies this
      ensures panicked <==> Take(old(store)).None?
      ensures !panicked ==> Take(old(store)) == Some(Taken(store, r))
    {
      if store.best.None? || store.best.value.id !in store.txIds { return false, None; }
      var BlockRecord(id, height) := store.best.value;
      var ids := store.txIds[id];
      var txs, bodies: seq<Tx> := store.txs, [];
      var i := 0;
      while i < |ids|
        invariant 0 <= i <= |ids|
        invariant txs == DeleteTxs(store.txs, ids[..i])
        invariant Bodies(store.txs, ids[..i]) == Some(bodies)
        invariant store == old(store)
      {
        assert DropLast(ids[..i + 1]) == ids[..i];
        if ids[i] !in txs {
          BodiesStop(store.txs, ids, i + 1);
          return true, None;
        }
        bodies := bodies + [txs[ids[i]]];
        txs := txs - {ids[i]};
        ElemsOfPrefix(ids, i);
        i := i + 1;
      }
      assert ids[..i] == ids;
      if id !in store.parent { return true, None; }
      var parentId := store.parent[id];
      var best := None;
      if parentId in store.parent {
        if parentId !in store.height { return true, None; }
        best := Some(BlockRecord(parentId, store.height[parentId]));
      }
      store := store.(txs := txs, best := best);
      return false, Some(Block(id, parentId, height, 0, bodies));
    }
  }

  method DeleteEach(txs: map<TxId, Tx>, ids: seq<TxId>) returns (left: map<TxId, Tx>)
    ensures left == DeleteTxs(txs, ids)
  {
    left := txs;
    var i := 0;
    while i < |ids|
      invariant 0 <= i <= |ids|
      invariant left == DeleteTxs(txs, ids[..i])
    {
      left := left - {ids[i]};
      ElemsOfPrefix(ids, i);
      i := i + 1;
    }
    assert ids[..i] == ids;
  }

  lemma {:induction false} BodiesStop(m: map<TxId, Tx>, ids: seq<TxId>, n: nat)
    requires n <= |ids| && Bodies(m, ids[..n]).None?
    ensures Bodies(m, ids).None?
    decreases |ids| - n
  {
    if n < |ids| {
      assert DropLast(ids[..n + 1]) == ids[..n];
      BodiesStop(m, ids, n + 1);
    } else {
      assert ids[..n] == ids;
    }
  }

  // ---------------------------------------------------------------- the window a store represents

  ghost predicate DistinctTxs(txs: seq<Tx>) {
    forall i, j :: 0 <= i < j < |txs| ==> txs[i].id != txs[j].id
  }

  /** No transaction of `b` is in `c`. */
  ghost predicate DisjointTxs(b: Block, c: Block) {
    forall t, u :: t in b.transactions && u in c.transactions ==> t.id != u.id
  }

  /** A transaction occurs at most once in a chain. */
  ghost predicate UniqueTxs(window: seq<Block>) {
    && (forall i :: 0 <= i < |window| ==> DistinctTxs(window[i].transactions))
    && (forall i, j {:trigger DisjointTxs(window[i], window[j])} ::
          0 <= i < |window| && 0 <= j < |window| && i != j ==> DisjointTxs(window[i], window[j]))
  }

  /** The keys of one block. */
  ghost predicate StoresBlock(st: Store, b: Block) {
    && b.id in st.parent && st.parent[b.id] == b.parentId
    && b.id in st.height && st.height[b.id] == b.height
    && b.id in st.txIds && st.txIds[b.id] == TxIds(b.transactions)
    && forall t :: t in b.transactions ==> t.id in st.txs && st.txs[t.id] == t
  }

  /** The store's records and keys describe exactly this window of consecutive blocks. */
  ghost predicate Represents(st: Store, window: seq<Block>, depth: nat) {
    && window != [] && |window| <= depth
    && Linked(window, window[0].height)
    && UniqueTxs(window)
    && st.best == Some(RecordOf(Last(window)))
    && st.oldest == Some(RecordOf(window[0]))
    && (forall i :: 0 <= i < |window| ==> StoresBlock(st, window[i]))
    && (forall i :: 0 <= i < |window| - 1 ==> window[i].id in st.child && st.child[window[i].id] == window[i + 1].id)
  }

  lemma {:induction false} PutTxsFacts(m: map<TxId, Tx>, txs: seq<Tx>)
    requires DistinctTxs(txs)
    ensures forall t :: t in txs ==> t.id in PutTxs(m, txs) && PutTxs(m, txs)[t.id] == t
    ensures forall id :: id in m && id !in TxIds(txs) ==> id in PutTxs(m, txs) && PutTxs(m, txs)[id] == m[id]
  {
    if txs != [] {
      PutTxsFacts(m, DropLast(txs));
      forall t | t in txs ensures t.id in PutTxs(m, txs) && PutTxs(m, txs)[t.id] == t {
        var i :| 0 <= i < |txs| && txs[i] == t;
        if i < |txs| - 1 { assert DropLast(txs)[i] == t; }
      }
      forall id | id in m && id !in TxIds(txs) ensures id in PutTxs(m, txs) && PutTxs(m, txs)[id] == m[id] {
        assert TxIds(txs)[|txs| - 1] == Last(txs).id;
        assert forall i :: 0 <= i < |txs| - 1 ==> TxIds(DropLast(txs))[i] == TxIds(txs)[i];
      }
    }
  }

  lemma TxIdsMembers(txs: seq<Tx>, id: TxId)
    requires id in TxIds(txs)
    ensures exists t :: t in txs && t.id == id
  {
  }

  lemma {:induction false} BodiesOfBlock(m: map<TxId, Tx>, txs: seq<Tx>)
    requires DistinctTxs(txs) && forall t :: t in txs ==> t.id in m && m[t.id] == t
    ensures Bodies(m, TxIds(txs)) == Some(txs)
  {
    if txs != [] {
      assert DropLast(TxIds(txs)) == TxIds(DropLast(txs));
      BodiesOfBlock(m, DropLast(txs));
      assert Last(txs) in txs;
      assert DropLast(txs) + [Last(txs)] == txs;
    }
  }

  /** Writing a new block leaves the keys of an unrelated block alone. */
  lemma WrittenKeeps(st: Store, b: Block, c: Block)
    requires StoresBlock(st, c) && c.id != b.id && DisjointTxs(c, b) && DistinctTxs(b.transactions)
    ensures StoresBlock(Written(st, b), c)
  {
    PutTxsFacts(st.txs, b.transactions);
    forall t | t in c.transactions ensures t.id !in TxIds(b.transactions) {
      if t.id in TxIds(b.transactions) { TxIdsMembers(b.transactions, t.id); }
    }
  }

  /** Deleting another block's transactions and keys leaves a block alone. */
  lemma DeleteKeeps(txs: map<TxId, Tx>, b: Block, c: Block, t: Tx)
    requires DisjointTxs(c, b) && t in c.transactions && t.id in txs && txs[t.id] == t
    ensures t.id in DeleteTxs(txs, TxIds(b.transactions)) && DeleteTxs(txs, TxIds(b.transactions))[t.id] == t
  {
  }

  function Push(window: seq<Block>, b: Block, depth: nat): seq<Block> {
    if |window| == depth && window != [] then window[1..] + [b] else window + [b]
  }

  ghost predicate CanAppend(window: seq<Block>, b: Block) {
    && window != []
    && b.parentId == Last(window).id && b.height == Last(window).height + 1
    && b.id !in Ids(window) && (forall i, j :: 0 <= i < j < |window| ==> window[i].id != window[j].id)
    && UniqueTxs(window + [b])
  }

  lemma WrittenStores(st: Store, window: seq<Block>, b: Block, depth: nat)
    requires Represents(st, window, depth) && CanAppend(window, b)
    ensures forall i :: 0 <= i < |window| + 1 ==> StoresBlock(Written(st, b), (window + [b])[i])
  {
    var all, n := window + [b], |window|;
    assert all[n] == b && DistinctTxs(all[n].transactions);
    PutTxsFacts(st.txs, b.transactions);
    forall i | 0 <= i < n ensures StoresBlock(Written(st, b), all[i]) {
      assert all[i] == window[i] && window[i].id in Ids(window);
      assert DisjointTxs(all[i], all[n]);
      WrittenKeeps(st, b, window[i]);
    }
  }

  lemma WrittenRepresents(st: Store, window: seq<Block>, b: Block, depth: nat)
    requires Represents(st, window, depth) && CanAppend(window, b)
    ensures Represents(Written(st, b), window + [b], |window| + 1)
  {
    var all, n := window + [b], |window|;
    WrittenStores(st, window, b, depth);
    forall i | 0 <= i < n
      ensures all[i].id in Written(st, b).child && Written(st, b).child[all[i].id] == all[i + 1].id
    {
      if i < n - 1 { assert window[i].id != window[n - 1].id; }
    }
  }

  lemma EvictedRepresents(st: Store, window: seq<Block>, depth: nat)
    requires Represents(st, window, depth + 1) && |window| == depth + 1 && depth >= 1
    requires forall i, j :: 0 <= i < j < |window| ==> window[i].id != window[j].id
    ensures Evicted(st, RecordOf(window[0])).Some?
    ensures Represents(Evicted(st, RecordOf(window[0])).value, window[1..], depth)
  {
    var first, rest := window[0], window[1..];
    assert StoresBlock(st, first);
    assert window[0].id in st.child;
    var st' := Evicted(st, RecordOf(first)).value;
    forall i | 0 <= i < |rest| ensures StoresBlock(st', rest[i]) {
      assert rest[i] == window[i + 1] && window[i + 1].id != first.id && StoresBlock(st, window[i + 1]);
      assert DisjointTxs(window[i + 1], window[0]);
      forall t | t in rest[i].transactions ensures t.id in st'.txs && st'.txs[t.id] == t {
        DeleteKeeps(st.txs, first, rest[i], t);
      }
    }
    forall i | 0 <= i < |rest| - 1 ensures rest[i].id in st'.child && st'.child[rest[i].id] == rest[i + 1].id {
      assert rest[i] == window[i + 1] && rest[i + 1] == window[i + 2] && window[0].id != window[i + 1].id;
    }
    UniqueTail(window);
  }

  lemma UniqueTail(window: seq<Block>)
    requires UniqueTxs(window) && window != []
    ensures UniqueTxs(window[1..])
  {
  }

  /** The window is full exactly when the new block is `depth` above the oldest one. */
  lemma AppendComputes(st: Store, window: seq<Block>, b: Block, depth: nat)
    requires Represents(st, window, depth) && CanAppend(window, b)
    ensures Append(st, b, depth) ==
            if |window| == depth then Evicted(Written(st, b), RecordOf(window[0])) else Some(Written(st, b))
  {
    assert Last(window).height == window[0].height + |window| - 1;
  }

  lemma AppendIsDistinct(window: seq<Block>, b: Block)
    requires CanAppend(window, b)
    ensures var all := window + [b]; forall i, j :: 0 <= i < j < |all| ==> all[i].id != all[j].id
  {
    assert forall i :: 0 <= i < |window| ==> window[i].id in Ids(window);
  }

  /** Appending the next block never panics and shifts the window by at most one block. */
  lemma AppendRepresents(st: Store, window: seq<Block>, b: Block, depth: nat)
    requires Represents(st, window, depth) && CanAppend(window, b)
    ensures Append(st, b, depth).Some?
    ensures Represents(Append(st, b, depth).value, Push(window, b, depth), depth)
  {
    AppendComputes(st, window, b, depth);
    WrittenRepresents(st, window, b, depth);
    var all := window + [b];
    if |window| == depth {
      AppendIsDistinct(window, b);
      EvictedRepresents(Written(st, b), all, depth);
      assert all[0] == window[0] && Push(window, b, depth) == all[1..];
    } else {
      assert Push(window, b, depth) == all;
    }
  }

  /** An append adds the keys of the block and drops those of the evicted one. */
  lemma AppendKeys(st: Store, window: seq<Block>, b: Block, depth: nat)
    requires Represents(st, window, depth) && CanAppend(window, b) && Append(st, b, depth).Some?
    ensures var st', gone := Append(st, b, depth).value, if |window| == depth then {window[0].id} else {};
            st'.height.Keys == st.height.Keys + {b.id} - gone && st'.parent.Keys == st.parent.Keys + {b.id} - gone
  {
  }

  lemma UniqueFront(window: seq<Block>)
    requires UniqueTxs(window) && window != []
    ensures UniqueTxs(DropLast(window))
  {
  }

  /** Taking the best block returns the last block appended, without its timestamp. */
  lemma TakeReturnsLast(st: Store, window: seq<Block>, depth: nat)
    requires Represents(st, window, depth)
    ensures Take(st).Some? ==> Take(st).value.block == Some(Last(window).(timestamp := 0))
    ensures Take(st).None? ==> Last(window).parentId in st.parent && Last(window).parentId !in st.height
  {
    var n := |window| - 1;
    assert StoresBlock(st, window[n]);
    assert DistinctTxs(window[n].transactions);
    BodiesOfBlock(st.txs, window[n].transactions);
  }

  lemma TakeRepresents(st: Store, window: seq<Block>, depth: nat)
    requires Represents(st, window, depth) && |window| >= 2
    ensures Take(st).Some? && Take(st).value.block == Some(Last(window).(timestamp := 0))
    ensures Represents(Take(st).value.store, DropLast(window), depth)
    ensures Take(st).value.store.height == st.height && Take(st).value.store.parent == st.parent
  {
    var n := |window| - 1;
    assert StoresBlock(st, window[n]) && StoresBlock(st, window[n - 1]);
    assert window[n].parentId == window[n - 1].id;
    TakeReturnsLast(st, window, depth);
    var st', rest := Take(st).value.store, DropLast(window);
    forall i | 0 <= i < |rest| ensures StoresBlock(st', rest[i]) {
      assert rest[i] == window[i] && StoresBlock(st, window[i]) && DisjointTxs(window[i], window[n]);
      forall t | t in rest[i].transactions ensures t.id in st'.txs && st'.txs[t.id] == t {
        DeleteKeeps(st.txs, window[n], rest[i], t);
      }
    }
    UniqueFront(window);
  }

  // ---------------------------------------------------------------- past the oldest block

  /** The records match the window; an empty window has none. */
  ghost predicate Tracks(st: Store, window: seq<Block>, depth: nat) {
    if window == [] then st.best == None && st.oldest == None else Represents(st, window, depth)
  }

  /**
   A take leaves the records of the remaining window exactly when it does not take the oldest block: the
   record of the oldest block is never repaired, so after the only block is taken it still names that block.
   */
  lemma TakeKeepsWindowIff(st: Store, window: seq<Block>, depth: nat)
    requires Represents(st, window, depth) && window[0].parentId !in st.parent
    ensures Take(st).Some?
    ensures Tracks(Take(st).value.store, DropLast(window), depth) <==> |window| >= 2
    ensures |window| == 1 ==>
              var st' := Take(st).value.store;
              && st'.best == None && st'.oldest == Some(RecordOf(window[0]))
              && st'.child == st.child && st'.txIds == st.txIds
  {
    TakeReturnsLast(st, window, depth);
    if |window| >= 2 {
      TakeRepresents(st, window, depth);
    } else {
      assert StoresBlock(st, window[0]);
    }
  }

  /** Append block after block; `None` once an append panics. */
  function AppendAll(st: Store, blocks: seq<Block>, depth: nat): Option<Store> {
    if blocks == [] then Some(st)
    else
      match AppendAll(st, DropLast(blocks), depth)
      case None => None
      case Some(mid) => Append(mid, Last(blocks), depth)
  }

  /** Consecutive blocks from the height of `b` upwards, none of them on top of `b`. */
  ghost predicate Bypasses(blocks: seq<Block>, b: Block) {
    forall i :: 0 <= i < |blocks| ==> blocks[i].height == b.height + i && blocks[i].parentId != b.id
  }

  lemma {:induction false} OldestLingers(st: Store, b: Block, blocks: seq<Block>, depth: nat)
    requires st.oldest == Some(RecordOf(b)) && Bypasses(blocks, b) && |blocks| <= depth
    ensures AppendAll(st, blocks, depth).Some?
    ensures var st' := AppendAll(st, blocks, depth).value;
            && st'.oldest == st.oldest && (b.id in st'.child <==> b.id in st.child)
            && (b.id in st.txIds ==> b.id in st'.txIds)
  {
    if blocks != [] {
      OldestLingers(st, b, DropLast(blocks), depth);
    }
  }

  /**
   The consequence: once the only block has been taken, a fork that bypasses it runs into the stale record
   when it is `depth` blocks long. The append panics exactly when no child of the taken block was ever recorded.
   */
  lemma BypassPanicsIff(st: Store, b: Block, blocks: seq<Block>, depth: nat)
    requires Represents(st, [b], depth) && b.parentId !in st.parent
    requires Bypasses(blocks, b) && |blocks| == depth + 1
    ensures Take(st).Some? && AppendAll(Take(st).value.store, DropLast(blocks), depth).Some?
    ensures AppendAll(Take(st).value.store, blocks, depth).None? <==> b.id !in st.child
  {
    TakeKeepsWindowIff(st, [b], depth);
    assert [b][0] == b && StoresBlock(st, [b][0]);
    OldestLingers(Take(st).value.store, b, DropLast(blocks), depth);
  }

  /** The shortest such run: a block is taken, its sibling is appended, and the sibling's child panics. */
  lemma SiblingPanics(b: Block, c: Block, d: Block)
    requires DistinctTxs(b.transactions) && b.parentId != b.id
    requires c.height == b.height && c.parentId == b.parentId && c.id != b.id
    requires d.height == b.height + 1 && d.parentId == c.id
    ensures var taken := Take(Append(EMPTY_STORE, b, 1).value);
            && taken.Some? && AppendAll(taken.value.store, [c], 1).Some?
            && AppendAll(taken.value.store, [c, d], 1).None?
  {
    var st := Append(EMPTY_STORE, b, 1).value;
    PutTxsFacts(map[], b.transactions);
    assert [b][0] == b && StoresBlock(st, b);
    assert Represents(st, [b], 1);
    assert DropLast([c, d]) == [c];
    BypassPanicsIff(st, b, [c, d], 1);
  }
}
