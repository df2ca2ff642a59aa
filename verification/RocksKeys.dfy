/** What lingers in the persistent cache: never a transaction of a taken block nor any key of an evicted one. */
module RocksKeys {
  import opened Wrappers
  import opened Chain
  import opened RocksCache
  import opened RocksRuns

  /** Transactions of a chain. */
  ghost function TxKeys(window: seq<Block>): set<TxId> {
    set b, t | b in window && t in b.transactions :: t.id
  }

  /** Exactly the window's transactions are stored, and an evicted block has left no key. */
  ghost predicate Tidy(st: Store, h: History) {
    && st.txs.Keys == TxKeys(h.window)
    && st.txIds.Keys == st.height.Keys
    && forall e :: e in h.evicted ==> e.id !in st.child && e.id !in st.txIds
  }

  lemma {:induction false} PutTxsKeys(m: map<TxId, Tx>, txs: seq<Tx>)
    ensures PutTxs(m, txs).Keys == m.Keys + Elems(TxIds(txs))
  {
    if txs != [] {
      PutTxsKeys(m, DropLast(txs));
      assert TxIds(txs) == TxIds(DropLast(txs)) + [Last(txs).id];
    }
  }

  lemma KeysOfOne(b: Block)
    ensures TxKeys([b]) == Elems(TxIds(b.transactions))
  {
    var txs := b.transactions;
    assert b in [b];
    forall t | t in txs ensures t.id in TxIds(txs) {
      var i :| 0 <= i < |txs| && txs[i] == t;
      assert TxIds(txs)[i] == t.id;
    }
    forall id | id in TxIds(txs) ensures id in TxKeys([b]) { TxIdsMembers(txs, id); }
  }

  lemma KeysOfBoth(s: seq<Block>, t: seq<Block>)
    ensures TxKeys(s + t) == TxKeys(s) + TxKeys(t)
  {
  }

  /** A block shares no transaction with the rest of a window without repetitions. */
  lemma KeysApart(window: seq<Block>, i: nat, rest: seq<Block>)
    requires UniqueTxs(window) && i < |window|
    requires forall c :: c in rest ==> exists j :: 0 <= j < |window| && j != i && window[j] == c
    ensures TxKeys(rest) !! TxKeys([window[i]])
  {
    forall c, t, u | c in rest && t in c.transactions && u in window[i].transactions ensures t.id != u.id {
      var j :| 0 <= j < |window| && j != i && window[j] == c;
      assert DisjointTxs(window[j], window[i]);
    }
  }

  lemma WrittenTxs(st: Store, window: seq<Block>, b: Block)
    requires st.txs.Keys == TxKeys(window)
    ensures Written(st, b).txs.Keys == TxKeys(window + [b])
  {
    PutTxsKeys(st.txs, b.transactions);
    KeysOfOne(b);
    KeysOfBoth(window, [b]);
  }

  /** Evicting the first block of a window drops its transactions and no others. */
  lemma EvictedTxs(st: Store, window: seq<Block>)
    requires window != [] && UniqueTxs(window) && st.txs.Keys == TxKeys(window) && StoresBlock(st, window[0])
    ensures DeleteTxs(st.txs, st.txIds[window[0].id]).Keys == TxKeys(window[1..])
  {
    var first, rest := window[0], window[1..];
    assert window == [first] + rest;
    KeysOfBoth([first], rest);
    KeysApart(window, 0, rest);
    KeysOfOne(first);
  }

  lemma ShiftedTxs(st: Store, window: seq<Block>, b: Block, depth: nat)
    requires Represents(st, window, depth) && CanAppend(window, b) && st.txs.Keys == TxKeys(window)
    ensures window[0].id in Written(st, b).txIds
    ensures DeleteTxs(Written(st, b).txs, Written(st, b).txIds[window[0].id]).Keys == TxKeys((window + [b])[1..])
  {
    var all := window + [b];
    WrittenTxs(st, window, b);
    assert StoresBlock(Written(st, b), all[0]) by { WrittenStores(st, window, b, depth); }
    assert all[0] == window[0];
    EvictedTxs(Written(st, b), all);
  }

  lemma AppendTxs(st: Store, window: seq<Block>, b: Block, depth: nat)
    requires Represents(st, window, depth) && CanAppend(window, b) && st.txs.Keys == TxKeys(window)
    requires Append(st, b, depth).Some?
    ensures Append(st, b, depth).value.txs.Keys == TxKeys(Push(window, b, depth))
  {
    assert |window| >= 1;
    AppendComputes(st, window, b, depth);
    WrittenTxs(st, window, b);
    ShiftedTxs(st, window, b, depth);
    assert (window + [b])[1..] == window[1..] + [b];
  }

  lemma AppendIsTidy(st: Store, h: History, b: Block, depth: nat, tree: iset<Block>)
    requires IsBlockTree(tree) && depth >= 1 && h.window != []
    requires Faithful(st, h, depth, tree) && ValidOp(h, AppendOp(b), tree) && Tidy(st, h)
    requires Append(st, b, depth).Some?
    ensures Tidy(Append(st, b, depth).value, Record(h, AppendOp(b), depth))
  {
    NextBlockFits(h, b, tree);
    AppendTxs(st, h.window, b, depth);
    AppendComputes(st, h.window, b, depth);
    EvictedBelow(h, b, tree);
  }

  lemma EvictedBelow(h: History, b: Block, tree: iset<Block>)
    requires IsBlockTree(tree) && h.window != [] && Recorded(h, tree) && b in tree
    requires Linked(h.window, h.window[0].height) && b.height == Last(h.window).height + 1
    ensures forall e :: e in h.evicted ==> e.id != Last(h.window).id && e.id != b.id
  {
    forall e | e in h.evicted ensures e.id != Last(h.window).id && e.id != b.id {
      assert Coherent(e, Last(h.window)) && Coherent(e, b);
    }
  }

  lemma FirstIsTidy(b: Block, depth: nat)
    requires depth >= 1
    ensures Append(EMPTY_STORE, b, depth).Some?
    ensures Tidy(Append(EMPTY_STORE, b, depth).value, Record(EMPTY_HISTORY, AppendOp(b), depth))
  {
    PutTxsKeys(map[], b.transactions);
    KeysOfOne(b);
    assert [] + [b] == [b];
  }

  lemma TakeIsTidy(st: Store, h: History, depth: nat, tree: iset<Block>)
    requires Faithful(st, h, depth, tree) && ValidOp(h, TakeOp, tree) && Tidy(st, h)
    requires Take(st).Some?
    ensures Tidy(Take(st).value.store, Record(h, TakeOp, depth))
  {
    var window, last := h.window, |h.window| - 1;
    var rest := DropLast(window);
    assert StoresBlock(st, window[last]);
    assert window == rest + [window[last]];
    KeysOfBoth(rest, [window[last]]);
    KeysApart(window, last, rest);
    KeysOfOne(window[last]);
  }

  /**
   Along every valid run the stored transactions are exactly those of the live window, so neither a take nor an
   eviction leaves one behind, and no key of an evicted block remains.
   */
  lemma {:induction false} TidyOverRuns(ops: seq<Op>, depth: nat, tree: iset<Block>)
    requires IsBlockTree(tree) && depth >= 1 && ValidOps(ops, depth, tree)
    ensures Execute(ops, depth).Some?
    ensures Tidy(Execute(ops, depth).value.store, Histories(ops, depth))
  {
    RunIsFaithful(ops, depth, tree);
    if ops != [] {
      var front := DropLast(ops);
      ValidPrefix(ops, depth, tree);
      RunIsFaithful(front, depth, tree);
      TidyOverRuns(front, depth, tree);
      var st, h := Execute(front, depth).value.store, Histories(front, depth);
      if Last(ops).TakeOp? {
        TakeIsTidy(st, h, depth, tree);
      } else if h.window == [] {
        FirstIsTidy(Last(ops).block, depth);
      } else {
        AppendIsTidy(st, h, Last(ops).block, depth, tree);
      }
    }
  }
}
