/** Whole runs of chain synchronisation over the persistent cache. */
module RocksSync {
  import opened Wrappers
  import opened Chain
  import opened RocksCache
  import opened RocksRuns
  import ChainSync

  /** States between successive answers of the node, and what each answer made the synchroniser emit. */
  datatype Trace = Trace(states: seq<Sync>, emitted: seq<Option<ChainUpgrade>>, answers: seq<Block>)

  /** The chain after the emitted upgrades are replayed as pushes and pops. */
  function ChainAfter(us: seq<Option<ChainUpgrade>>): seq<Block> {
    if us == [] then [] else ChainSync.Moved(ChainAfter(DropLast(us)), Last(us))
  }

  /** What the cache is supposed to have done for the emitted upgrades. */
  function HistoryAfter(us: seq<Option<ChainUpgrade>>, depth: nat): History {
    if us == [] then EMPTY_HISTORY
    else
      var h := HistoryAfter(DropLast(us), depth);
      match Last(us)
      case None => h
      case Some(RollForward(b)) => Record(h, AppendOp(b), depth)
      case Some(RollBackward(_)) => Record(h, TakeOp, depth)
  }

  function ChainAt(t: Trace, i: nat): seq<Block>
    requires i <= |t.emitted|
  {
    ChainAfter(t.emitted[..i])
  }

  function HistoryAt(t: Trace, i: nat, depth: nat): History
    requires i <= |t.emitted|
  {
    HistoryAfter(t.emitted[..i], depth)
  }

  /** The answer is appended; otherwise the best block is taken. */
  predicate Forwards(s: Sync, b: Block) {
    b.parentId in s.store.height || b.height == s.startingHeight
  }

  /**
   A run from an empty cache, as far as it gets: it ends with the answers, or with the first one that panics.
   The node answers with blocks of the tree at the requested height, no transaction occurs twice on the chain,
   and no rollback takes the oldest recorded block.
   */
  ghost predicate IsTrace(t: Trace, start: nat, depth: nat, tree: iset<Block>) {
    && |t.states| == |t.emitted| + 1 && |t.emitted| <= |t.answers| <= |t.states|
    && t.states[0] == Sync(start, start, EMPTY_STORE)
    && (forall i :: 0 <= i < |t.answers| ==> IsAnswer(t, i, tree))
    && (forall i :: 0 <= i < |t.emitted| ==>
          Upgrade(t.states[i], t.answers[i], depth) == Some((t.states[i + 1], t.emitted[i])))
    && (Panics(t) ==> Upgrade(t.states[|t.emitted|], t.answers[|t.emitted|], depth) == None)
  }

  /** The last answer was not dealt with. */
  predicate Panics(t: Trace) {
    |t.emitted| < |t.answers|
  }

  ghost predicate IsAnswer(t: Trace, i: nat, tree: iset<Block>)
    requires |t.states| == |t.emitted| + 1 && i < |t.answers| <= |t.states|
  {
    && t.answers[i] in tree && t.answers[i].height == t.states[i].nextHeight
    && if Forwards(t.states[i], t.answers[i]) then UniqueTxs(ChainAt(t, i) + [t.answers[i]])
       else t.states[i].store.best != t.states[i].store.oldest
  }

  /** The answer is taken for linked although its parent is no block of the chain: a leftover of a rollback. */
  ghost predicate OnLeftover(t: Trace, i: nat)
    requires |t.states| == |t.emitted| + 1 && i < |t.answers| <= |t.states|
  {
    t.answers[i].parentId in t.states[i].store.height && t.answers[i].parentId !in Ids(ChainAt(t, i))
  }

  /** The store is faithful to its history, and the window is the end of the chain. */
  ghost predicate StoreInStep(st: Store, chain: seq<Block>, h: History, depth: nat, tree: iset<Block>) {
    && Faithful(st, h, depth, tree)
    && (chain == [] <==> h.window == [])
    && |h.window| <= |chain| && h.window == chain[|chain| - |h.window|..]
  }

  /** Chain, height and store tell the same story. */
  ghost predicate InStep(s: Sync, chain: seq<Block>, h: History, start: nat, depth: nat, tree: iset<Block>) {
    && Linked(chain, start) && InTree(chain, tree)
    && s.startingHeight == start && s.nextHeight == start + |chain|
    && StoreInStep(s.store, chain, h, depth, tree)
  }

  lemma UniqueSuffix(chain: seq<Block>, n: nat)
    requires UniqueTxs(chain) && n <= |chain|
    ensures UniqueTxs(chain[n..])
  {
    var rest := chain[n..];
    forall i, j | 0 <= i < |rest| && 0 <= j < |rest| && i != j ensures DisjointTxs(rest[i], rest[j]) {
      assert DisjointTxs(chain[n + i], chain[n + j]);
    }
  }

  /** A block at the next height whose parent is on the chain extends the chain. */
  lemma ParentIsLast(chain: seq<Block>, b: Block, start: nat, tree: iset<Block>)
    requires IsBlockTree(tree) && Linked(chain, start) && InTree(chain, tree)
    requires b in tree && b.height == start + |chain| && (chain != [] ==> b.parentId in Ids(chain))
    ensures Linked(chain + [b], start) && (chain != [] ==> b.parentId == Last(chain).id)
  {
    if chain != [] {
      var k :| 0 <= k < |chain| && chain[k].id == b.parentId;
      assert Coherent(chain[k], b);
    }
  }

  lemma ForwardIsValid(chain: seq<Block>, h: History, b: Block, tree: iset<Block>)
    requires b in tree && UniqueTxs(chain + [b]) && (chain != [] ==> b.parentId == Last(chain).id)
    requires |h.window| <= |chain| && h.window == chain[|chain| - |h.window|..]
    ensures ValidOp(h, AppendOp(b), tree)
  {
    var n := |chain| - |h.window|;
    UniqueSuffix(chain + [b], n);
    assert (chain + [b])[n..] == h.window + [b];
    assert h.window != [] ==> Last(h.window) == Last(chain);
  }

  lemma PushIsSuffix(chain: seq<Block>, window: seq<Block>, b: Block, depth: nat)
    requires |window| <= |chain| && window == chain[|chain| - |window|..] && |window| <= depth && depth >= 1
    ensures var longer, pushed := chain + [b], Push(window, b, depth);
            pushed != [] && |pushed| <= |longer| && pushed == longer[|longer| - |pushed|..]
  {
    assert window + [b] == (chain + [b])[|chain| - |window|..];
  }

  lemma ForwardStore(st: Store, chain: seq<Block>, h: History, b: Block, depth: nat, tree: iset<Block>)
    requires IsBlockTree(tree) && depth >= 1 && StoreInStep(st, chain, h, depth, tree)
    requires b in tree && UniqueTxs(chain + [b]) && (chain != [] ==> b.parentId == Last(chain).id)
    ensures Append(st, b, depth).Some?
    ensures StoreInStep(Append(st, b, depth).value, chain + [b], Record(h, AppendOp(b), depth), depth, tree)
  {
    ForwardIsValid(chain, h, b, tree);
    StepIsFaithful(st, h, AppendOp(b), depth, tree);
    PushIsSuffix(chain, h.window, b, depth);
  }

  lemma BackwardStore(st: Store, chain: seq<Block>, h: History, depth: nat, tree: iset<Block>)
    requires IsBlockTree(tree) && depth >= 1 && StoreInStep(st, chain, h, depth, tree) && chain != []
    requires st.best != st.oldest
    ensures Take(st).Some? && Take(st).value.block == Some(Last(chain).(timestamp := 0))
    ensures StoreInStep(Take(st).value.store, DropLast(chain), Record(h, TakeOp, depth), depth, tree)
  {
    assert |h.window| >= 2 && Last(h.window) == Last(chain);
    StepIsFaithful(st, h, TakeOp, depth, tree);
    assert DropLast(h.window) == DropLast(chain)[|chain| - |h.window|..];
  }

  lemma NextAt(t: Trace, i: nat, depth: nat)
    requires i < |t.emitted|
    ensures ChainAt(t, i + 1) == ChainSync.Moved(ChainAt(t, i), t.emitted[i])
    ensures HistoryAt(t, i + 1, depth) ==
            match t.emitted[i]
            case None => HistoryAt(t, i, depth)
            case Some(RollForward(b)) => Record(HistoryAt(t, i, depth), AppendOp(b), depth)
            case Some(RollBackward(_)) => Record(HistoryAt(t, i, depth), TakeOp, depth)
  {
    assert DropLast(t.emitted[..i + 1]) == t.emitted[..i] && Last(t.emitted[..i + 1]) == t.emitted[i];
  }

  /** The synchroniser once the store has taken up a block. */
  function Extended(s: Sync, st: Store): Sync {
    s.(nextHeight := s.nextHeight + 1, store := st)
  }

  lemma ForwardAttempt(s: Sync, chain: seq<Block>, h: History, b: Block, start: nat, depth: nat, tree: iset<Block>)
    returns (st: Store)
    requires IsBlockTree(tree) && depth >= 1 && InStep(s, chain, h, start, depth, tree)
    requires b in tree && b.height == s.nextHeight && Forwards(s, b) && UniqueTxs(chain + [b])
    requires b.parentId in s.store.height ==> b.parentId in Ids(chain)
    ensures Upgrade(s, b, depth) == Some((Extended(s, st), Some(RollForward(b))))
    ensures InStep(Extended(s, st), chain + [b], Record(h, AppendOp(b), depth), start, depth, tree)
  {
    ParentIsLast(chain, b, start, tree);
    ForwardStore(s.store, chain, h, b, depth, tree);
    st := Append(s.store, b, depth).value;
    ForwardInStep(s, chain, Record(h, AppendOp(b), depth), b, start, depth, tree, st);
  }

  lemma ForwardInStep(s: Sync, chain: seq<Block>, h: History, b: Block, start: nat, depth: nat, tree: iset<Block>,
                      st: Store)
    requires Linked(chain + [b], start) && InTree(chain, tree) && b in tree
    requires s.startingHeight == start && s.nextHeight == start + |chain|
    requires StoreInStep(st, chain + [b], h, depth, tree)
    ensures InStep(Extended(s, st), chain + [b], h, start, depth, tree)
  {
  }

  lemma BackwardAttempt(s: Sync, chain: seq<Block>, h: History, b: Block, start: nat, depth: nat, tree: iset<Block>)
    requires IsBlockTree(tree) && depth >= 1 && InStep(s, chain, h, start, depth, tree)
    requires b.height == s.nextHeight && !Forwards(s, b) && s.store.best != s.store.oldest
    ensures chain != [] && Upgrade(s, b, depth).Some?
    ensures Upgrade(s, b, depth).value.1 == Some(RollBackward(Last(chain).(timestamp := 0)))
    ensures InStep(Upgrade(s, b, depth).value.0, DropLast(chain), Record(h, TakeOp, depth), start, depth, tree)
  {
    BackwardStore(s.store, chain, h, depth, tree);
  }

  /**
   One attempt in step and on no leftover: it does not panic, stays in step, and a rollback carries the last
   block still standing, without its timestamp.
   */
  lemma AttemptStaysInStep(t: Trace, i: nat, start: nat, depth: nat, tree: iset<Block>)
    requires IsBlockTree(tree) && depth >= 1 && IsTrace(t, start, depth, tree) && i < |t.answers| && !OnLeftover(t, i)
    requires InStep(t.states[i], ChainAt(t, i), HistoryAt(t, i, depth), start, depth, tree)
    ensures i < |t.emitted|
    ensures InStep(t.states[i + 1], ChainAt(t, i + 1), HistoryAt(t, i + 1, depth), start, depth, tree)
    ensures t.emitted[i] == if Forwards(t.states[i], t.answers[i]) then Some(RollForward(t.answers[i]))
                            else if ChainAt(t, i) == [] then None
                            else Some(RollBackward(Last(ChainAt(t, i)).(timestamp := 0)))
  {
    var s, b := t.states[i], t.answers[i];
    assert IsAnswer(t, i, tree);
    if Forwards(s, b) {
      var st := ForwardAttempt(s, ChainAt(t, i), HistoryAt(t, i, depth), b, start, depth, tree);
    } else {
      BackwardAttempt(s, ChainAt(t, i), HistoryAt(t, i, depth), b, start, depth, tree);
    }
    NextAt(t, i, depth);
  }

  lemma {:induction false} TraceStaysInStep(t: Trace, i: nat, start: nat, depth: nat, tree: iset<Block>)
    requires IsBlockTree(tree) && depth >= 1 && IsTrace(t, start, depth, tree) && i <= |t.emitted|
    requires forall k :: 0 <= k < i ==> !OnLeftover(t, k)
    ensures InStep(t.states[i], ChainAt(t, i), HistoryAt(t, i, depth), start, depth, tree)
  {
    if i == 0 {
      assert IdsOf({}) == {};
    } else {
      TraceStaysInStep(t, i - 1, start, depth, tree);
      AttemptStaysInStep(t, i - 1, start, depth, tree);
    }
  }

  /** A block taken for linked on a leftover breaks the chain. */
  lemma LeftoverUnlinks(t: Trace, i: nat, start: nat, depth: nat, tree: iset<Block>)
    requires IsTrace(t, start, depth, tree) && i < |t.emitted| && OnLeftover(t, i) && ChainAt(t, i) != []
    ensures !Linked(ChainAt(t, i + 1), start)
  {
    var chain, b := ChainAt(t, i), t.answers[i];
    NextAt(t, i, depth);
    assert Upgrade(t.states[i], b, depth) == Some((t.states[i + 1], t.emitted[i])) && Forwards(t.states[i], b);
    assert Last(chain).id in Ids(chain);
    assert (chain + [b])[|chain|].parentId != (chain + [b])[|chain| - 1].id;
  }

  /** The whole run is in step. */
  ghost predicate StaysInStep(t: Trace, start: nat, depth: nat, tree: iset<Block>)
    requires |t.states| == |t.emitted| + 1
  {
    forall i :: 0 <= i < |t.states| ==>
      InStep(t.states[i], ChainAt(t, i), HistoryAt(t, i, depth), start, depth, tree)
  }

  ghost predicate StaysLinked(t: Trace, start: nat) {
    forall i :: 0 <= i <= |t.emitted| ==> Linked(ChainAt(t, i), start)
  }

  ghost predicate NoLeftovers(t: Trace)
    requires |t.states| == |t.emitted| + 1 && |t.answers| <= |t.states|
  {
    forall i :: 0 <= i < |t.answers| ==> !OnLeftover(t, i)
  }

  lemma NoLeftoversStaysInStep(t: Trace, start: nat, depth: nat, tree: iset<Block>)
    requires IsBlockTree(tree) && depth >= 1 && IsTrace(t, start, depth, tree) && NoLeftovers(t)
    ensures !Panics(t) && StaysInStep(t, start, depth, tree)
  {
    forall i | 0 <= i < |t.states|
      ensures InStep(t.states[i], ChainAt(t, i), HistoryAt(t, i, depth), start, depth, tree)
    {
      TraceStaysInStep(t, i, start, depth, tree);
    }
    if Panics(t) { AttemptStaysInStep(t, |t.emitted|, start, depth, tree); }
  }

  lemma LeftoverPanicsOrUnlinks(t: Trace, start: nat, depth: nat, tree: iset<Block>)
    requires IsBlockTree(tree) && depth >= 1 && IsTrace(t, start, depth, tree) && !NoLeftovers(t)
    ensures Panics(t) || !StaysLinked(t, start)
  {
    var i: nat :| i < |t.answers| && OnLeftover(t, i);
    var k := FirstLeftover(t, i);
    TraceStaysInStep(t, k, start, depth, tree);
    assert ChainAt(t, k) != [];
    if k < |t.emitted| {
      LeftoverUnlinks(t, k, start, depth, tree);
      assert !Linked(ChainAt(t, k + 1), start);
    }
  }

  /**
   Over the persistent cache a run never panics and its replayed chain stays linked, with the window at its
   end, if and only if no block is ever taken for linked on a leftover key.
   */
  lemma LinkedIff(t: Trace, start: nat, depth: nat, tree: iset<Block>)
    requires IsBlockTree(tree) && depth >= 1 && IsTrace(t, start, depth, tree)
    ensures !Panics(t) && StaysLinked(t, start) <==> NoLeftovers(t)
    ensures !Panics(t) && StaysInStep(t, start, depth, tree) <==> NoLeftovers(t)
  {
    if NoLeftovers(t) {
      NoLeftoversStaysInStep(t, start, depth, tree);
      forall i | 0 <= i <= |t.emitted| ensures Linked(ChainAt(t, i), start) {
        assert InStep(t.states[i], ChainAt(t, i), HistoryAt(t, i, depth), start, depth, tree);
      }
    } else {
      LeftoverPanicsOrUnlinks(t, start, depth, tree);
      if StaysInStep(t, start, depth, tree) {
        forall i | 0 <= i <= |t.emitted| ensures Linked(ChainAt(t, i), start) {
          assert InStep(t.states[i], ChainAt(t, i), HistoryAt(t, i, depth), start, depth, tree);
        }
      }
    }
  }

  lemma {:induction false} FirstLeftover(t: Trace, i: nat) returns (k: nat)
    requires |t.states| == |t.emitted| + 1 && i < |t.answers| <= |t.states| && OnLeftover(t, i)
    ensures k <= i && OnLeftover(t, k) && forall j :: 0 <= j < k ==> !OnLeftover(t, j)
  {
    k := i;
    if j :| 0 <= j < i && OnLeftover(t, j) { k := FirstLeftover(t, j); }
  }
}
