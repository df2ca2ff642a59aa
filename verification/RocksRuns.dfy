/** Whole runs of the persistent cache, and what chain synchronisation over it can and cannot rely on. */
module RocksRuns {
  import opened Wrappers
  import opened Chain
  import opened RocksCache
  import ChainSync

  datatype Op = AppendOp(block: Block) | TakeOp

  /** What a run is supposed to have done: the live window, everything appended, everything evicted. */
  datatype History = History(window: seq<Block>, appended: set<Block>, evicted: set<Block>)

  const EMPTY_HISTORY: History := History([], {}, {})

  /** Appends extend the best block with a block of the tree; a take leaves the oldest block alone. */
  ghost predicate ValidOp(h: History, op: Op, tree: iset<Block>) {
    match op
    case AppendOp(b) =>
      && b in tree
      && (h.window != [] ==> b.parentId == Last(h.window).id)
      && UniqueTxs(h.window + [b])
    case TakeOp => |h.window| >= 2
  }

  function Record(h: History, op: Op, depth: nat): History {
    match op
    case AppendOp(b) =>
      History(Push(h.window, b, depth), h.appended + {b},
              h.evicted + if |h.window| == depth && h.window != [] then {h.window[0]} else {})
    case TakeOp => if h.window == [] then h else h.(window := DropLast(h.window))
  }

  function Histories(ops: seq<Op>, depth: nat): History {
    if ops == [] then EMPTY_HISTORY else Record(Histories(DropLast(ops), depth), Last(ops), depth)
  }

  ghost predicate ValidOps(ops: seq<Op>, depth: nat, tree: iset<Block>) {
    forall i {:trigger ops[i]} :: 0 <= i < |ops| ==> ValidOp(Histories(ops[..i], depth), ops[i], tree)
  }

  datatype Executed = Executed(store: Store, taken: seq<Option<Block>>)

  /** Run the store; `None` once the source would panic. */
  function Execute(ops: seq<Op>, depth: nat): Option<Executed> {
    if ops == [] then Some(Executed(EMPTY_STORE, []))
    else
      match Execute(DropLast(ops), depth)
      case None => None
      case Some(e) =>
        match Last(ops)
        case AppendOp(b) => (
          match Append(e.store, b, depth)
          case None => None
          case Some(st) => Some(Executed(st, e.taken)))
        case TakeOp =>
          match Take(e.store)
          case None => None
          case Some(t) => Some(Executed(t.store, e.taken + [t.block]))
  }

  /** Blocks a run must return: last in, first out, with the timestamp lost. */
  function Expected(ops: seq<Op>, depth: nat): seq<Option<Block>> {
    if ops == [] then []
    else
      var h := Histories(DropLast(ops), depth);
      Expected(DropLast(ops), depth) +
      if Last(ops).TakeOp? && h.window != [] then [Some(Last(h.window).(timestamp := 0))] else []
  }

  ghost function IdsOf(blocks: set<Block>): set<BlockId> {
    set b | b in blocks :: b.id
  }

  /** The history only mentions blocks of the tree, and evicted blocks lie below the window. */
  ghost predicate Recorded(h: History, tree: iset<Block>) {
    && InTree(h.window, tree)
    && (forall b :: b in h.appended ==> b in tree)
    && (forall i :: 0 <= i < |h.window| ==> h.window[i] in h.appended)
    && (forall e :: e in h.evicted ==> e in tree && (h.window != [] ==> e.height < h.window[0].height))
  }

  /** The store against its history. */
  ghost predicate Faithful(st: Store, h: History, depth: nat, tree: iset<Block>) {
    && (h.window == [] ==> st == EMPTY_STORE && h == EMPTY_HISTORY)
    && (h.window != [] ==> Represents(st, h.window, depth) && h.window[0].parentId !in st.parent)
    && Recorded(h, tree)
    && st.height.Keys == IdsOf(h.appended) - IdsOf(h.evicted)
    && st.parent.Keys == st.height.Keys
  }

  lemma FirstAppend(b: Block, depth: nat, tree: iset<Block>)
    requires IsBlockTree(tree) && b in tree && depth >= 1 && UniqueTxs([] + [b])
    ensures Append(EMPTY_STORE, b, depth).Some?
    ensures Faithful(Append(EMPTY_STORE, b, depth).value, Record(EMPTY_HISTORY, AppendOp(b), depth), depth, tree)
  {
    var st := Append(EMPTY_STORE, b, depth).value;
    var window := [] + [b];
    assert window[0] == b && DistinctTxs(window[0].transactions);
    PutTxsFacts(map[], b.transactions);
    assert StoresBlock(st, b);
    assert IdsOf({b}) == {b.id} && Coherent(b, b);
  }

  lemma AppendIsFaithful(st: Store, h: History, b: Block, depth: nat, tree: iset<Block>)
    requires IsBlockTree(tree) && depth >= 1 && h.window != []
    requires Faithful(st, h, depth, tree) && ValidOp(h, AppendOp(b), tree)
    ensures Append(st, b, depth).Some?
    ensures Faithful(Append(st, b, depth).value, Record(h, AppendOp(b), depth), depth, tree)
  {
    NextBlockFits(h, b, tree);
    AppendRepresents(st, h.window, b, depth);
    AppendKeys(st, h.window, b, depth);
    AppendIsRecorded(h, b, depth, tree);
    KeysAfterAppend(st, h, b, depth, tree, Append(st, b, depth).value);
  }

  lemma KeysAfterAppend(st: Store, h: History, b: Block, depth: nat, tree: iset<Block>, st': Store)
    requires IsBlockTree(tree) && h.window != [] && Recorded(h, tree) && b in tree && depth >= 1
    requires b.parentId == Last(h.window).id && h.window[0].height < b.height
    requires Linked(h.window, h.window[0].height)
    requires h.window[0].parentId !in st.parent.Keys && h.window[0].parentId != b.id
    requires st.height.Keys == st.parent.Keys == IdsOf(h.appended) - IdsOf(h.evicted)
    requires st'.height.Keys == st'.parent.Keys
             == st.height.Keys + {b.id} - (if |h.window| == depth then {h.window[0].id} else {})
    ensures var h' := Record(h, AppendOp(b), depth);
            && st'.height.Keys == IdsOf(h'.appended) - IdsOf(h'.evicted)
            && h'.window != [] && h'.window[0].parentId !in st'.parent.Keys
  {
    EvictedStayOut(h, b, tree);
    IdsAfterAppend(h, b, depth);
    var window, h' := h.window, Record(h, AppendOp(b), depth);
    KeySets(st.height.Keys, IdsOf(h.appended), IdsOf(h.evicted), b.id,
            if |window| == depth then {window[0].id} else {});
    if |window| == depth {
      assert h'.window[0] == (window + [b])[1] && h'.window[0].parentId == window[0].id;
    } else {
      assert h'.window[0] == window[0];
    }
  }

  lemma KeySets(keys: set<BlockId>, appended: set<BlockId>, evicted: set<BlockId>, id: BlockId, gone: set<BlockId>)
    requires keys == appended - evicted && id !in evicted
    ensures keys + {id} - gone == (appended + {id}) - (evicted + gone)
  {
  }

  lemma IdsAfterAppend(h: History, b: Block, depth: nat)
    requires h.window != []
    ensures var h' := Record(h, AppendOp(b), depth);
            && IdsOf(h'.appended) == IdsOf(h.appended) + {b.id}
            && IdsOf(h'.evicted) == IdsOf(h.evicted) + if |h.window| == depth then {h.window[0].id} else {}
  {
  }

  /** A valid append extends the window by a block that is not in it. */
  lemma NextBlockFits(h: History, b: Block, tree: iset<Block>)
    requires IsBlockTree(tree) && h.window != [] && Recorded(h, tree)
    requires Linked(h.window, h.window[0].height) && ValidOp(h, AppendOp(b), tree)
    ensures CanAppend(h.window, b)
    ensures h.window[0].parentId != b.id
  {
    var window := h.window;
    LinkedIsDistinct(window, window[0].height, tree);
    assert Last(window) in tree && Coherent(Last(window), b);
    forall i | 0 <= i < |window| ensures window[i].id != b.id {
      assert Coherent(window[i], b);
    }
    assert Coherent(b, window[0]);
  }

  lemma EvictedStayOut(h: History, b: Block, tree: iset<Block>)
    requires IsBlockTree(tree) && h.window != [] && Recorded(h, tree) && b in tree
    requires h.window[0].height < b.height
    ensures b.id !in IdsOf(h.evicted)
  {
    forall e | e in h.evicted ensures e.id != b.id {
      assert Coherent(e, b);
    }
  }

  lemma AppendIsRecorded(h: History, b: Block, depth: nat, tree: iset<Block>)
    requires h.window != [] && Recorded(h, tree) && b in tree && depth >= 1
    requires Linked(h.window, h.window[0].height) && b.height == h.window[0].height + |h.window|
    ensures Recorded(Record(h, AppendOp(b), depth), tree)
  {
  }

  lemma TakeIsFaithful(st: Store, h: History, depth: nat, tree: iset<Block>)
    requires Faithful(st, h, depth, tree) && ValidOp(h, TakeOp, tree)
    ensures Take(st).Some? && Take(st).value.block == Some(Last(h.window).(timestamp := 0))
    ensures Faithful(Take(st).value.store, Record(h, TakeOp, depth), depth, tree)
  {
    TakeRepresents(st, h.window, depth);
    assert DropLast(h.window)[0] == h.window[0];
  }

  /**
   Refinement. Along every valid run the store never panics, its keys represent exactly the window,
   takes return blocks last in first out, and `exists` holds exactly for blocks appended and not evicted.
   */
  lemma {:induction false} RunIsFaithful(ops: seq<Op>, depth: nat, tree: iset<Block>)
    requires IsBlockTree(tree) && depth >= 1 && ValidOps(ops, depth, tree)
    ensures Execute(ops, depth).Some?
    ensures Faithful(Execute(ops, depth).value.store, Histories(ops, depth), depth, tree)
    ensures Execute(ops, depth).value.taken == Expected(ops, depth)
  {
    if ops == [] {
      assert IdsOf({}) == {};
    } else {
      var front := DropLast(ops);
      ValidPrefix(ops, depth, tree);
      RunIsFaithful(front, depth, tree);
      StepIsFaithful(Execute(front, depth).value.store, Histories(front, depth), Last(ops), depth, tree);
    }
  }

  lemma ValidPrefix(ops: seq<Op>, depth: nat, tree: iset<Block>)
    requires ops != [] && ValidOps(ops, depth, tree)
    ensures ValidOps(DropLast(ops), depth, tree)
    ensures ValidOp(Histories(DropLast(ops), depth), Last(ops), tree)
  {
    var front := DropLast(ops);
    forall i | 0 <= i < |front| ensures ValidOp(Histories(front[..i], depth), front[i], tree) {
      assert front[..i] == ops[..i] && front[i] == ops[i];
    }
    assert ops[..|ops| - 1] == front && ops[|ops| - 1] == Last(ops);
  }

  lemma StepIsFaithful(st: Store, h: History, op: Op, depth: nat, tree: iset<Block>)
    requires IsBlockTree(tree) && depth >= 1 && Faithful(st, h, depth, tree) && ValidOp(h, op, tree)
    ensures op.AppendOp? ==>
              && Append(st, op.block, depth).Some?
              && Faithful(Append(st, op.block, depth).value, Record(h, op, depth), depth, tree)
    ensures op.TakeOp? ==>
              && Take(st).Some? && Take(st).value.block == Some(Last(h.window).(timestamp := 0))
              && Faithful(Take(st).value.store, Record(h, op, depth), depth, tree)
  {
    if op.TakeOp? {
      TakeIsFaithful(st, h, depth, tree);
    } else if h.window == [] {
      FirstAppend(op.block, depth, tree);
    } else {
      AppendIsFaithful(st, h, op.block, depth, tree);
    }
  }

  /** Every block of the window exists, and no evicted block does. */
  lemma ExistsInWindow(st: Store, h: History, depth: nat, tree: iset<Block>)
    requires IsBlockTree(tree) && Faithful(st, h, depth, tree)
    ensures forall i :: 0 <= i < |h.window| ==> h.window[i].id in st.height
    ensures forall e :: e in h.evicted ==> e.id !in st.height
  {
  }

  /** While the window lasts, both caches report the same best block and give back the same blocks. */
  lemma CachesAgree(st: Store, window: seq<Block>, depth: nat, cache: ChainSync.Cache, chain: seq<Block>,
                    start: nat, tree: iset<Block>)
    requires IsBlockTree(tree) && InTree(chain, tree) && Linked(chain, start) && ChainSync.Holds(cache, chain)
    requires Represents(st, window, depth) && |window| >= 2
    requires |window| <= |chain| && window == chain[|chain| - |window|..]
    ensures cache.best.Some? && st.best == Some(BlockRecord(cache.best.value.id, cache.best.value.height))
    ensures Take(st).Some? && Take(st).value.block.Some? && ChainSync.Take(cache).1.Some?
    ensures Take(st).value.block.value == ChainSync.Take(cache).1.value.(timestamp := 0)
    ensures Represents(Take(st).value.store, DropLast(chain)[|chain| - |window|..], depth)
    ensures ChainSync.Holds(ChainSync.Take(cache).0, DropLast(chain))
  {
    TakeRepresents(st, window, depth);
    ChainSync.TakeHolds(cache, chain, start, tree);
    assert DropLast(window) == DropLast(chain)[|chain| - |window|..];
  }

  // ---------------------------------------------------------------- synchronising over the persistent cache

  datatype Sync = Sync(startingHeight: nat, nextHeight: int, store: Store)

  /** `ChainSync.Upgrade` with the persistent cache; `None` when the cache panics. */
  function Upgrade(s: Sync, answer: Block, depth: nat): Option<(Sync, Option<ChainUpgrade>)> {
    if answer.parentId in s.store.height || answer.height == s.startingHeight then
      match Append(s.store, answer, depth)
      case None => None
      case Some(st) => Some((s.(nextHeight := s.nextHeight + 1, store := st), Some(RollForward(answer))))
    else
      match Take(s.store)
      case None => None
      case Some(t) =>
        if t.block.Some? then
          Some((s.(nextHeight := s.nextHeight - 1, store := t.store), Some(RollBackward(t.block.value))))
        else Some((s.(store := t.store), None))
  }

  function Run(s: Sync, answers: seq<Block>, depth: nat): Option<(Sync, seq<ChainUpgrade>)> {
    if answers == [] then Some((s, []))
    else
      match Run(s, DropLast(answers), depth)
      case None => None
      case Some((mid, log)) =>
        match Upgrade(mid, Last(answers), depth)
        case None => None
        case Some((s', upgrade)) => Some((s', ChainSync.Emit(log, upgrade)))
  }

  /**
   A block rolled forward links to the best block exactly when its parent is not a leftover key of a
   block that was rolled back.
   */
  lemma ForwardLinksIff(s: Sync, h: History, b: Block, depth: nat, tree: iset<Block>)
    requires IsBlockTree(tree) && h.window != [] && Faithful(s.store, h, depth, tree)
    requires b in tree && b.height == Last(h.window).height + 1 && b.height != s.startingHeight
    requires b.parentId in s.store.height
    ensures b.parentId == Last(h.window).id <==> b.parentId !in s.store.height.Keys - Ids(h.window)
  {
    var n := |h.window| - 1;
    assert h.window[n].id in Ids(h.window);
    if b.parentId in Ids(h.window) {
      var i :| 0 <= i < |h.window| && h.window[i].id == b.parentId;
      assert h.window[i] in tree && h.window[i].height == h.window[0].height + i && Coherent(h.window[i], b);
    }
  }

  /** The `i`-th answer is a block at the height asked for. */
  ghost predicate AnswersNext(answers: seq<Block>, i: nat, depth: nat)
    requires i < |answers|
  {
    var reached := Run(Sync(10, 10, EMPTY_STORE), answers[..i], depth);
    reached.Some? && answers[i].height == reached.value.0.nextHeight
  }

  /**
   Safety is lost over the persistent cache: after a fork is abandoned and taken up again, a child of a
   rolled-back block is rolled forward on top of a block that is not its parent.
   */
  lemma UnlinkedOverPersistentCache(depth: nat)
    returns (answers: seq<Block>, tree: iset<Block>, log: seq<ChainUpgrade>, chain: seq<Block>)
    requires depth >= 4
    ensures IsBlockTree(tree) && forall i :: 0 <= i < |answers| ==> answers[i] in tree
    ensures Run(Sync(10, 10, EMPTY_STORE), answers, depth).Some?
    ensures Run(Sync(10, 10, EMPTY_STORE), answers, depth).value.1 == log
    ensures forall i :: 0 <= i < |answers| ==> AnswersNext(answers, i, depth)
    ensures Replay(log) == Some(chain) && !Linked(chain, 10)
  {
    var a, b, b' := Block(1, 0, 10, 0, []), Block(2, 1, 11, 0, []), Block(3, 1, 11, 0, []);
    var c, c' := Block(4, 2, 12, 0, []), Block(5, 3, 12, 0, []);
    tree := iset{a, b, b', c, c'};
    answers := [a, b, c', b', c];
    log := [RollForward(a), RollForward(b), RollBackward(b), RollForward(b'), RollForward(c)];
    chain := [a, b', c];
    var states := ForkStates(a, b, b', c, c', depth, answers, log);
    ForkRun(states, answers, log, depth);
    ReplayOfFork(a, b, b', c, log);
    ForkTree(a, b, b', c, c');
  }

  lemma ForkRun(states: seq<Sync>, answers: seq<Block>, log: seq<ChainUpgrade>, depth: nat)
    requires |states| == |answers| + 1 == |log| + 1 && states[0] == Sync(10, 10, EMPTY_STORE)
    requires forall i :: 0 <= i < |answers| ==> StepsTo(states, answers, log, i, depth)
    ensures Run(states[0], answers, depth) == Some((states[|answers|], log))
    ensures forall i :: 0 <= i < |answers| ==> AnswersNext(answers, i, depth)
  {
    forall i | 0 <= i <= |answers|
      ensures Run(states[0], answers[..i], depth) == Some((states[i], log[..i]))
    {
      RunSteps(states, answers, log, depth, i);
    }
    forall i | 0 <= i < |answers| ensures AnswersNext(answers, i, depth) {
      assert StepsTo(states, answers, log, i, depth);
    }
    assert answers[..|answers|] == answers && log[..|answers|] == log;
  }

  ghost predicate StepsTo(states: seq<Sync>, answers: seq<Block>, log: seq<ChainUpgrade>, i: nat, depth: nat)
    requires i < |answers| && |states| == |answers| + 1 == |log| + 1
  {
    && Upgrade(states[i], answers[i], depth) == Some((states[i + 1], Some(log[i])))
    && answers[i].height == states[i].nextHeight
  }

  lemma {:induction false} RunSteps(
    states: seq<Sync>, answers: seq<Block>, log: seq<ChainUpgrade>, depth: nat, i: nat)
    requires |states| == |answers| + 1 == |log| + 1 && i <= |answers|
    requires forall k :: 0 <= k < |answers| ==> StepsTo(states, answers, log, k, depth)
    ensures Run(states[0], answers[..i], depth) == Some((states[i], log[..i]))
  {
    if i > 0 {
      RunSteps(states, answers, log, depth, i - 1);
      assert StepsTo(states, answers, log, i - 1, depth);
      assert DropLast(answers[..i]) == answers[..i - 1];
      assert log[..i - 1] + [log[i - 1]] == log[..i];
    }
  }

  lemma ForkTree(a: Block, b: Block, b': Block, c: Block, c': Block)
    requires a == Block(1, 0, 10, 0, []) && b == Block(2, 1, 11, 0, []) && b' == Block(3, 1, 11, 0, [])
    requires c == Block(4, 2, 12, 0, []) && c' == Block(5, 3, 12, 0, [])
    ensures IsBlockTree(iset{a, b, b', c, c'})
    ensures !Linked([a, b', c], 10)
  {
    assert [a, b', c][2].parentId != [a, b', c][1].id;
  }

  lemma ForkStates(a: Block, b: Block, b': Block, c: Block, c': Block, depth: nat,
                   answers: seq<Block>, log: seq<ChainUpgrade>)
    returns (states: seq<Sync>)
    requires depth >= 4
    requires a == Block(1, 0, 10, 0, []) && b == Block(2, 1, 11, 0, []) && b' == Block(3, 1, 11, 0, [])
    requires c == Block(4, 2, 12, 0, []) && c' == Block(5, 3, 12, 0, [])
    requires answers == [a, b, c', b', c]
    requires log == [RollForward(a), RollForward(b), RollBackward(b), RollForward(b'), RollForward(c)]
    ensures |states| == 6 && states[0] == Sync(10, 10, EMPTY_STORE)
    ensures forall i :: 0 <= i < 5 ==> StepsTo(states, answers, log, i, depth)
  {
    assert TxIds([]) == [];
    var s0 := Sync(10, 10, EMPTY_STORE);
    var s1 := Sync(10, 11, Append(s0.store, a, depth).value);
    var s2 := Sync(10, 12, Append(s1.store, b, depth).value);
    var s3 := Sync(10, 11, Take(s2.store).value.store);
    var s4 := Sync(10, 12, Append(s3.store, b', depth).value);
    var s5 := Sync(10, 13, Append(s4.store, c, depth).value);
    states := [s0, s1, s2, s3, s4, s5];
  }

  lemma ReplayOfFork(a: Block, b: Block, b': Block, c: Block, log: seq<ChainUpgrade>)
    requires log == [RollForward(a), RollForward(b), RollBackward(b), RollForward(b'), RollForward(c)]
    ensures Replay(log) == Some([a, b', c])
  {
    ReplayStep(log, 0, [], [a]);
    ReplayStep(log, 1, [a], [a, b]);
    ReplayStep(log, 2, [a, b], [a]);
    ReplayStep(log, 3, [a], [a, b']);
    ReplayStep(log, 4, [a, b'], [a, b', c]);
    assert log[..5] == log;
  }

  lemma ReplayStep(log: seq<ChainUpgrade>, i: nat, before: seq<Block>, after: seq<Block>)
    requires i < |log| && Replay(log[..i]) == Some(before)
    requires log[i].RollForward? ==> after == before + [log[i].blk]
    requires log[i].RollBackward? ==> before == after + [log[i].blk]
    ensures Replay(log[..i + 1]) == Some(after)
  {
    assert DropLast(log[..i + 1]) == log[..i];
    assert log[i].RollBackward? ==> DropLast(before) == after;
  }
}
