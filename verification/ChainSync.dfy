/** Chain synchronisation over the in-memory cache. */
module ChainSync {
  import opened Wrappers
  import opened Chain

  // ---------------------------------------------------------------- in-memory cache

  datatype Best = Best(id: BlockId, parentId: BlockId, height: nat)
  datatype Cache = Cache(blocks: map<BlockId, Block>, best: Option<Best>)

  function BestOf(b: Block): Best {
    Best(b.id, b.parentId, b.height)
  }

  function Append(c: Cache, b: Block): Cache {
    Cache(c.blocks[b.id := b], Some(BestOf(b)))
  }

  function Take(c: Cache): (Cache, Option<Block>) {
    match c.best
    case None => (c, None)
    case Some(best) =>
      var next := if best.parentId in c.blocks then Some(BestOf(c.blocks[best.parentId])) else None;
      (Cache(c.blocks - {best.id}, next),
       if best.id in c.blocks then Some(c.blocks[best.id]) else None)
  }

  class InMemoryCache {
    var blocks: map<BlockId, Block>
    var best: Option<Best>

    function View(): Cache
      reads this
    {
      Cache(blocks, best)
    }

    constructor ()
      ensures View() == Cache(map[], None)
    {
      blocks, best := map[], None;
    }

    method AppendBlock(block: Block)
      modifies this
      ensures View() == Append(old(View()), block)
    {
      blocks := blocks[block.id := block];
      best := Some(Best(block.id, block.parentId, block.height));
    }

    method Exists(id: BlockId) returns (r: bool)
      ensures r <==> id in blocks
    {
      r := id in blocks;
    }

    method GetBestBlock() returns (r: Option<BlockRecord>)
      ensures best.None? ==> r == None
      ensures best.Some? ==> r == Some(BlockRecord(best.value.id, best.value.height))
    {
      r := match best case None => None case Some(b) => Some(BlockRecord(b.id, b.height));
    }

    method TakeBestBlock() returns (r: Option<Block>)
      modifies this
      ensures (View(), r) == Take(old(View()))
    {
      var taken := best;
      best := None;
      if taken.None? { return None; }
      var id, parentId := taken.value.id, taken.value.parentId;
      if parentId in blocks {
        var parent := blocks[parentId];
        best := Some(Best(parent.id, parent.parentId, parent.height));
      }
      r := if id in blocks then Some(blocks[id]) else None;
      blocks := blocks - {id};
    }
  }

  // ---------------------------------------------------------------- synchronisation

  datatype Sync = Sync(startingHeight: nat, nextHeight: int, cache: Cache)

  function Init(startingHeight: nat, cache: Cache): Sync {
    var startAt :=
      match cache.best
      case None => startingHeight
      case Some(b) => if b.height > startingHeight then b.height else startingHeight;
    Sync(startingHeight, startAt, cache)
  }

  /** A synchroniser that starts on a cached chain asks for the last block of that chain, not for the next one. */
  lemma InitAtBest(startingHeight: nat, cache: Cache, chain: seq<Block>)
    requires Holds(cache, chain) && Linked(chain, startingHeight)
    ensures Init(startingHeight, cache).nextHeight
            == startingHeight + if chain == [] then 0 else |chain| - 1
  {
  }

  /** One attempt to upgrade, given the node's answer for the next height. */
  function Upgrade(s: Sync, answer: Option<Block>): (Sync, Option<ChainUpgrade>) {
    match answer
    case None => (s, None)
    case Some(b) =>
      if b.parentId in s.cache.blocks || b.height == s.startingHeight then
        (s.(nextHeight := s.nextHeight + 1, cache := Append(s.cache, b)), Some(RollForward(b)))
      else
        match Take(s.cache)
        case (_, None) => (s.(cache := Take(s.cache).0), None)
        case (cache, Some(discarded)) =>
          (s.(nextHeight := s.nextHeight - 1, cache := cache),
           Some(RollBackward(discarded)))
  }

  class ChainSynchroniser {
    const startingHeight: nat
    const cache: InMemoryCache
    var nextHeight: int

    function View(): Sync
      reads this, cache
    {
      Sync(startingHeight, nextHeight, cache.View())
    }

    constructor (startingHeight: nat, cache: InMemoryCache)
      ensures View() == Init(startingHeight, cache.View())
      ensures this.cache == cache
    {
      var start := startingHeight;
      var best := cache.GetBestBlock();
      if best.Some? && best.value.height > start { start := best.value.height; }
      this.startingHeight, this.cache, this.nextHeight := startingHeight, cache, start;
    }

    method TryUpgrade(answer: Option<Block>) returns (r: Option<ChainUpgrade>)
      modifies this, cache
      ensures (View(), r) == Upgrade(old(View()), answer)
    {
      if answer.None? { return None; }
      var b := answer.value;
      var linked := cache.Exists(b.parentId);
      if linked || b.height == startingHeight {
        cache.AppendBlock(b);
        nextHeight := nextHeight + 1;
        return Some(RollForward(b));
      }
      var discarded := cache.TakeBestBlock();
      if discarded.Some? {
        nextHeight := nextHeight - 1;
        return Some(RollBackward(discarded.value));
      }
      return None;
    }
  }

  // ---------------------------------------------------------------- safety

  /** The cache holds exactly the blocks of `chain`, with its last block as the best one. */
  ghost predicate Holds(c: Cache, chain: seq<Block>) {
    && c.blocks.Keys == Ids(chain)
    && (forall i :: 0 <= i < |chain| ==> c.blocks[chain[i].id] == chain[i])
    && c.best == if chain == [] then None else Some(BestOf(Last(chain)))
  }

  /** The synchroniser, the log it emitted and the chain it caches tell the same story. */
  ghost predicate Synced(s: Sync, log: seq<ChainUpgrade>, chain: seq<Block>, tree: iset<Block>) {
    && Replay(log) == Some(chain)
    && Linked(chain, s.startingHeight)
    && InTree(chain, tree)
    && Holds(s.cache, chain)
    && s.nextHeight == s.startingHeight + |chain|
  }

  /** The node answers with a block of the tree at the requested height, or not at all. */
  ghost predicate NodeAnswer(s: Sync, answer: Option<Block>, tree: iset<Block>) {
    answer.Some? ==> answer.value in tree && answer.value.height == s.nextHeight
  }

  function Emit(log: seq<ChainUpgrade>, upgrade: Option<ChainUpgrade>): seq<ChainUpgrade> {
    if upgrade.Some? then log + [upgrade.value] else log
  }

  /** The chain after an upgrade. */
  function Moved(chain: seq<Block>, upgrade: Option<ChainUpgrade>): seq<Block> {
    match upgrade
    case None => chain
    case Some(RollForward(b)) => chain + [b]
    case Some(RollBackward(_)) => if chain == [] then [] else DropLast(chain)
  }

  lemma AppendHolds(c: Cache, chain: seq<Block>, b: Block)
    requires Holds(c, chain)
    requires b.id !in Ids(chain)
    ensures Holds(Append(c, b), chain + [b])
  {
    IdsOfPush(chain, b);
    forall i | 0 <= i < |chain| ensures chain[i].id in Ids(chain) {
    }
  }

  lemma TakeHolds(c: Cache, chain: seq<Block>, start: nat, tree: iset<Block>)
    requires IsBlockTree(tree) && InTree(chain, tree) && Linked(chain, start)
    requires Holds(c, chain) && chain != []
    ensures Take(c).1 == Some(Last(chain))
    ensures Holds(Take(c).0, DropLast(chain))
  {
    var n := |chain| - 1;
    var last := chain[n];
    assert last.id in Ids(chain);
    IdsOfPop(chain, start, tree);
    LinkedIsDistinct(chain, start, tree);
    if n == 0 {
      assert Coherent(last, last) && Ids(chain) == {last.id};
    } else {
      assert chain[n].parentId == chain[n - 1].id && chain[n - 1].id in Ids(chain);
    }
  }

  /** A known parent of the block at the next height can only be the best block. */
  lemma KnownParentIsBest(s: Sync, chain: seq<Block>, b: Block, tree: iset<Block>)
    requires IsBlockTree(tree) && InTree(chain, tree) && Linked(chain, s.startingHeight) && Holds(s.cache, chain)
    requires s.nextHeight == s.startingHeight + |chain|
    requires b in tree && b.height == s.nextHeight && b.parentId in s.cache.blocks
    ensures chain != [] && b.parentId == Last(chain).id
  {
    var i :| 0 <= i < |chain| && chain[i].id == b.parentId;
    assert Coherent(chain[i], b);
  }

  lemma NewHeightIsNew(s: Sync, chain: seq<Block>, b: Block, tree: iset<Block>)
    requires IsBlockTree(tree) && InTree(chain, tree) && Linked(chain, s.startingHeight)
    requires s.nextHeight == s.startingHeight + |chain|
    requires b in tree && b.height == s.nextHeight
    ensures b.id !in Ids(chain)
  {
    forall i | 0 <= i < |chain| ensures chain[i].id != b.id {
      assert Coherent(chain[i], b);
    }
  }

  /** Every upgrade keeps log, chain and cache in step, and a rollback carries the last standing block. */
  lemma UpgradeKeepsSynced(s: Sync, log: seq<ChainUpgrade>, chain: seq<Block>, answer: Option<Block>, tree: iset<Block>)
    requires IsBlockTree(tree) && Synced(s, log, chain, tree) && NodeAnswer(s, answer, tree)
    ensures var (s', upgrade) := Upgrade(s, answer);
            && Synced(s', Emit(log, upgrade), Moved(chain, upgrade), tree)
            && s'.startingHeight == s.startingHeight
            && (upgrade.Some? <==> answer.Some?)
            && (upgrade.Some? && upgrade.value.RollBackward? ==> chain != [] && upgrade.value.blk == Last(chain))
  {
    if answer.Some? {
      var b := answer.value;
      if b.parentId in s.cache.blocks || b.height == s.startingHeight {
        ForwardKeepsSynced(s, log, chain, b, tree);
      } else {
        BackwardKeepsSynced(s, log, chain, tree);
      }
    }
  }

  lemma ForwardKeepsSynced(s: Sync, log: seq<ChainUpgrade>, chain: seq<Block>, b: Block, tree: iset<Block>)
    requires IsBlockTree(tree) && Synced(s, log, chain, tree)
    requires b in tree && b.height == s.nextHeight
    requires b.parentId in s.cache.blocks || b.height == s.startingHeight
    ensures Synced(s.(nextHeight := s.nextHeight + 1, cache := Append(s.cache, b)),
                   log + [RollForward(b)], chain + [b], tree)
  {
    if b.parentId in s.cache.blocks { KnownParentIsBest(s, chain, b, tree); }
    NewHeightIsNew(s, chain, b, tree);
    AppendHolds(s.cache, chain, b);
    assert DropLast(log + [RollForward(b)]) == log;
    assert Linked(chain + [b], s.startingHeight);
  }

  lemma BackwardKeepsSynced(s: Sync, log: seq<ChainUpgrade>, chain: seq<Block>, tree: iset<Block>)
    requires IsBlockTree(tree) && Synced(s, log, chain, tree) && chain != []
    ensures Take(s.cache).1 == Some(Last(chain))
    ensures Synced(s.(nextHeight := s.nextHeight - 1, cache := Take(s.cache).0),
                   log + [RollBackward(Last(chain))], DropLast(chain), tree)
  {
    TakeHolds(s.cache, chain, s.startingHeight, tree);
    assert DropLast(log + [RollBackward(Last(chain))]) == log;
  }

  /** A whole run: the node answers one request after the other. */
  function Run(s: Sync, answers: seq<Option<Block>>): (Sync, seq<ChainUpgrade>) {
    if answers == [] then (s, [])
    else
      var (mid, log) := Run(s, DropLast(answers));
      var (s', upgrade) := Upgrade(mid, Last(answers));
      (s', Emit(log, upgrade))
  }

  ghost predicate NodeAnswers(s: Sync, answers: seq<Option<Block>>, tree: iset<Block>) {
    forall i :: 0 <= i < |answers| ==> NodeAnswer(Run(s, answers[..i]).0, answers[i], tree)
  }

  /** Safety of every run from an empty cache, whatever forks the node serves. */
  lemma {:induction false} SyncSafety(start: nat, answers: seq<Option<Block>>, tree: iset<Block>)
    requires IsBlockTree(tree)
    requires NodeAnswers(Init(start, Cache(map[], None)), answers, tree)
    ensures var (s, log) := Run(Init(start, Cache(map[], None)), answers);
            && s.startingHeight == start
            && Replay(log).Some? && Synced(s, log, Replay(log).value, tree)
  {
    var s0 := Init(start, Cache(map[], None));
    if answers != [] {
      var front := DropLast(answers);
      assert forall i :: 0 <= i < |front| ==> front[..i] == answers[..i] && front[i] == answers[i];
      SyncSafety(start, front, tree);
      var (mid, log) := Run(s0, front);
      assert answers[..|front|] == front;
      UpgradeKeepsSynced(mid, log, Replay(log).value, Last(answers), tree);
    }
  }

  // ---------------------------------------------------------------- convergence

  /** What a node whose best chain is `main` answers. */
  function AnswerFrom(main: seq<Block>, s: Sync): Option<Block> {
    if s.startingHeight <= s.nextHeight < s.startingHeight + |main| then Some(main[s.nextHeight - s.startingHeight])
    else None
  }

  function Follow(s: Sync, main: seq<Block>, n: nat): Sync
    decreases n
  {
    if n == 0 then s else Follow(Upgrade(s, AnswerFrom(main, s)).0, main, n - 1)
  }

  /** Against a longer chain the synchroniser rolls forward exactly when it is on that chain. */
  lemma FollowStep(s: Sync, log: seq<ChainUpgrade>, chain: seq<Block>, main: seq<Block>, tree: iset<Block>)
    requires IsBlockTree(tree) && Synced(s, log, chain, tree)
    requires Linked(main, s.startingHeight) && InTree(main, tree) && |chain| < |main|
    ensures var upgrade := Upgrade(s, AnswerFrom(main, s)).1;
            Moved(chain, upgrade) == if chain == main[..|chain|] then main[..|chain| + 1] else DropLast(chain)
  {
    var n := |chain|;
    var b := main[n];
    assert AnswerFrom(main, s) == Some(b);
    if n == 0 {
      assert main[..0] == [];
    } else if b.parentId in s.cache.blocks {
      KnownParentIsBest(s, chain, b, tree);
      assert main[n - 1].id == chain[n - 1].id && Coherent(main[n - 1], chain[n - 1]);
      MeetingChainsAgree(chain, main, s.startingHeight, tree, n);
      assert chain[..n] == chain && main[..n + 1] == main[..n] + [b];
    } else {
      assert chain[n - 1].id in Ids(chain) && b.parentId == main[n - 1].id;
      assert main[..n][n - 1] == main[n - 1];
      TakeHolds(s.cache, chain, s.startingHeight, tree);
    }
  }

  /** What one step of following `main` does to the cached chain. */
  function NextChain(chain: seq<Block>, main: seq<Block>): seq<Block> {
    if chain == main then main
    else if |chain| < |main| && chain == main[..|chain|] then main[..|chain| + 1]
    else if chain == [] then [] else DropLast(chain)
  }

  function FollowChain(chain: seq<Block>, main: seq<Block>, n: nat): seq<Block>
    decreases n
  {
    if n == 0 then chain else FollowChain(NextChain(chain, main), main, n - 1)
  }

  ghost predicate OnChain(s: Sync, chain: seq<Block>, tree: iset<Block>) {
    exists log :: Synced(s, log, chain, tree)
  }

  lemma FollowOnce(s: Sync, log: seq<ChainUpgrade>, chain: seq<Block>, main: seq<Block>, tree: iset<Block>)
    returns (s': Sync, log': seq<ChainUpgrade>, chain': seq<Block>)
    requires IsBlockTree(tree) && Synced(s, log, chain, tree)
    requires Linked(main, s.startingHeight) && InTree(main, tree) && |chain| < |main|
    ensures s' == Upgrade(s, AnswerFrom(main, s)).0 && s'.startingHeight == s.startingHeight
    ensures Synced(s', log', chain', tree)
    ensures chain == main[..|chain|] ==> chain' == main[..|chain| + 1]
    ensures chain != main[..|chain|] ==> chain != [] && chain' == DropLast(chain)
  {
    var upgrade := Upgrade(s, AnswerFrom(main, s)).1;
    FollowStep(s, log, chain, main, tree);
    UpgradeKeepsSynced(s, log, chain, AnswerFrom(main, s), tree);
    s', log', chain' := Upgrade(s, AnswerFrom(main, s)).0, Emit(log, upgrade), Moved(chain, upgrade);
  }

  /** The synchroniser is on `chain` and follows a node that serves `main`. */
  ghost predicate Following(s: Sync, chain: seq<Block>, main: seq<Block>, tree: iset<Block>) {
    && IsBlockTree(tree) && OnChain(s, chain, tree)
    && Linked(main, s.startingHeight) && InTree(main, tree)
    && (|chain| < |main| || chain == main)
  }

  lemma FollowingStep(s: Sync, chain: seq<Block>, main: seq<Block>, tree: iset<Block>)
    requires Following(s, chain, main, tree)
    ensures Following(Upgrade(s, AnswerFrom(main, s)).0, NextChain(chain, main), main, tree)
  {
    var log :| Synced(s, log, chain, tree);
    if chain == main {
      assert AnswerFrom(main, s) == None;
    } else {
      var s', log', chain' := FollowOnce(s, log, chain, main, tree);
      assert chain' == NextChain(chain, main);
      if |chain'| == |main| { assert main[..|main|] == main; }
    }
  }

  lemma {:induction false} FollowKeepsOnChain(s: Sync, chain: seq<Block>, main: seq<Block>, tree: iset<Block>, n: nat)
    requires Following(s, chain, main, tree)
    ensures Following(Follow(s, main, n), FollowChain(chain, main, n), main, tree)
    decreases n
  {
    if n > 0 {
      FollowingStep(s, chain, main, tree);
      FollowKeepsOnChain(Upgrade(s, AnswerFrom(main, s)).0, NextChain(chain, main), main, tree, n - 1);
    }
  }

  lemma {:induction false} FollowChainReaches(chain: seq<Block>, main: seq<Block>, fork: nat)
    requires |chain| < |main| || chain == main
    requires fork <= |chain| && fork <= |main| && chain[..fork] == main[..fork]
    requires fork < |chain| && fork < |main| ==> chain[fork] != main[fork]
    ensures FollowChain(chain, main, |chain| + |main| - 2 * fork) == main
    decreases |chain| + |main| - 2 * fork
  {
    if chain != main {
      if fork == |chain| {
        assert chain == main[..fork];
        var next := main[..fork + 1];
        assert next[..fork + 1] == main[..fork + 1];
        if fork + 1 == |main| { assert next == main; }
        FollowChainReaches(next, main, fork + 1);
      } else {
        assert chain != main[..|chain|] by { assert main[..|chain|][fork] == main[fork]; }
        assert DropLast(chain)[..fork] == chain[..fork];
        FollowChainReaches(DropLast(chain), main, fork);
      }
    }
  }

  /**
   Convergence. A node that keeps serving a longer chain is caught up with after one step per block
   above the fork point on either side, and the cache then holds exactly the node's chain.
   */
  lemma FollowConverges(s: Sync, chain: seq<Block>, main: seq<Block>, tree: iset<Block>, fork: nat)
    requires Following(s, chain, main, tree) && chain != main
    requires fork <= |chain| && chain[..fork] == main[..fork]
    requires fork < |chain| ==> chain[fork] != main[fork]
    ensures OnChain(Follow(s, main, |chain| + |main| - 2 * fork), main, tree)
  {
    FollowChainReaches(chain, main, fork);
    FollowArrives(s, chain, main, tree, |chain| + |main| - 2 * fork);
  }

  lemma FollowArrives(s: Sync, chain: seq<Block>, main: seq<Block>, tree: iset<Block>, n: nat)
    requires Following(s, chain, main, tree) && FollowChain(chain, main, n) == main
    ensures OnChain(Follow(s, main, n), main, tree)
  {
    FollowKeepsOnChain(s, chain, main, tree, n);
  }
}
