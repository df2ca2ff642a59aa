/**
 Restart of chain synchronisation on a persistent cache that holds blocks. It starts at the height of the best block
 instead of the one above, so it passes over the last block that it has not rolled back.
 */
module RocksRestart {
  import opened Wrappers
  import opened Chain
  import opened RocksCache
  import opened RocksRuns
  import ChainSync

  function Restart(startingHeight: nat, st: Store): Sync {
    var startAt :=
      match st.best
      case None => startingHeight
      case Some(b) => if b.height > startingHeight then b.height else startingHeight;
    Sync(startingHeight, startAt, st)
  }

  /** The synchroniser and the chain its consumers have applied. */
  datatype Watched = Watched(sync: Sync, applied: seq<Block>)

  /** One attempt against a node whose best chain is `main`; `None` when the cache panics. */
  function Step(w: Watched, main: seq<Block>, depth: nat): Option<Watched>
    requires main != []
  {
    var i := w.sync.nextHeight - main[0].height;
    if !(0 <= i < |main|) then Some(w)
    else
      match Upgrade(w.sync, main[i], depth)
      case None => None
      case Some((s, upgrade)) => Some(Watched(s, ChainSync.Moved(w.applied, upgrade)))
  }

  ghost predicate IsStep(run: seq<Watched>, i: nat, main: seq<Block>, depth: nat)
    requires main != [] && i + 1 < |run|
  {
    Step(run[i], main, depth) == Some(run[i + 1])
  }

  ghost predicate IsRun(run: seq<Watched>, main: seq<Block>, depth: nat)
    requires main != []
  {
    forall i {:trigger IsStep(run, i, main, depth)} :: 0 <= i < |run| - 1 ==> IsStep(run, i, main, depth)
  }

  /** `n` attempts lead from one state to the other without a panic. */
  ghost predicate Reaches(w: Watched, w': Watched, main: seq<Block>, depth: nat, n: nat)
    requires main != []
  {
    exists run :: IsRun(run, main, depth) && |run| == n + 1 && run[0] == w && run[n] == w'
  }

  lemma ReachesItself(w: Watched, main: seq<Block>, depth: nat)
    requires main != []
    ensures Reaches(w, w, main, depth, 0)
  {
    assert IsRun([w], main, depth);
  }

  lemma ReachesNext(w: Watched, w': Watched, main: seq<Block>, depth: nat)
    requires main != [] && Step(w, main, depth) == Some(w')
    ensures Reaches(w, w', main, depth, 1)
  {
    var run := [w, w'];
    assert IsStep(run, 0, main, depth);
    assert IsRun(run, main, depth);
  }

  lemma ReachesAcross(w: Watched, mid: Watched, w': Watched, main: seq<Block>, depth: nat, n: nat, m: nat)
    returns (sum: nat)
    requires main != [] && Reaches(w, mid, main, depth, n) && Reaches(mid, w', main, depth, m)
    ensures Reaches(w, w', main, depth, sum) && sum == n + m
  {
    sum := n + m;
    var a :| IsRun(a, main, depth) && |a| == n + 1 && a[0] == w && a[n] == mid;
    var b :| IsRun(b, main, depth) && |b| == m + 1 && b[0] == mid && b[m] == w';
    var run := a + b[1..];
    forall i | 0 <= i < n + m ensures IsStep(run, i, main, depth) {
      if i < n {
        assert IsStep(a, i, main, depth) && run[i] == a[i] && run[i + 1] == a[i + 1];
      } else {
        assert IsStep(b, i - n, main, depth) && run[i] == b[i - n] && run[i + 1] == b[i - n + 1];
      }
    }
    assert IsRun(run, main, depth);
  }

  /** The node's best chain from the height of the oldest cached block on. */
  ghost predicate NodeChain(main: seq<Block>, startingHeight: nat) {
    && main != [] && startingHeight <= main[0].height
    && Linked(main, main[0].height) && UniqueTxs(main)
    && forall i, j :: 0 <= i < j < |main| ==> main[i].id != main[j].id
  }

  /** The store has the first `fork` blocks of the node's chain, and no other one of them. */
  ghost predicate KnownUpTo(st: Store, window: seq<Block>, main: seq<Block>, fork: nat) {
    && fork <= |window| <= |main|
    && window[..fork] == main[..fork]
    && forall i :: fork <= i < |main| ==> main[i].id !in st.height
  }

  // ---------------------------------------------------------------- rolling back

  /** The store holds the window, all of it applied, and asks for its last block again. */
  ghost predicate AtBest(w: Watched, window: seq<Block>, depth: nat) {
    && Represents(w.sync.store, window, depth)
    && w.sync.nextHeight == Last(window).height
    && w.applied == window
  }

  lemma RollsBack(w: Watched, window: seq<Block>, main: seq<Block>, fork: nat, depth: nat) returns (w': Watched)
    requires AtBest(w, window, depth) && NodeChain(main, w.sync.startingHeight)
    requires KnownUpTo(w.sync.store, window, main, fork) && 1 <= fork && |window| >= fork + 2
    ensures Reaches(w, w', main, depth, 1) && AtBest(w', DropLast(window), depth)
    ensures w'.sync.startingHeight == w.sync.startingHeight
    ensures KnownUpTo(w'.sync.store, DropLast(window), main, fork)
  {
    var n := |window| - 1;
    assert window[..fork][0] == main[..fork][0];
    assert Last(window).height == main[0].height + n;
    assert main[n].parentId == main[n - 1].id;
    TakeRepresents(w.sync.store, window, depth);
    assert DropLast(window)[..fork] == window[..fork];
    w' := Step(w, main, depth).value;
    ReachesNext(w, w', main, depth);
  }

  lemma {:induction false} RollsBackToFork(w: Watched, window: seq<Block>, main: seq<Block>, fork: nat, depth: nat)
    returns (w': Watched, n: nat)
    requires AtBest(w, window, depth) && NodeChain(main, w.sync.startingHeight)
    requires KnownUpTo(w.sync.store, window, main, fork) && 1 <= fork < |window|
    ensures Reaches(w, w', main, depth, n) && n == |window| - fork - 1
    ensures AtBest(w', window[..fork + 1], depth) && w'.sync.startingHeight == w.sync.startingHeight
    decreases |window|
  {
    if |window| == fork + 1 {
      assert window[..fork + 1] == window;
      w', n := w, 0;
      ReachesItself(w, main, depth);
    } else {
      var next := RollsBack(w, window, main, fork, depth);
      w', n := RollsBackToFork(next, DropLast(window), main, fork, depth);
      n := ReachesAcross(w, next, w', main, depth, 1, n);
      assert DropLast(window)[..fork + 1] == window[..fork + 1];
    }
  }

  // ---------------------------------------------------------------- rolling forward

  /** The store holds the last blocks of `main[..k]` and asks for the next one. */
  ghost predicate Upto(w: Watched, main: seq<Block>, from: nat, k: nat, depth: nat) {
    && from < k <= |main|
    && Represents(w.sync.store, main[from..k], depth)
    && w.sync.nextHeight == main[0].height + k
  }

  lemma NextOfMain(main: seq<Block>, startingHeight: nat, from: nat, k: nat)
    requires NodeChain(main, startingHeight) && from < k < |main|
    ensures CanAppend(main[from..k], main[k])
    ensures main[from..k] + [main[k]] == main[from..k + 1]
  {
    var window := main[from..k];
    assert window + [main[k]] == main[from..k + 1];
    forall i | 0 <= i < |window| ensures window[i].id != main[k].id {
      assert window[i] == main[from + i];
    }
    UniquePart(main, from, k + 1);
  }

  lemma UniquePart(main: seq<Block>, from: nat, to: nat)
    requires UniqueTxs(main) && from <= to <= |main|
    ensures UniqueTxs(main[from..to])
  {
    var part := main[from..to];
    forall i, j | 0 <= i < |part| && 0 <= j < |part| && i != j ensures DisjointTxs(part[i], part[j]) {
      assert DisjointTxs(main[from + i], main[from + j]);
    }
  }

  /** The window after a push is again the end of `main[..k + 1]`. */
  lemma PushOfMain(main: seq<Block>, from: nat, k: nat, depth: nat) returns (from': nat)
    requires from < k < |main| && depth >= 1
    ensures from' <= k && Push(main[from..k], main[k], depth) == main[from'..k + 1]
    ensures k - from < depth ==> from' == from
  {
    from' := if k - from == depth then from + 1 else from;
  }

  lemma RollsForward(w: Watched, main: seq<Block>, from: nat, k: nat, depth: nat) returns (w': Watched, from': nat)
    requires NodeChain(main, w.sync.startingHeight) && Upto(w, main, from, k, depth) && k < |main|
    ensures Reaches(w, w', main, depth, 1) && Upto(w', main, from', k + 1, depth)
    ensures w'.applied == w.applied + [main[k]] && w'.sync.startingHeight == w.sync.startingHeight
  {
    var window := main[from..k];
    assert StoresBlock(w.sync.store, window[k - from - 1]) && window[k - from - 1] == main[k - 1];
    NextOfMain(main, w.sync.startingHeight, from, k);
    AppendRepresents(w.sync.store, window, main[k], depth);
    from' := PushOfMain(main, from, k, depth);
    w' := Step(w, main, depth).value;
    ReachesNext(w, w', main, depth);
  }

  lemma FromNext(s: seq<Block>, main: seq<Block>, k: nat)
    requires k < |main|
    ensures s + [main[k]] + main[k + 1..] == s + main[k..]
  {
  }

  lemma {:induction false} RollsForwardToTip(w: Watched, main: seq<Block>, from: nat, k: nat, depth: nat)
    returns (w': Watched, from': nat, n: nat)
    requires NodeChain(main, w.sync.startingHeight) && Upto(w, main, from, k, depth)
    ensures Reaches(w, w', main, depth, n) && n == |main| - k && Upto(w', main, from', |main|, depth)
    ensures w'.applied == w.applied + main[k..]
    decreases |main| - k
  {
    if k == |main| {
      w', from', n := w, from, 0;
      ReachesItself(w, main, depth);
    } else {
      var next, at := RollsForward(w, main, from, k, depth);
      w', from', n := RollsForwardToTip(next, main, at, k + 1, depth);
      n := ReachesAcross(w, next, w', main, depth, 1, n);
      FromNext(w.applied, main, k);
    }
  }

  // ---------------------------------------------------------------- the block passed over

  /** But for the record of the best block, the store also represents the window without its last block. */
  lemma RepresentsBelow(st: Store, window: seq<Block>, depth: nat)
    requires Represents(st, window, depth) && |window| >= 2
    ensures var rest := DropLast(window); Represents(st.(best := Some(RecordOf(Last(rest)))), rest, depth)
  {
    var rest := DropLast(window);
    UniqueFront(window);
    forall i | 0 <= i < |rest| ensures StoresBlock(st.(best := Some(RecordOf(Last(rest)))), rest[i]) {
      assert StoresBlock(st, window[i]);
    }
  }

  lemma AppendsBeside(st: Store, window: seq<Block>, b: Block, depth: nat)
    requires Represents(st, window, depth) && |window| >= 2 && CanAppend(DropLast(window), b)
    ensures Append(st, b, depth).Some? && Represents(Append(st, b, depth).value, DropLast(window) + [b], depth)
  {
    var rest := DropLast(window);
    var below := st.(best := Some(RecordOf(Last(rest))));
    RepresentsBelow(st, window, depth);
    AppendRepresents(below, rest, b, depth);
    assert Append(below, b, depth) == Append(st, b, depth);
  }

  /** A block on top of the last but one is appended, and the last one is not rolled back. */
  lemma PassesOver(w: Watched, window: seq<Block>, main: seq<Block>, depth: nat) returns (w': Watched)
    requires AtBest(w, window, depth) && NodeChain(main, w.sync.startingHeight) && 2 <= |window| <= |main|
    requires DropLast(window) == main[..|window| - 1]
    ensures Reaches(w, w', main, depth, 1) && Upto(w', main, 0, |window|, depth)
    ensures w'.applied == window + [main[|window| - 1]] && w'.sync.startingHeight == w.sync.startingHeight
  {
    var p, st := |window| - 1, w.sync.store;
    var rest := DropLast(window);
    assert rest[0] == window[0] && rest[0] == main[0] && rest[p - 1] == main[p - 1] == window[p - 1];
    assert StoresBlock(st, window[p - 1]);
    assert rest == main[0..p];
    NextOfMain(main, w.sync.startingHeight, 0, p);
    AppendsBeside(st, window, main[p], depth);
    w' := Step(w, main, depth).value;
    ReachesNext(w, w', main, depth);
  }

  /** From the last block but one on, everything of the node's chain is appended. */
  lemma PassesOverToTip(w: Watched, window: seq<Block>, main: seq<Block>, depth: nat)
    returns (w': Watched, from: nat, n: nat)
    requires AtBest(w, window, depth) && NodeChain(main, w.sync.startingHeight) && 2 <= |window| <= |main|
    requires DropLast(window) == main[..|window| - 1]
    ensures Reaches(w, w', main, depth, n) && n == |main| - |window| + 1 && Upto(w', main, from, |main|, depth)
    ensures w'.applied == window + main[|window| - 1..]
  {
    var p := |window| - 1;
    var mid := PassesOver(w, window, main, depth);
    w', from, n := RollsForwardToTip(mid, main, 0, p + 1, depth);
    n := ReachesAcross(w, mid, w', main, depth, 1, n);
    FromNext(window, main, p);
  }

  /** Position of the block passed over: the first one of the abandoned fork, or else the best block. */
  function PassedOver(window: seq<Block>, fork: nat): int {
    if fork < |window| then fork else |window| - 1
  }

  lemma CatchesUp(w: Watched, window: seq<Block>, main: seq<Block>, fork: nat, depth: nat)
    returns (w': Watched, from: nat, n: nat)
    requires AtBest(w, window, depth) && NodeChain(main, w.sync.startingHeight)
    requires KnownUpTo(w.sync.store, window, main, fork) && fork >= 1 && |window| >= 2
    ensures Reaches(w, w', main, depth, n) && n == Attempts(window, main, fork)
    ensures var p := PassedOver(window, fork); w'.applied == window[..p + 1] + main[p..]
    ensures Upto(w', main, from, |main|, depth)
  {
    var p := PassedOver(window, fork);
    PrefixBelow(window, main, fork, p);
    var mid, back := RollsBackToPassedOver(w, window, main, fork, depth);
    w', from, n := PassesOverToTip(mid, window[..p + 1], main, depth);
    n := ReachesAcross(w, mid, w', main, depth, back, n);
  }

  /** One attempt per block rolled back and one per block rolled forward. */
  function Attempts(window: seq<Block>, main: seq<Block>, fork: nat): nat
    requires 1 <= fork <= |window| <= |main|
  {
    var p := PassedOver(window, fork);
    (|window| - 1 - p) + (|main| - p)
  }

  lemma RestartsAtBest(start: nat, st: Store, window: seq<Block>, depth: nat)
    requires Represents(st, window, depth) && start <= window[0].height
    ensures AtBest(Watched(Restart(start, st), window), window, depth)
  {
  }

  lemma PrefixBelow(window: seq<Block>, main: seq<Block>, fork: nat, p: nat)
    requires p <= fork <= |window| && p < |window| && fork <= |main| && window[..fork] == main[..fork]
    ensures DropLast(window[..p + 1]) == main[..p]
  {
    assert DropLast(window[..p + 1]) == window[..fork][..p] && main[..fork][..p] == main[..p];
  }

  lemma RollsBackToPassedOver(w: Watched, window: seq<Block>, main: seq<Block>, fork: nat, depth: nat)
    returns (w': Watched, n: nat)
    requires AtBest(w, window, depth) && NodeChain(main, w.sync.startingHeight)
    requires KnownUpTo(w.sync.store, window, main, fork) && 1 <= fork
    ensures Reaches(w, w', main, depth, n)
    ensures var p := PassedOver(window, fork);
            && n == |window| - 1 - p
            && AtBest(w', window[..p + 1], depth) && w'.sync.startingHeight == w.sync.startingHeight
  {
    if fork < |window| {
      w', n := RollsBackToFork(w, window, main, fork, depth);
    } else {
      assert PassedOver(window, fork) + 1 == |window| && window[..|window|] == window;
      w', n := w, 0;
      ReachesItself(w, main, depth);
    }
  }

  /**
   Restart against a node whose chain leaves the cached window after `fork` blocks. The cache ends up with the node's
   chain, but its consumers have applied one block too many: the first block of the abandoned fork is never
   rolled back, or the best block is applied twice where there was no fork.
   */
  lemma RestartFollows(start: nat, st: Store, window: seq<Block>, main: seq<Block>, fork: nat, depth: nat)
    returns (w: Watched, from: nat, n: nat)
    requires Represents(st, window, depth) && |window| >= 2 && start <= window[0].height
    requires NodeChain(main, start) && KnownUpTo(st, window, main, fork) && fork >= 1
    ensures Reaches(Watched(Restart(start, st), window), w, main, depth, n) && n == Attempts(window, main, fork)
    ensures var p := PassedOver(window, fork); w.applied == window[..p + 1] + main[p..]
    ensures Upto(w, main, from, |main|, depth)
  {
    RestartsAtBest(start, st, window, depth);
    w, from, n := CatchesUp(Watched(Restart(start, st), window), window, main, fork, depth);
  }

  lemma PassedOverIsForeign(st: Store, window: seq<Block>, main: seq<Block>, fork: nat, depth: nat)
    requires Represents(st, window, depth) && KnownUpTo(st, window, main, fork) && 1 <= fork < |window|
    requires main != [] && Linked(main, main[0].height)
    ensures window[fork] !in main
  {
    assert StoresBlock(st, window[fork]);
    assert window[..fork][0] == main[..fork][0];
    forall i | 0 <= i < |main| ensures main[i] != window[fork] {
      assert window[fork].height == main[0].height + fork;
    }
  }

  /** After a restart every applied block is on the node's chain exactly when the cached window is. */
  lemma RestartIsCleanIff(start: nat, st: Store, window: seq<Block>, main: seq<Block>, fork: nat, depth: nat)
    returns (w: Watched, n: nat)
    requires Represents(st, window, depth) && |window| >= 2 && start <= window[0].height
    requires NodeChain(main, start) && KnownUpTo(st, window, main, fork) && fork >= 1
    ensures Reaches(Watched(Restart(start, st), window), w, main, depth, n) && n == Attempts(window, main, fork)
    ensures w.sync.nextHeight == main[0].height + |main|
    ensures (forall b :: b in w.applied ==> b in main) <==> window == main[..|window|]
  {
    var from;
    w, from, n := RestartFollows(start, st, window, main, fork, depth);
    AppliedOnMainIff(st, window, main, fork, depth);
  }

  lemma AppliedOnMainIff(st: Store, window: seq<Block>, main: seq<Block>, fork: nat, depth: nat)
    requires Represents(st, window, depth) && KnownUpTo(st, window, main, fork) && fork >= 1
    requires main != [] && Linked(main, main[0].height)
    ensures var p := PassedOver(window, fork);
            (forall b :: b in window[..p + 1] + main[p..] ==> b in main) <==> window == main[..|window|]
  {
    var p := PassedOver(window, fork);
    var applied := window[..p + 1] + main[p..];
    if fork < |window| {
      PassedOverIsForeign(st, window, main, fork, depth);
      assert applied[fork] == window[fork] && main[..|window|][fork] in main;
    } else {
      assert window == window[..fork] && window[..p + 1] == main[..p + 1];
    }
  }
}
