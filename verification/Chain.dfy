/** Blocks, block trees and linked chains. */
module Chain {
  import opened Wrappers

  type BlockId = int
  type TxId = int

  type BoxId = int

  datatype Tx = Tx(id: TxId, inputs: seq<BoxId>, outputs: seq<BoxId>)
  datatype Block = Block(id: BlockId, parentId: BlockId, height: nat, timestamp: nat, transactions: seq<Tx>)
  datatype BlockRecord = BlockRecord(id: BlockId, height: nat)

  datatype ChainUpgrade = RollForward(blk: Block) | RollBackward(blk: Block)

  /** Block ids are hashes: an id fixes its block, and a child is one higher than its parent. */
  ghost predicate Coherent(b: Block, c: Block) {
    && (b.id == c.id ==> b == c)
    && (c.parentId == b.id ==> c.height == b.height + 1)
  }

  ghost predicate IsBlockTree(tree: iset<Block>) {
    forall b, c {:trigger Coherent(b, c)} :: b in tree && c in tree ==> Coherent(b, c)
  }

  /** A parent-linked chain whose first block is at height `start`. */
  ghost predicate Linked(chain: seq<Block>, start: nat) {
    && (forall i :: 0 <= i < |chain| ==> chain[i].height == start + i)
    && (forall i :: 0 < i < |chain| ==> chain[i].parentId == chain[i - 1].id)
  }

  ghost predicate InTree(chain: seq<Block>, tree: iset<Block>) {
    forall i :: 0 <= i < |chain| ==> chain[i] in tree
  }

  ghost function Ids(chain: seq<Block>): set<BlockId> {
    set i | 0 <= i < |chain| :: chain[i].id
  }

  lemma IdsOfPush(chain: seq<Block>, b: Block)
    ensures Ids(chain + [b]) == Ids(chain) + {b.id}
  {
    var longer := chain + [b];
    assert longer[|chain|] == b;
    forall id | id in Ids(chain) ensures id in Ids(longer) {
      var i :| 0 <= i < |chain| && chain[i].id == id;
      assert longer[i].id == id;
    }
  }

  /** Blocks of a linked chain of a tree have distinct ids. */
  lemma LinkedIsDistinct(chain: seq<Block>, start: nat, tree: iset<Block>)
    requires IsBlockTree(tree) && InTree(chain, tree) && Linked(chain, start)
    ensures forall i, j :: 0 <= i < j < |chain| ==> chain[i].id != chain[j].id
  {
    forall i, j | 0 <= i < j < |chain| ensures chain[i].id != chain[j].id {
      assert Coherent(chain[i], chain[j]);
    }
  }

  lemma IdsOfPop(chain: seq<Block>, start: nat, tree: iset<Block>)
    requires chain != [] && IsBlockTree(tree) && InTree(chain, tree) && Linked(chain, start)
    ensures Ids(DropLast(chain)) == Ids(chain) - {Last(chain).id}
  {
    LinkedIsDistinct(chain, start, tree);
    assert DropLast(chain) + [Last(chain)] == chain;
    IdsOfPush(DropLast(chain), Last(chain));
  }

  function Last<T>(s: seq<T>): T
    requires s != []
  {
    s[|s| - 1]
  }

  function DropLast<T>(s: seq<T>): seq<T>
    requires s != []
  {
    s[..|s| - 1]
  }

  /** Replay upgrades as pushes and pops; a pop must name the block on top. */
  function Replay(log: seq<ChainUpgrade>): Option<seq<Block>> {
    if log == [] then Some([])
    else
      match Replay(DropLast(log))
      case None => None
      case Some(chain) =>
        match Last(log)
        case RollForward(b) => Some(chain + [b])
        case RollBackward(b) => if chain != [] && Last(chain) == b then Some(DropLast(chain)) else None
  }

  /** Two linked chains of a tree that meet at a height agree below it. */
  lemma {:induction false} MeetingChainsAgree(a: seq<Block>, b: seq<Block>, start: nat, tree: iset<Block>, n: nat)
    requires IsBlockTree(tree) && InTree(a, tree) && InTree(b, tree)
    requires Linked(a, start) && Linked(b, start)
    requires 0 < n <= |a| && n <= |b| && a[n - 1] == b[n - 1]
    ensures a[..n] == b[..n]
  {
    if n > 1 {
      assert a[n - 1].parentId == b[n - 1].parentId && a[n - 2].id == b[n - 2].id && Coherent(a[n - 2], b[n - 2]);
      MeetingChainsAgree(a, b, start, tree, n - 1);
      assert a[..n] == a[..n - 1] + [a[n - 1]];
      assert b[..n] == b[..n - 1] + [b[n - 1]];
    } else {
      assert a[..1] == [a[0]] && b[..1] == [b[0]];
    }
  }
}
