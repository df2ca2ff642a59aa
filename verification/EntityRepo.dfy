/** Tracking of on-chain entities: confirmed, unconfirmed and predicted states joined by prediction links. */
module EntityRepo {
  import opened Wrappers

  /** The state of an entity is identified by the box that holds it. */
  type Sid = int
  type Eid = int

  datatype Entity = Entity(eid: Eid, sid: Sid)

  datatype Repo = Repo(
    states: map<Sid, Entity>,
    link: map<Sid, Sid>,
    lastPredicted: map<Eid, Sid>,
    lastConfirmed: map<Eid, Sid>,
    lastUnconfirmed: map<Eid, Sid>)

  const EMPTY_REPO: Repo := Repo(map[], map[], map[], map[], map[])

  function Get<K, V>(m: map<K, V>, k: K): Option<V> {
    if k in m then Some(m[k]) else None
  }

  function GetPredecessor(r: Repo, sid: Sid): Option<Sid> {
    Get(r.link, sid)
  }

  function GetLastPredicted(r: Repo, eid: Eid): Option<Entity> {
    match Get(r.lastPredicted, eid)
    case None => None
    case Some(sid) => if sid in r.link then Get(r.states, sid) else None
  }

  function GetLastConfirmed(r: Repo, eid: Eid): Option<Entity> {
    match Get(r.lastConfirmed, eid) case None => None case Some(sid) => Get(r.states, sid)
  }

  function GetLastUnconfirmed(r: Repo, eid: Eid): Option<Entity> {
    match Get(r.lastUnconfirmed, eid) case None => None case Some(sid) => Get(r.states, sid)
  }

  function WithPredicted(r: Repo, e: Entity, prev: Option<Sid>): Repo {
    r.(states := r.states[e.sid := e],
       lastPredicted := r.lastPredicted[e.eid := e.sid],
       link := if prev.Some? then r.link[e.sid := prev.value] else r.link)
  }

  function WithConfirmed(r: Repo, e: Entity): Repo {
    r.(states := r.states[e.sid := e], lastConfirmed := r.lastConfirmed[e.eid := e.sid])
  }

  function WithUnconfirmed(r: Repo, e: Entity): Repo {
    r.(states := r.states[e.sid := e], lastUnconfirmed := r.lastUnconfirmed[e.eid := e.sid])
  }

  /** Roll the entity back to the predecessor of the invalidated state, or forget it. */
  function Invalidated(r: Repo, sid: Sid, eid: Eid): Repo {
    r.(lastConfirmed := if sid in r.link then r.lastConfirmed[eid := r.link[sid]] else r.lastConfirmed - {eid},
       link := r.link - {sid},
       lastUnconfirmed := r.lastUnconfirmed - {eid})
  }

  function Eliminated(r: Repo, e: Entity): Repo {
    r.(link := r.link - {e.sid},
       lastPredicted := r.lastPredicted - {e.eid},
       lastConfirmed := r.lastConfirmed - {e.eid},
       lastUnconfirmed := r.lastUnconfirmed - {e.eid})
  }

  class EntityRepoRocksDB {
    var states: map<Sid, Entity>
    var link: map<Sid, Sid>
    var lastPredicted: map<Eid, Sid>
    var lastConfirmed: map<Eid, Sid>
    var lastUnconfirmed: map<Eid, Sid>

    function View(): Repo
      reads this
    {
      Repo(states, link, lastPredicted, lastConfirmed, lastUnconfirmed)
    }

    constructor ()
      ensures View() == EMPTY_REPO
    {
      states, link, lastPredicted, lastConfirmed, lastUnconfirmed := map[], map[], map[], map[], map[];
    }

    method PutPredicted(e: Entity, prev: Option<Sid>)
      modifies this
      ensures View() == WithPredicted(old(View()), e, prev)
    {
      states := states[e.sid := e];
      lastPredicted := lastPredicted[e.eid := e.sid];
      if prev.Some? { link := link[e.sid := prev.value]; }
    }

    method PutConfirmed(e: Entity)
      modifies this
      ensures View() == WithConfirmed(old(View()), e)
    {
      states := states[e.sid := e];
      lastConfirmed := lastConfirmed[e.eid := e.sid];
    }

    method PutUnconfirmed(e: Entity)
      modifies this
      ensures View() == WithUnconfirmed(old(View()), e)
    {
      states := states[e.sid := e];
      lastUnconfirmed := lastUnconfirmed[e.eid := e.sid];
    }

    method Invalidate(sid: Sid, eid: Eid)
      modifies this
      ensures View() == Invalidated(old(View()), sid, eid)
    {
      var predecessor := GetPredecessor(View(), sid);
      if predecessor.Some? {
        lastConfirmed := lastConfirmed[eid := predecessor.value];
      } else {
        lastConfirmed := lastConfirmed - {eid};
      }
      link := link - {sid};
      lastUnconfirmed := lastUnconfirmed - {eid};
    }

    method Eliminate(e: Entity)
      modifies this
      ensures View() == Eliminated(old(View()), e)
    {
      link := link - {e.sid};
      lastPredicted := lastPredicted - {e.eid};
      lastConfirmed := lastConfirmed - {e.eid};
      lastUnconfirmed := lastUnconfirmed - {e.eid};
    }

    /** Walk the prediction links from `sid` until the anchor or the end of the links. */
    method IsLinking(sid: Sid, anchor: Sid, ghost rank: Sid -> nat) returns (r: bool)
      requires Ranked(link, rank)
      ensures r <==> Reaches(link, sid, anchor)
    {
      var head := sid;
      ghost var n: nat := 0;
      while true
        invariant Walk(link, sid, n) == Some(head)
        invariant forall k: nat :: 1 <= k <= n ==> Walk(link, sid, k) != Some(anchor)
        decreases rank(head)
      {
        WalkSplit(link, sid, n, 1);
        assert Walk(link, head, 1) == GetPredecessor(View(), head);
        match GetPredecessor(View(), head) {
          case None =>
            forall k: nat | k > n ensures Walk(link, sid, k) == None { WalkSplit(link, sid, n + 1, k - n - 1); }
            return false;
          case Some(prev) =>
            if prev == anchor { return true; }
            head := prev;
            n := n + 1;
        }
      }
      assert false;
    }

    /** Latest state of an entity. */
    method ResolveEntityState(eid: Eid, ghost rank: Sid -> nat) returns (r: Option<Entity>)
      requires Ranked(link, rank)
      ensures r == Resolve(View(), eid)
    {
      var confirmed := GetLastConfirmed(View(), eid);
      var unconfirmed := GetLastUnconfirmed(View(), eid);
      var predicted := GetLastPredicted(View(), eid);
      if confirmed.Some? && predicted.Some? {
        var anchor := if unconfirmed.Some? then unconfirmed.value else confirmed.value;
        var valid := predicted.value.sid == anchor.sid;
        if !valid { valid := IsLinking(predicted.value.sid, anchor.sid, rank); }
        return Some(if valid then predicted.value else anchor);
      }
      if unconfirmed.Some? && predicted.None? { return unconfirmed; }
      return confirmed;
    }
  }

  // ---------------------------------------------------------------- prediction links

  /** The state `n` prediction links away. */
  function Walk(link: map<Sid, Sid>, sid: Sid, n: nat): Option<Sid>
    decreases n
  {
    if n == 0 then Some(sid) else if sid in link then Walk(link, link[sid], n - 1) else None
  }

  /** `target` is one or more prediction links away. */
  ghost predicate Reaches(link: map<Sid, Sid>, sid: Sid, target: Sid) {
    exists n: nat :: n >= 1 && Walk(link, sid, n) == Some(target)
  }

  /** Links only lead to states of lower rank, hence never in circles. */
  ghost predicate Ranked(link: map<Sid, Sid>, rank: Sid -> nat) {
    forall sid :: sid in link ==> rank(link[sid]) < rank(sid)
  }

  lemma {:induction false} WalkSplit(link: map<Sid, Sid>, sid: Sid, m: nat, n: nat)
    ensures Walk(link, sid, m + n) ==
            if Walk(link, sid, m).Some? then Walk(link, Walk(link, sid, m).value, n) else None
    decreases m
  {
    if m > 0 && sid in link {
      WalkSplit(link, link[sid], m - 1, n);
    }
  }

  lemma {:induction false} WalkDescends(link: map<Sid, Sid>, rank: Sid -> nat, sid: Sid, n: nat)
    requires Ranked(link, rank) && n >= 1 && Walk(link, sid, n).Some?
    ensures rank(Walk(link, sid, n).value) < rank(sid)
    decreases n
  {
    if n > 1 {
      WalkDescends(link, rank, link[sid], n - 1);
    }
  }

  /** Links never lead from a state back to itself. */
  lemma Acyclic(link: map<Sid, Sid>, rank: Sid -> nat, sid: Sid)
    requires Ranked(link, rank)
    ensures !Reaches(link, sid, sid)
  {
    forall n: nat | n >= 1 && Walk(link, sid, n) == Some(sid) ensures false {
      WalkDescends(link, rank, sid, n);
    }
  }

  /** Specification of `ResolveEntityState`. */
  ghost function Resolve(r: Repo, eid: Eid): Option<Entity> {
    var confirmed, unconfirmed := GetLastConfirmed(r, eid), GetLastUnconfirmed(r, eid);
    var predicted := GetLastPredicted(r, eid);
    if confirmed.Some? && predicted.Some? then
      var anchor := if unconfirmed.Some? then unconfirmed.value else confirmed.value;
      if predicted.value.sid == anchor.sid || Reaches(r.link, predicted.value.sid, anchor.sid) then predicted
      else Some(anchor)
    else if unconfirmed.Some? && predicted.None? then unconfirmed
    else confirmed
  }

  // ---------------------------------------------------------------- every run of operations

  datatype Op =
    | PredictOp(entity: Entity, prev: Option<Sid>)
    | ConfirmOp(entity: Entity)
    | UnconfirmOp(entity: Entity)
    | InvalidateOp(sid: Sid, eid: Eid)
    | EliminateOp(entity: Entity)

  function Perform(r: Repo, op: Op): Repo {
    match op
    case PredictOp(e, prev) => WithPredicted(r, e, prev)
    case ConfirmOp(e) => WithConfirmed(r, e)
    case UnconfirmOp(e) => WithUnconfirmed(r, e)
    case InvalidateOp(sid, eid) => Invalidated(r, sid, eid)
    case EliminateOp(e) => Eliminated(r, e)
  }

  function PerformAll(r: Repo, ops: seq<Op>): Repo {
    if ops == [] then r else Perform(PerformAll(r, ops[..|ops| - 1]), ops[|ops| - 1])
  }

  /** A box id is a hash over the boxes it was made from, so a predicted state outranks its predecessor. */
  ghost predicate RespectsRank(op: Op, rank: Sid -> nat) {
    op.PredictOp? && op.prev.Some? ==> rank(op.prev.value) < rank(op.entity.sid)
  }

  /** States are stored under their own id and links lead downwards. */
  ghost predicate Sound(r: Repo, rank: Sid -> nat) {
    && (forall sid :: sid in r.states ==> r.states[sid].sid == sid)
    && Ranked(r.link, rank)
  }

  lemma {:induction false} SoundOverRuns(ops: seq<Op>, rank: Sid -> nat)
    requires forall i :: 0 <= i < |ops| ==> RespectsRank(ops[i], rank)
    ensures Sound(PerformAll(EMPTY_REPO, ops), rank)
    ensures forall sid :: !Reaches(PerformAll(EMPTY_REPO, ops).link, sid, sid)
  {
    if ops != [] {
      SoundOverRuns(ops[..|ops| - 1], rank);
      assert RespectsRank(ops[|ops| - 1], rank);
    }
    var r := PerformAll(EMPTY_REPO, ops);
    assert Sound(r, rank);
    forall sid ensures !Reaches(r.link, sid, sid) { Acyclic(r.link, rank, sid); }
  }

  ghost function Anchor(r: Repo, eid: Eid): Option<Entity> {
    if GetLastUnconfirmed(r, eid).Some? then GetLastUnconfirmed(r, eid) else GetLastConfirmed(r, eid)
  }

  lemma ResolvedIsAnchored(r: Repo, eid: Eid, rank: Sid -> nat)
    requires Sound(r, rank) && Resolve(r, eid).Some?
    ensures Anchor(r, eid).Some?
    ensures || Resolve(r, eid) == Anchor(r, eid)
            || (Resolve(r, eid) == GetLastPredicted(r, eid)
                && Reaches(r.link, Resolve(r, eid).value.sid, Anchor(r, eid).value.sid))
  {
  }

  /** A box holds a state of one entity, and what precedes or replaces it is a state of the same entity. */
  ghost predicate RespectsOwner(op: Op, owner: Sid -> Eid) {
    match op
    case InvalidateOp(sid, eid) => owner(sid) == eid
    case PredictOp(e, prev) => owner(e.sid) == e.eid && (prev.Some? ==> owner(prev.value) == e.eid)
    case _ => owner(op.entity.sid) == op.entity.eid
  }

  ghost predicate Owned(r: Repo, owner: Sid -> Eid) {
    && (forall sid :: sid in r.states ==> r.states[sid].eid == owner(sid))
    && (forall sid :: sid in r.link ==> owner(r.link[sid]) == owner(sid))
    && (forall eid :: eid in r.lastPredicted ==> owner(r.lastPredicted[eid]) == eid)
    && (forall eid :: eid in r.lastConfirmed ==> owner(r.lastConfirmed[eid]) == eid)
    && (forall eid :: eid in r.lastUnconfirmed ==> owner(r.lastUnconfirmed[eid]) == eid)
  }

  lemma {:induction false} OwnedOverRuns(ops: seq<Op>, owner: Sid -> Eid)
    requires forall i :: 0 <= i < |ops| ==> RespectsOwner(ops[i], owner)
    ensures Owned(PerformAll(EMPTY_REPO, ops), owner)
  {
    if ops != [] {
      OwnedOverRuns(ops[..|ops| - 1], owner);
      assert RespectsOwner(ops[|ops| - 1], owner);
    }
  }

  /**
   After any sequence of operations an entity resolves to a state of its own, rollbacks to predecessors
   included, and a prediction is returned only if it is the current anchor or descends from it.
   */
  lemma ResolvedOverRuns(ops: seq<Op>, eid: Eid, rank: Sid -> nat, owner: Sid -> Eid)
    requires forall i :: 0 <= i < |ops| ==> RespectsRank(ops[i], rank) && RespectsOwner(ops[i], owner)
    requires Resolve(PerformAll(EMPTY_REPO, ops), eid).Some?
    ensures var r := PerformAll(EMPTY_REPO, ops);
            var state := Resolve(r, eid).value;
            && state.eid == eid && Anchor(r, eid).Some?
            && (Some(state) == Anchor(r, eid) || Reaches(r.link, state.sid, Anchor(r, eid).value.sid))
  {
    SoundOverRuns(ops, rank);
    OwnedOverRuns(ops, owner);
    ResolvedIsAnchored(PerformAll(EMPTY_REPO, ops), eid, rank);
  }

  // ---------------------------------------------------------------- invalidation

  /** Cutting the link of `sid` only cuts walks that pass through `sid`. */
  lemma {:induction false} WalkAfterCut(link: map<Sid, Sid>, cut: Sid, sid: Sid, n: nat)
    ensures Walk(link - {cut}, sid, n).Some? ==> Walk(link, sid, n) == Walk(link - {cut}, sid, n)
    decreases n
  {
    if n > 0 && sid in link && sid != cut {
      WalkAfterCut(link, cut, link[sid], n - 1);
    }
  }

  /** No walk reaches the predecessor of `sid` once the link of `sid` is cut, if it used to pass `sid`. */
  lemma CutBlocksDescendants(link: map<Sid, Sid>, rank: Sid -> nat, sid: Sid, from: Sid, m: nat)
    requires Ranked(link, rank) && sid in link
    requires Walk(link, from, m) == Some(sid)
    ensures !Reaches(link - {sid}, from, link[sid]) && from != link[sid]
  {
    var prev := link[sid];
    if m >= 1 { WalkDescends(link, rank, from, m); }
    forall n: nat | n >= 1 && Walk(link - {sid}, from, n) == Some(prev) ensures false {
      WalkAfterCut(link, sid, from, n);
      if n <= m {
        WalkSplit(link, from, n, m - n);
        if n < m { WalkDescends(link, rank, prev, m - n); }
        assert false;
      } else {
        if Walk(link - {sid}, from, m).None? {
          WalkSplit(link - {sid}, from, m, n - m);
          assert false;
        } else {
          WalkAfterCut(link, sid, from, m);
          WalkSplit(link - {sid}, from, m, n - m);
          assert false;
        }
      }
    }
  }

  ghost predicate IsOrDescends(link: map<Sid, Sid>, sid: Sid, target: Sid) {
    sid == target || Reaches(link, sid, target)
  }

  /**
   Invalidation is effective: the entity no longer resolves to the invalidated state or to anything
   predicted on top of it, and where the last prediction stood on it, it resolves to the stored
   predecessor or to nothing.
   */
  lemma InvalidateIsEffective(r: Repo, sid: Sid, eid: Eid, rank: Sid -> nat)
    requires Sound(r, rank)
    ensures var after := Resolve(Invalidated(r, sid, eid), eid);
            && (after.Some? ==> !IsOrDescends(r.link, after.value.sid, sid))
            && (eid in r.lastPredicted && IsOrDescends(r.link, r.lastPredicted[eid], sid) ==>
                  after == if sid in r.link then Get(r.states, r.link[sid]) else None)
  {
    var r' := Invalidated(r, sid, eid);
    var predicted := GetLastPredicted(r', eid);
    if sid in r.link {
      var prev := r.link[sid];
      NotAbove(r, sid, rank);
      if predicted.Some? {
        var p := predicted.value.sid;
        assert p == r.lastPredicted[eid] && p != sid;
        if IsOrDescends(r.link, p, sid) {
          var m: nat :| m >= 1 && Walk(r.link, p, m) == Some(sid);
          CutBlocksDescendants(r.link, rank, sid, p, m);
        }
      }
    }
  }

  /** The predecessor does not stand on the state it precedes. */
  lemma NotAbove(r: Repo, sid: Sid, rank: Sid -> nat)
    requires Ranked(r.link, rank) && sid in r.link
    ensures !IsOrDescends(r.link, r.link[sid], sid)
  {
    forall n: nat | n >= 1 && Walk(r.link, r.link[sid], n) == Some(sid) ensures false {
      WalkDescends(r.link, rank, r.link[sid], n);
    }
  }
}
