/** What an entity resolves to: predictions that stand are returned, forks discard them, entities do not interfere. */
module EntityResolve {
  import opened Wrappers
  import opened EntityRepo

  // ---------------------------------------------------------------- one repository

  /** Following the links of a state `n` times leads to the target. */
  ghost predicate LeadsTo(link: map<Sid, Sid>, sid: Sid, target: Sid, n: nat) {
    Walk(link, sid, n) == Some(target)
  }

  /**
   With a confirmed state and a linked last prediction the entity resolves to the prediction exactly when following
   its links, possibly none, leads to the anchor; otherwise it resolves to the anchor.
   */
  lemma PredictionReturnedIff(r: Repo, eid: Eid, rank: Sid -> nat)
    requires Sound(r, rank) && GetLastConfirmed(r, eid).Some? && GetLastPredicted(r, eid).Some?
    ensures Anchor(r, eid).Some?
    ensures var anchor, predicted := Anchor(r, eid).value, GetLastPredicted(r, eid).value;
            && (Resolve(r, eid) == Some(predicted) <==> exists n: nat :: LeadsTo(r.link, predicted.sid, anchor.sid, n))
            && (Resolve(r, eid) != Some(predicted) ==> Resolve(r, eid) == Some(anchor))
  {
    DescendsIffLeads(r.link, GetLastPredicted(r, eid).value.sid, Anchor(r, eid).value.sid);
  }

  lemma DescendsIffLeads(link: map<Sid, Sid>, sid: Sid, target: Sid)
    ensures IsOrDescends(link, sid, target) <==> exists n: nat :: LeadsTo(link, sid, target, n)
  {
    if sid == target {
      assert LeadsTo(link, sid, target, 0);
    } else if n: nat :| LeadsTo(link, sid, target, n) {
      assert n >= 1 && Walk(link, sid, n) == Some(target);
    } else {
      forall n: nat ensures Walk(link, sid, n) != Some(target) {
        assert !LeadsTo(link, sid, target, n);
      }
    }
  }

  /** Without a linked prediction the entity resolves to its unconfirmed state, or else to its confirmed one. */
  lemma ResolvesWithoutPrediction(r: Repo, eid: Eid)
    requires eid !in r.lastPredicted || r.lastPredicted[eid] !in r.link
    ensures Resolve(r, eid) == if GetLastUnconfirmed(r, eid).Some? then GetLastUnconfirmed(r, eid)
                               else GetLastConfirmed(r, eid)
  {
  }

  /** An entity resolves to something exactly when it is confirmed, or known to the mempool and not predicted. */
  lemma ResolvesIff(r: Repo, eid: Eid)
    ensures Resolve(r, eid).Some? <==>
            || GetLastConfirmed(r, eid).Some?
            || (GetLastUnconfirmed(r, eid).Some? && GetLastPredicted(r, eid).None?)
  {
  }

  /** A prediction links its state to the given predecessor, if there is one, and touches no other link. */
  lemma PredictionLinks(r: Repo, e: Entity, prev: Option<Sid>, sid: Sid)
    ensures GetPredecessor(WithPredicted(r, e, prev), sid)
            == if sid == e.sid && prev.Some? then prev else GetPredecessor(r, sid)
  {
  }

  /** A mempool state becomes the anchor, above the confirmed one. */
  lemma UnconfirmedIsAnchor(r: Repo, e: Entity)
    ensures Anchor(WithUnconfirmed(r, e), e.eid) == Some(e)
    ensures GetLastPredicted(WithUnconfirmed(r, e), e.eid).None? ==>
              Resolve(WithUnconfirmed(r, e), e.eid) == Some(e)
  {
  }

  /** An eliminated entity is forgotten altogether. */
  lemma EliminatedIsGone(r: Repo, e: Entity)
    ensures var r' := Eliminated(r, e);
            && GetLastConfirmed(r', e.eid) == GetLastUnconfirmed(r', e.eid) == GetLastPredicted(r', e.eid) == None
            && Resolve(r', e.eid) == None && GetPredecessor(r', e.sid) == None
  {
  }

  // ---------------------------------------------------------------- chains of predictions

  /** Predict each state from the one before it; the first one is not predicted. */
  function Predicted(r: Repo, states: seq<Entity>): Repo {
    if |states| < 2 then r
    else
      var last := |states| - 1;
      WithPredicted(Predicted(r, states[..last]), states[last], Some(states[last - 1].sid))
  }

  /** Successive states of one entity. */
  ghost predicate Successive(states: seq<Entity>, eid: Eid, rank: Sid -> nat) {
    && (forall i :: 0 <= i < |states| ==> states[i].eid == eid)
    && (forall i, j :: 0 <= i < j < |states| ==> rank(states[i].sid) < rank(states[j].sid))
  }

  /** The last mempool state of the entity is stored. */
  ghost predicate KeepsUnconfirmed(r: Repo, eid: Eid) {
    eid in r.lastUnconfirmed ==> r.lastUnconfirmed[eid] in r.states
  }

  lemma {:induction false} UnconfirmedIsKept(ops: seq<Op>, eid: Eid)
    ensures KeepsUnconfirmed(PerformAll(EMPTY_REPO, ops), eid)
  {
    if ops != [] { UnconfirmedIsKept(ops[..|ops| - 1], eid); }
  }

  /** Predicting leaves the confirmed and mempool states and every state outside the chain. */
  lemma {:induction false} PredictedKeeps(r: Repo, states: seq<Entity>)
    requires states != []
    ensures var r' := Predicted(r, states);
            && r'.lastConfirmed == r.lastConfirmed && r'.lastUnconfirmed == r.lastUnconfirmed
            && (forall sid :: sid in r.states ==> sid in r'.states)
            && (forall sid :: sid in r.states && (forall i :: 0 < i < |states| ==> states[i].sid != sid) ==>
                  r'.states[sid] == r.states[sid])
  {
    if |states| > 1 {
      var front := states[..|states| - 1];
      PredictedKeeps(r, front);
      assert forall i :: 0 < i < |front| ==> front[i] == states[i];
    }
  }

  lemma {:induction false} PredictedIsSound(r: Repo, states: seq<Entity>, eid: Eid, rank: Sid -> nat)
    requires Sound(r, rank) && Successive(states, eid, rank)
    ensures Sound(Predicted(r, states), rank)
  {
    if |states| > 1 { PredictedIsSound(r, states[..|states| - 1], eid, rank); }
  }

  /** Each predicted state is linked to the one before it. */
  lemma {:induction false} PredictedLinks(r: Repo, states: seq<Entity>, eid: Eid, rank: Sid -> nat, i: nat)
    requires Successive(states, eid, rank) && 0 < i < |states|
    ensures var link := Predicted(r, states).link; states[i].sid in link && link[states[i].sid] == states[i - 1].sid
  {
    var last := |states| - 1;
    if i < last {
      PredictedLinks(r, states[..last], eid, rank, i);
      assert rank(states[i].sid) < rank(states[last].sid);
    }
  }

  lemma LinksOfPredicted(r: Repo, states: seq<Entity>, eid: Eid, rank: Sid -> nat)
    requires Successive(states, eid, rank) && |states| > 1
    ensures var r' := Predicted(r, states);
            && GetLastPredicted(r', eid) == Some(states[|states| - 1])
            && forall i :: 0 < i < |states| ==>
                 states[i].sid in r'.link && r'.link[states[i].sid] == states[i - 1].sid
  {
    LastPredicted(r, states, eid, rank);
    forall i | 0 < i < |states|
      ensures var link := Predicted(r, states).link; states[i].sid in link && link[states[i].sid] == states[i - 1].sid
    {
      PredictedLinks(r, states, eid, rank, i);
    }
  }

  lemma LastPredicted(r: Repo, states: seq<Entity>, eid: Eid, rank: Sid -> nat)
    requires Successive(states, eid, rank) && |states| > 1
    ensures GetLastPredicted(Predicted(r, states), eid) == Some(states[|states| - 1])
  {
  }

  /** Links of a chain of predictions lead down the chain, one state at a time. */
  lemma {:induction false} WalkDown(link: map<Sid, Sid>, states: seq<Entity>, i: nat, j: nat)
    requires i <= j < |states|
    requires forall k :: 0 < k < |states| ==> states[k].sid in link && link[states[k].sid] == states[k - 1].sid
    ensures Walk(link, states[j].sid, j - i) == Some(states[i].sid)
    decreases j
  {
    if i < j { WalkDown(link, states, i, j - 1); }
  }

  lemma AnchorStays(r: Repo, states: seq<Entity>, eid: Eid, rank: Sid -> nat)
    requires Sound(r, rank) && KeepsUnconfirmed(r, eid) && Successive(states, eid, rank) && states != []
    requires Anchor(r, eid) == Some(states[0])
    ensures Anchor(Predicted(r, states), eid) == Some(states[0])
    ensures GetLastConfirmed(r, eid).Some? ==> GetLastConfirmed(Predicted(r, states), eid).Some?
  {
    PredictedKeeps(r, states);
    assert forall i :: 0 < i < |states| ==> states[i].sid != states[0].sid;
  }

  /** A chain of predictions on top of the anchor is followed to its end. */
  lemma PredictionsResolve(r: Repo, states: seq<Entity>, eid: Eid, rank: Sid -> nat)
    requires Sound(r, rank) && KeepsUnconfirmed(r, eid) && Successive(states, eid, rank) && |states| > 1
    requires Anchor(r, eid) == Some(states[0]) && GetLastConfirmed(r, eid).Some?
    ensures Resolve(Predicted(r, states), eid) == Some(states[|states| - 1])
  {
    var r', n := Predicted(r, states), |states| - 1;
    PredictedIsSound(r, states, eid, rank);
    LinksOfPredicted(r, states, eid, rank);
    AnchorStays(r, states, eid, rank);
    WalkDown(r'.link, states, 0, n);
    PredictionReturnedIff(r', eid, rank);
  }

  /** Confirming any state of the chain, first or last included, keeps the end of the chain. */
  lemma ConfirmationKeepsPredictions(r: Repo, states: seq<Entity>, eid: Eid, rank: Sid -> nat, k: nat)
    requires Sound(r, rank) && eid !in r.lastUnconfirmed && Successive(states, eid, rank)
    requires |states| > 1 && k < |states|
    ensures Resolve(WithConfirmed(Predicted(r, states), states[k]), eid) == Some(states[|states| - 1])
  {
    var r', n := WithConfirmed(Predicted(r, states), states[k]), |states| - 1;
    PredictedKeeps(r, states);
    PredictedIsSound(r, states, eid, rank);
    LinksOfPredicted(r, states, eid, rank);
    WalkDown(r'.link, states, k, n);
    assert Sound(r', rank);
    PredictionReturnedIff(r', eid, rank);
  }

  /** Confirming a state that the chain does not pass discards the chain. */
  lemma ForkDiscardsPredictions(r: Repo, states: seq<Entity>, eid: Eid, rank: Sid -> nat, fork: Entity)
    requires Sound(r, rank) && eid !in r.lastUnconfirmed && Successive(states, eid, rank) && |states| > 1
    requires fork.eid == eid && !IsOrDescends(Predicted(r, states).link, states[|states| - 1].sid, fork.sid)
    ensures Resolve(WithConfirmed(Predicted(r, states), fork), eid) == Some(fork)
  {
    var r' := WithConfirmed(Predicted(r, states), fork);
    PredictedKeeps(r, states);
    PredictedIsSound(r, states, eid, rank);
    LinksOfPredicted(r, states, eid, rank);
    assert Sound(r', rank);
    PredictionReturnedIff(r', eid, rank);
  }

  // ---------------------------------------------------------------- other entities

  function EntityOf(op: Op): Eid {
    match op
    case InvalidateOp(_, eid) => eid
    case PredictOp(e, _) => e.eid
    case _ => op.entity.eid
  }

  lemma {:induction false} WalkOwned(link: map<Sid, Sid>, link': map<Sid, Sid>, owner: Sid -> Eid, sid: Sid, n: nat)
    requires forall s :: s in link ==> owner(link[s]) == owner(s)
    requires forall s :: owner(s) == owner(sid) ==> (s in link <==> s in link') && (s in link ==> link'[s] == link[s])
    ensures Walk(link', sid, n) == Walk(link, sid, n)
    decreases n
  {
    if n > 0 && sid in link { WalkOwned(link, link', owner, link[sid], n - 1); }
  }

  /** An operation on one entity leaves the last states of every other entity. */
  lemma OthersKeepStates(r: Repo, op: Op, owner: Sid -> Eid, eid: Eid)
    requires Owned(r, owner) && RespectsOwner(op, owner) && eid != EntityOf(op)
    ensures var r' := Perform(r, op);
            && GetLastConfirmed(r', eid) == GetLastConfirmed(r, eid)
            && GetLastUnconfirmed(r', eid) == GetLastUnconfirmed(r, eid)
            && GetLastPredicted(r', eid) == GetLastPredicted(r, eid)
  {
  }

  lemma OthersKeepLinks(r: Repo, op: Op, owner: Sid -> Eid, sid: Sid, target: Sid)
    requires Owned(r, owner) && RespectsOwner(op, owner) && owner(sid) != EntityOf(op)
    ensures Reaches(Perform(r, op).link, sid, target) <==> Reaches(r.link, sid, target)
  {
    var link := Perform(r, op).link;
    forall n: nat ensures Walk(link, sid, n) == Walk(r.link, sid, n) { WalkOwned(r.link, link, owner, sid, n); }
    if n: nat :| n >= 1 && Walk(r.link, sid, n) == Some(target) { assert Walk(link, sid, n) == Some(target); }
    if n: nat :| n >= 1 && Walk(link, sid, n) == Some(target) { assert Walk(r.link, sid, n) == Some(target); }
  }

  /** An operation on one entity leaves what every other entity resolves to. */
  lemma OthersUnchanged(r: Repo, op: Op, rank: Sid -> nat, owner: Sid -> Eid, eid: Eid)
    requires Sound(r, rank) && Owned(r, owner) && RespectsOwner(op, owner) && eid != EntityOf(op)
    ensures Resolve(Perform(r, op), eid) == Resolve(r, eid)
  {
    OthersKeepStates(r, op, owner, eid);
    if GetLastPredicted(r, eid).Some? && Anchor(r, eid).Some? {
      OthersKeepLinks(r, op, owner, GetLastPredicted(r, eid).value.sid, Anchor(r, eid).value.sid);
    }
  }
}
