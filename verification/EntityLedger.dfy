/** From ledger events to entity states: transitions are extracted, dispatched, and undone on rollback. */
module EntityLedger {
  import opened Wrappers
  import opened EntityRepo
  import opened Chain

  datatype EitherOrBoth = Left(l: Entity) | Right(r: Entity) | Both(l: Entity, r: Entity)

  function Swap(t: EitherOrBoth): EitherOrBoth {
    match t case Left(l) => Right(l) case Right(r) => Left(r) case Both(l, r) => Both(r, l)
  }

  function Pair(l: Option<Entity>, r: Option<Entity>): Option<EitherOrBoth> {
    match (l, r)
    case (Some(a), Some(b)) => Some(Both(a, b))
    case (Some(a), None) => Some(Left(a))
    case (None, Some(b)) => Some(Right(b))
    case (None, None) => None
  }

  datatype StateUpdate = Transition(t: EitherOrBoth) | TransitionRollback(t: EitherOrBoth)

  datatype LedgerTxEvent = AppliedTx(tx: Tx) | UnappliedTx(tx: Tx)

  /**
   How boxes are read. A box id is a hash of its contents and of the transaction that made it, so the
   entity in a box and the inputs it was made from are functions of the id.
   */
  datatype Rules = Rules(parse: Sid -> Option<Entity>, spends: Sid -> set<Sid>, blacklist: set<Eid>)

  ghost predicate WellRuled(rules: Rules) {
    forall sid :: rules.parse(sid).Some? ==> rules.parse(sid).value.sid == sid
  }

  function Tracked(rules: Rules, sid: Sid): Option<Entity> {
    match rules.parse(sid)
    case None => None
    case Some(e) => if e.eid in rules.blacklist then None else Some(e)
  }

  // ---------------------------------------------------------------- extraction

  /** Entities consumed by the first inputs, as far as the repository knows them. */
  function Consumed(repo: Repo, blacklist: set<Eid>, inputs: seq<Sid>): map<Eid, Entity> {
    if inputs == [] then map[]
    else
      var front, sid := Consumed(repo, blacklist, inputs[..|inputs| - 1]), inputs[|inputs| - 1];
      if sid in repo.states && repo.states[sid].eid !in blacklist then front[repo.states[sid].eid := repo.states[sid]]
      else front
  }

  function Created(rules: Rules, outputs: seq<Sid>): map<Eid, Entity> {
    if outputs == [] then map[]
    else
      var front, sid := Created(rules, outputs[..|outputs| - 1]), outputs[|outputs| - 1];
      if Tracked(rules, sid).Some? then front[Tracked(rules, sid).value.eid := Tracked(rules, sid).value] else front
  }

  /** The transition of one entity. */
  function TransitionOf(consumed: map<Eid, Entity>, created: map<Eid, Entity>, eid: Eid): Option<EitherOrBoth> {
    Pair(Get(consumed, eid), Get(created, eid))
  }

  /** `keys` enumerates `s` in some order, as iterating over a hash set does. */
  ghost predicate Enumerates(keys: seq<Eid>, s: set<Eid>) {
    && (forall eid :: eid in s <==> eid in keys)
    && (forall i, j :: 0 <= i < j < |keys| ==> keys[i] != keys[j])
  }

  /** The transitions of the given entities, in this order. */
  function Transitions(consumed: map<Eid, Entity>, created: map<Eid, Entity>, keys: seq<Eid>): seq<EitherOrBoth> {
    if keys == [] then []
    else
      var n := |keys| - 1;
      Transitions(consumed, created, keys[..n]) +
      match TransitionOf(consumed, created, keys[n]) case None => [] case Some(t) => [t]
  }

  /** One transition per entity that was consumed or created, in some order. */
  ghost predicate AreTransitions(
    transitions: seq<EitherOrBoth>, consumed: map<Eid, Entity>, created: map<Eid, Entity>)
  {
    exists keys :: Enumerates(keys, consumed.Keys + created.Keys) && transitions == Transitions(consumed, created, keys)
  }

  method ExtractTransitions(repo: EntityRepoRocksDB, rules: Rules, tx: Tx) returns (transitions: seq<EitherOrBoth>)
    ensures AreTransitions(transitions, Consumed(repo.View(), rules.blacklist, tx.inputs), Created(rules, tx.outputs))
  {
    var consumed: map<Eid, Entity> := map[];
    for i := 0 to |tx.inputs|
      invariant consumed == Consumed(repo.View(), rules.blacklist, tx.inputs[..i])
    {
      assert tx.inputs[..i + 1][..i] == tx.inputs[..i];
      var sid := tx.inputs[i];
      if sid in repo.states {
        var entity := repo.states[sid];
        if entity.eid !in rules.blacklist { consumed := consumed[entity.eid := entity]; }
      }
    }
    assert tx.inputs[..|tx.inputs|] == tx.inputs;
    var created: map<Eid, Entity> := map[];
    for i := 0 to |tx.outputs|
      invariant created == Created(rules, tx.outputs[..i])
    {
      assert tx.outputs[..i + 1][..i] == tx.outputs[..i];
      var entity := rules.parse(tx.outputs[i]);
      if entity.Some? && entity.value.eid !in rules.blacklist { created := created[entity.value.eid := entity.value]; }
    }
    assert tx.outputs[..|tx.outputs|] == tx.outputs;
    transitions := Drain(consumed, created);
  }

  /** Drain both maps key by key, in an order nobody controls. */
  method Drain(consumed: map<Eid, Entity>, created: map<Eid, Entity>) returns (transitions: seq<EitherOrBoth>)
    ensures AreTransitions(transitions, consumed, created)
  {
    transitions := [];
    ghost var keys: seq<Eid> := [];
    var all := consumed.Keys + created.Keys;
    var left := all;
    while left != {}
      invariant left <= all
      invariant Enumerates(keys, all - left)
      invariant transitions == Transitions(consumed, created, keys)
      decreases |left|
    {
      var eid := Pick(left);
      var t := Pair(Get(consumed, eid), Get(created, eid));
      EnumeratesPush(keys, all - left, eid);
      assert (all - left) + {eid} == all - (left - {eid});
      assert (keys + [eid])[..|keys|] == keys;
      if t.Some? { transitions := transitions + [t.value]; }
      keys := keys + [eid];
      left := left - {eid};
    }
    assert all - left == all;
  }

  lemma EnumeratesPush(keys: seq<Eid>, s: set<Eid>, eid: Eid)
    requires Enumerates(keys, s) && eid !in s
    ensures Enumerates(keys + [eid], s + {eid})
  {
  }

  // ---------------------------------------------------------------- dispatch

  function Dispatch(repo: Repo, upd: StateUpdate): Repo {
    match upd
    case Transition(Left(st)) => Eliminated(repo, st)
    case TransitionRollback(Left(st)) => Invalidated(repo, st.sid, st.eid)
    case Transition(Right(st)) => WithConfirmed(repo, st)
    case Transition(Both(_, st)) => WithConfirmed(repo, st)
    case TransitionRollback(Right(st)) => WithConfirmed(repo, st)
    case TransitionRollback(Both(_, st)) => WithConfirmed(repo, st)
  }

  function DispatchAll(repo: Repo, topic: seq<StateUpdate>): Repo {
    if topic == [] then repo else Dispatch(DispatchAll(repo, topic[..|topic| - 1]), topic[|topic| - 1])
  }

  function UpdateOf(t: EitherOrBoth, applied: bool): StateUpdate {
    if applied then Transition(t) else TransitionRollback(Swap(t))
  }

  /** What the handler feeds into the topic. */
  function Topic(transitions: seq<EitherOrBoth>, applied: bool): seq<StateUpdate> {
    if transitions == [] then []
    else Topic(transitions[..|transitions| - 1], applied) + [UpdateOf(transitions[|transitions| - 1], applied)]
  }

  /** Handling one event and draining the topic can lead from `repo` to `repo'`. */
  ghost predicate HandlesTo(repo: Repo, ev: LedgerTxEvent, rules: Rules, repo': Repo) {
    var consumed, created := Consumed(repo, rules.blacklist, ev.tx.inputs), Created(rules, ev.tx.outputs);
    exists transitions :: AreTransitions(transitions, consumed, created)
                          && repo' == DispatchAll(repo, Topic(transitions, ev.AppliedTx?))
  }

  /** `try_handle`: the event is passed on exactly when no transition was found. */
  method TryHandle(repo: EntityRepoRocksDB, rules: Rules, ev: LedgerTxEvent)
    returns (topic: seq<StateUpdate>, passedOn: Option<LedgerTxEvent>)
    ensures HandlesTo(repo.View(), ev, rules, DispatchAll(repo.View(), topic))
    ensures passedOn == if topic == [] then Some(ev) else None
  {
    var transitions := ExtractTransitions(repo, rules, ev.tx);
    topic := [];
    for i := 0 to |transitions|
      invariant topic == Topic(transitions[..i], ev.AppliedTx?) && |topic| == i
    {
      assert transitions[..i + 1][..i] == transitions[..i];
      topic := topic + [if ev.AppliedTx? then Transition(transitions[i]) else TransitionRollback(Swap(transitions[i]))];
    }
    assert transitions[..|transitions|] == transitions;
    passedOn := if |transitions| > 0 then None else Some(ev);
  }

  /** `entity_tracking_stream`: every update of the topic becomes one repository operation. */
  method TrackEntities(repo: EntityRepoRocksDB, topic: seq<StateUpdate>)
    modifies repo
    ensures repo.View() == DispatchAll(old(repo.View()), topic)
  {
    for i := 0 to |topic|
      invariant repo.View() == DispatchAll(old(repo.View()), topic[..i])
    {
      assert topic[..i + 1][..i] == topic[..i];
      match topic[i] {
        case Transition(Left(st)) => repo.Eliminate(st);
        case TransitionRollback(Left(st)) => repo.Invalidate(st.sid, st.eid);
        case Transition(Right(st)) => repo.PutConfirmed(st);
        case Transition(Both(_, st)) => repo.PutConfirmed(st);
        case TransitionRollback(Right(st)) => repo.PutConfirmed(st);
        case TransitionRollback(Both(_, st)) => repo.PutConfirmed(st);
      }
    }
    assert topic[..|topic|] == topic;
  }
}
