/** Rolling blocks back restores the confirmed state of every entity. */
module EntityRollback {
  import opened Wrappers
  import opened EntityRepo
  import opened EntityLedger
  import opened Chain

  // ---------------------------------------------------------------- the ledger, without a repository

  /** Entities held by boxes of a list, by entity id. */
  ghost function Held(rules: Rules, sids: seq<Sid>): map<Eid, Entity> {
    Created(rules, sids)
  }

  /** Unspent entities after a transaction. */
  ghost function Ledger(m: map<Eid, Entity>, tx: Tx, rules: Rules): map<Eid, Entity> {
    (m - Held(rules, tx.inputs).Keys) + Held(rules, tx.outputs)
  }

  ghost function LedgerOf(txs: seq<Tx>, rules: Rules): map<Eid, Entity> {
    if txs == [] then map[] else Ledger(LedgerOf(txs[..|txs| - 1], rules), txs[|txs| - 1], rules)
  }

  /** Entities are unique: a transaction spends live states and mints an entity only when it is not live. */
  ghost predicate ValidTx(m: map<Eid, Entity>, tx: Tx, rules: Rules) {
    && (forall i :: 0 <= i < |tx.inputs| && Tracked(rules, tx.inputs[i]).Some? ==>
          var e := Tracked(rules, tx.inputs[i]).value; e.eid in m && m[e.eid] == e)
    && (forall eid :: eid in Held(rules, tx.outputs) && eid in m ==> eid in Held(rules, tx.inputs))
    && (forall i :: 0 <= i < |tx.outputs| ==> rules.spends(tx.outputs[i]) == set s | s in tx.inputs)
  }

  ghost predicate ValidChain(txs: seq<Tx>, rules: Rules) {
    txs != [] ==>
      && ValidChain(txs[..|txs| - 1], rules)
      && ValidTx(LedgerOf(txs[..|txs| - 1], rules), txs[|txs| - 1], rules)
  }

  lemma {:induction false} HeldComesFrom(rules: Rules, sids: seq<Sid>, eid: Eid)
    requires eid in Held(rules, sids)
    ensures exists i :: 0 <= i < |sids| && Tracked(rules, sids[i]) == Some(Held(rules, sids)[eid])
    ensures Held(rules, sids)[eid].eid == eid
  {
    var n := |sids| - 1;
    if Tracked(rules, sids[n]).Some? && Tracked(rules, sids[n]).value.eid == eid {
      assert Tracked(rules, sids[n]) == Some(Held(rules, sids)[eid]);
    } else {
      HeldComesFrom(rules, sids[..n], eid);
      var i :| 0 <= i < n && Tracked(rules, sids[..n][i]) == Some(Held(rules, sids[..n])[eid]);
      assert sids[..n][i] == sids[i];
    }
  }

  lemma {:induction false} HeldContains(rules: Rules, sids: seq<Sid>, i: nat)
    requires i < |sids| && Tracked(rules, sids[i]).Some?
    ensures Tracked(rules, sids[i]).value.eid in Held(rules, sids)
  {
    var n := |sids| - 1;
    if i < n { HeldContains(rules, sids[..n], i); }
  }

  /** Spent entities were live. */
  lemma SpentWasLive(m: map<Eid, Entity>, tx: Tx, rules: Rules)
    requires ValidTx(m, tx, rules)
    ensures forall eid :: eid in Held(rules, tx.inputs) ==> eid in m && m[eid] == Held(rules, tx.inputs)[eid]
  {
    forall eid | eid in Held(rules, tx.inputs) ensures eid in m && m[eid] == Held(rules, tx.inputs)[eid] {
      HeldComesFrom(rules, tx.inputs, eid);
    }
  }

  // ---------------------------------------------------------------- one transaction on the repository

  /** The repository stores states as they are on the ledger. */
  ghost predicate Truthful(repo: Repo, rules: Rules) {
    && (forall sid :: sid in repo.states ==> rules.parse(sid) == Some(repo.states[sid]))
    && (forall sid :: sid in repo.link ==> Predecessor(rules, sid, repo.link[sid]))
    && (forall eid :: eid in repo.lastConfirmed ==> repo.lastConfirmed[eid] in repo.states)
  }

  /** `prev` was spent to make `sid`, and both are states of the same entity. */
  ghost predicate Predecessor(rules: Rules, sid: Sid, prev: Sid) {
    && prev in rules.spends(sid)
    && rules.parse(sid).Some? && rules.parse(prev).Some?
    && rules.parse(prev).value.eid == rules.parse(sid).value.eid
  }

  ghost predicate Knows(repo: Repo, rules: Rules, sids: seq<Sid>) {
    forall i :: 0 <= i < |sids| && Tracked(rules, sids[i]).Some? ==> sids[i] in repo.states
  }

  /** A repository that knows the inputs extracts exactly what the ledger spends. */
  lemma {:induction false} ConsumedIsHeld(repo: Repo, rules: Rules, inputs: seq<Sid>)
    requires Truthful(repo, rules) && Knows(repo, rules, inputs)
    ensures Consumed(repo, rules.blacklist, inputs) == Held(rules, inputs)
  {
    if inputs != [] {
      var n := |inputs| - 1;
      assert Knows(repo, rules, inputs[..n]) by {
        forall i | 0 <= i < n && Tracked(rules, inputs[..n][i]).Some? ensures inputs[..n][i] in repo.states {
          assert inputs[..n][i] == inputs[i];
        }
      }
      ConsumedIsHeld(repo, rules, inputs[..n]);
    }
  }

  /** Confirmed state of an entity after the updates of a batch of transitions. */
  ghost function Outcome(
    repo: Repo, consumed: map<Eid, Entity>, created: map<Eid, Entity>, applied: bool, eid: Eid): Option<Entity>
  {
    var (before, after) := if applied then (consumed, created) else (created, consumed);
    if eid in after then Some(after[eid]) else if eid in before then None else GetLastConfirmed(repo, eid)
  }

  /** States that a rollback removes without a spent predecessor carry no prediction link. */
  ghost predicate MintedUnlinked(repo: Repo, consumed: map<Eid, Entity>, created: map<Eid, Entity>) {
    forall eid :: eid in created && eid !in consumed ==> created[eid].sid !in repo.link
  }

  /** What a dispatched update may change: states are added, links are removed, one entity moves. */
  ghost predicate Moves(repo: Repo, repo': Repo, rules: Rules, moved: seq<Eid>) {
    && Truthful(repo', rules)
    && repo.states.Keys <= repo'.states.Keys
    && repo'.link.Keys <= repo.link.Keys
    && forall eid :: eid !in moved ==> GetLastConfirmed(repo', eid) == GetLastConfirmed(repo, eid)
  }

  /** Maps of entities by their own id, as they are on the ledger. */
  ghost predicate Genuine(m: map<Eid, Entity>, rules: Rules) {
    forall eid :: eid in m ==> m[eid].eid == eid && rules.parse(m[eid].sid) == Some(m[eid])
  }

  lemma HeldIsGenuine(rules: Rules, sids: seq<Sid>)
    requires WellRuled(rules)
    ensures Genuine(Held(rules, sids), rules)
  {
    forall eid | eid in Held(rules, sids)
      ensures Held(rules, sids)[eid].eid == eid
      ensures rules.parse(Held(rules, sids)[eid].sid) == Some(Held(rules, sids)[eid])
    {
      HeldComesFrom(rules, sids, eid);
    }
  }

  /** The listed entities have their outcome, and nothing else moved. */
  ghost predicate Settles(repo: Repo, repo': Repo, rules: Rules, consumed: map<Eid, Entity>, created: map<Eid, Entity>,
                          keys: seq<Eid>, applied: bool)
  {
    && Moves(repo, repo', rules, keys)
    && forall eid :: eid in keys ==> GetLastConfirmed(repo', eid) == Outcome(repo, consumed, created, applied, eid)
  }

  /** Each update concerns its own entity, so the order of the updates does not matter. */
  lemma {:induction false} BatchOutcome(
    repo: Repo, rules: Rules, consumed: map<Eid, Entity>, created: map<Eid, Entity>, keys: seq<Eid>, applied: bool)
    requires Truthful(repo, rules) && Genuine(consumed, rules) && Genuine(created, rules)
    requires applied || MintedUnlinked(repo, consumed, created)
    requires forall i, j :: 0 <= i < j < |keys| ==> keys[i] != keys[j]
    requires forall i :: 0 <= i < |keys| ==> keys[i] in consumed.Keys + created.Keys
    ensures Settles(repo, DispatchAll(repo, Topic(Transitions(consumed, created, keys), applied)), rules,
                    consumed, created, keys, applied)
  {
    if keys != [] {
      var front, key := keys[..|keys| - 1], keys[|keys| - 1];
      assert forall i :: 0 <= i < |front| ==> front[i] == keys[i];
      BatchOutcome(repo, rules, consumed, created, front, applied);
      TopicSplits(consumed, created, keys, applied);
      assert keys == front + [key];
      OneMoreSettles(repo, DispatchAll(repo, Topic(Transitions(consumed, created, front), applied)), rules,
                     consumed, created, front, key, applied);
    }
  }

  lemma OneMoreSettles(repo: Repo, mid: Repo, rules: Rules, consumed: map<Eid, Entity>, created: map<Eid, Entity>,
                       keys: seq<Eid>, key: Eid, applied: bool)
    requires Genuine(consumed, rules) && Genuine(created, rules)
    requires applied || MintedUnlinked(repo, consumed, created)
    requires Settles(repo, mid, rules, consumed, created, keys, applied)
    requires key in consumed.Keys + created.Keys && key !in keys
    ensures TransitionOf(consumed, created, key).Some?
    ensures Settles(repo, Dispatch(mid, UpdateOf(TransitionOf(consumed, created, key).value, applied)), rules,
                    consumed, created, keys + [key], applied)
  {
    UpdateOutcome(mid, rules, consumed, created, key, applied);
  }

  lemma TopicSplits(consumed: map<Eid, Entity>, created: map<Eid, Entity>, keys: seq<Eid>, applied: bool)
    requires keys != [] && keys[|keys| - 1] in consumed.Keys + created.Keys
    ensures TransitionOf(consumed, created, keys[|keys| - 1]).Some?
    ensures var t := TransitionOf(consumed, created, keys[|keys| - 1]).value;
            forall repo :: DispatchAll(repo, Topic(Transitions(consumed, created, keys), applied))
              == Dispatch(DispatchAll(repo, Topic(Transitions(consumed, created, keys[..|keys| - 1]), applied)),
                          UpdateOf(t, applied))
  {
    var front := Transitions(consumed, created, keys[..|keys| - 1]);
    var t := TransitionOf(consumed, created, keys[|keys| - 1]).value;
    assert Transitions(consumed, created, keys) == front + [t];
    assert (front + [t])[..|front|] == front;
    var topic := Topic(front, applied);
    assert (topic + [UpdateOf(t, applied)])[..|topic|] == topic;
  }

  lemma ConfirmMoves(mid: Repo, rules: Rules, e: Entity)
    requires Truthful(mid, rules) && rules.parse(e.sid) == Some(e)
    ensures Moves(mid, WithConfirmed(mid, e), rules, [e.eid])
    ensures GetLastConfirmed(WithConfirmed(mid, e), e.eid) == Some(e)
  {
  }

  lemma EliminateMoves(mid: Repo, rules: Rules, e: Entity)
    requires Truthful(mid, rules)
    ensures Moves(mid, Eliminated(mid, e), rules, [e.eid])
    ensures GetLastConfirmed(Eliminated(mid, e), e.eid) == None
  {
  }

  lemma InvalidateMoves(mid: Repo, rules: Rules, e: Entity)
    requires Truthful(mid, rules) && e.sid !in mid.link
    ensures Moves(mid, Invalidated(mid, e.sid, e.eid), rules, [e.eid])
    ensures GetLastConfirmed(Invalidated(mid, e.sid, e.eid), e.eid) == None
  {
  }

  /** One update: its own entity changes, every other one keeps its confirmed state. */
  lemma UpdateOutcome(
    mid: Repo, rules: Rules, consumed: map<Eid, Entity>, created: map<Eid, Entity>, key: Eid, applied: bool)
    requires Truthful(mid, rules) && Genuine(consumed, rules) && Genuine(created, rules)
    requires applied || MintedUnlinked(mid, consumed, created)
    requires key in consumed.Keys + created.Keys
    ensures var t := TransitionOf(consumed, created, key);
            && t.Some?
            && var repo' := Dispatch(mid, UpdateOf(t.value, applied));
            && Moves(mid, repo', rules, [key])
            && GetLastConfirmed(repo', key) == Outcome(mid, consumed, created, applied, key)
  {
    var after := if applied then created else consumed;
    if key in after {
      ConfirmMoves(mid, rules, after[key]);
    } else if applied {
      EliminateMoves(mid, rules, consumed[key]);
    } else {
      InvalidateMoves(mid, rules, created[key]);
    }
  }

  // ---------------------------------------------------------------- the repository against the ledger

  /** The repository confirms exactly the live entities of the chain, and remembers what the chain spent. */
  ghost predicate InStep(repo: Repo, txs: seq<Tx>, rules: Rules) {
    && Truthful(repo, rules)
    && ValidChain(txs, rules)
    && (forall eid :: GetLastConfirmed(repo, eid) == Get(LedgerOf(txs, rules), eid))
    && (forall i :: 0 <= i < |txs| ==> Knows(repo, rules, txs[i].inputs))
  }

  lemma LiveIsKnown(repo: Repo, txs: seq<Tx>, tx: Tx, rules: Rules)
    requires WellRuled(rules) && InStep(repo, txs, rules) && ValidTx(LedgerOf(txs, rules), tx, rules)
    ensures Knows(repo, rules, tx.inputs)
  {
    forall i | 0 <= i < |tx.inputs| && Tracked(rules, tx.inputs[i]).Some? ensures tx.inputs[i] in repo.states {
      var e := Tracked(rules, tx.inputs[i]).value;
      assert GetLastConfirmed(repo, e.eid) == Some(e);
      assert rules.parse(repo.lastConfirmed[e.eid]) == Some(e);
    }
  }

  lemma KnowsMore(repo: Repo, repo': Repo, rules: Rules, txs: seq<Tx>)
    requires repo.states.Keys <= repo'.states.Keys
    requires forall i :: 0 <= i < |txs| ==> Knows(repo, rules, txs[i].inputs)
    ensures forall i :: 0 <= i < |txs| ==> Knows(repo', rules, txs[i].inputs)
  {
  }

  lemma ValidChainPush(txs: seq<Tx>, tx: Tx, rules: Rules)
    requires ValidChain(txs, rules) && ValidTx(LedgerOf(txs, rules), tx, rules)
    ensures ValidChain(txs + [tx], rules)
    ensures LedgerOf(txs + [tx], rules) == Ledger(LedgerOf(txs, rules), tx, rules)
  {
  }

  /** The outcome of a batch, entity by entity, is the ledger after or before the transaction. */
  lemma OutcomeIsLedger(repo: Repo, m: map<Eid, Entity>, tx: Tx, rules: Rules, eid: Eid)
    requires ValidTx(m, tx, rules)
    ensures var consumed, created := Held(rules, tx.inputs), Held(rules, tx.outputs);
            && (GetLastConfirmed(repo, eid) == Get(m, eid) ==>
                  Outcome(repo, consumed, created, true, eid) == Get(Ledger(m, tx, rules), eid))
            && (GetLastConfirmed(repo, eid) == Get(Ledger(m, tx, rules), eid) ==>
                  Outcome(repo, consumed, created, false, eid) == Get(m, eid))
  {
    SpentWasLive(m, tx, rules);
  }

  /** Handling a transaction gives every entity its outcome, in whatever order updates arrive. */
  lemma HandledOutcome(repo: Repo, tx: Tx, rules: Rules, applied: bool, repo': Repo)
    requires WellRuled(rules) && Truthful(repo, rules) && Knows(repo, rules, tx.inputs)
    requires applied || MintedUnlinked(repo, Held(rules, tx.inputs), Held(rules, tx.outputs))
    requires HandlesTo(repo, if applied then AppliedTx(tx) else UnappliedTx(tx), rules, repo')
    ensures Truthful(repo', rules) && repo.states.Keys <= repo'.states.Keys
    ensures forall eid :: GetLastConfirmed(repo', eid)
                          == Outcome(repo, Held(rules, tx.inputs), Held(rules, tx.outputs), applied, eid)
  {
    ConsumedIsHeld(repo, rules, tx.inputs);
    HeldIsGenuine(rules, tx.inputs);
    HeldIsGenuine(rules, tx.outputs);
    var consumed, created := Held(rules, tx.inputs), Held(rules, tx.outputs);
    var transitions :| AreTransitions(transitions, consumed, created)
                       && repo' == DispatchAll(repo, Topic(transitions, applied));
    var keys :| Enumerates(keys, consumed.Keys + created.Keys) && transitions == Transitions(consumed, created, keys);
    BatchOutcome(repo, rules, consumed, created, keys, applied);
    forall eid ensures GetLastConfirmed(repo', eid) == Outcome(repo, consumed, created, applied, eid) {
      assert eid in keys <==> eid in consumed.Keys + created.Keys;
    }
  }

  /** Applying a valid transaction keeps the repository in step, in whatever order updates arrive. */
  lemma ApplyKeepsInStep(repo: Repo, txs: seq<Tx>, tx: Tx, rules: Rules, repo': Repo)
    requires WellRuled(rules) && InStep(repo, txs, rules) && ValidTx(LedgerOf(txs, rules), tx, rules)
    requires HandlesTo(repo, AppliedTx(tx), rules, repo')
    ensures InStep(repo', txs + [tx], rules)
  {
    var m := LedgerOf(txs, rules);
    LiveIsKnown(repo, txs, tx, rules);
    HandledOutcome(repo, tx, rules, true, repo');
    ValidChainPush(txs, tx, rules);
    forall eid ensures GetLastConfirmed(repo', eid) == Get(Ledger(m, tx, rules), eid) {
      OutcomeIsLedger(repo, m, tx, rules, eid);
    }
    KnowsMore(repo, repo', rules, txs + [tx]);
  }

  /** A minted state cannot carry a prediction link: its predecessor would have been spent. */
  lemma MintedHasNoLink(repo: Repo, m: map<Eid, Entity>, tx: Tx, rules: Rules)
    requires WellRuled(rules) && Truthful(repo, rules) && ValidTx(m, tx, rules)
    ensures MintedUnlinked(repo, Held(rules, tx.inputs), Held(rules, tx.outputs))
  {
    var consumed, created := Held(rules, tx.inputs), Held(rules, tx.outputs);
    forall eid | eid in created && eid !in consumed ensures created[eid].sid !in repo.link {
      HeldComesFrom(rules, tx.outputs, eid);
      var k :| 0 <= k < |tx.outputs| && Tracked(rules, tx.outputs[k]) == Some(created[eid]);
      assert created[eid].sid == tx.outputs[k];
      if tx.outputs[k] in repo.link {
        LinkedWasSpent(repo, m, tx, rules, k);
        assert false;
      }
    }
  }

  lemma LinkedWasSpent(repo: Repo, m: map<Eid, Entity>, tx: Tx, rules: Rules, k: nat)
    requires Truthful(repo, rules) && ValidTx(m, tx, rules)
    requires k < |tx.outputs| && Tracked(rules, tx.outputs[k]).Some? && tx.outputs[k] in repo.link
    ensures Tracked(rules, tx.outputs[k]).value.eid in Held(rules, tx.inputs)
  {
    var prev := repo.link[tx.outputs[k]];
    assert Predecessor(rules, tx.outputs[k], prev) && prev in tx.inputs;
    var i :| 0 <= i < |tx.inputs| && tx.inputs[i] == prev;
    HeldContains(rules, tx.inputs, i);
  }

  /** Unapplying the last transaction restores the ledger before it. */
  lemma UnapplyKeepsInStep(repo: Repo, txs: seq<Tx>, rules: Rules, repo': Repo)
    requires WellRuled(rules) && txs != [] && InStep(repo, txs, rules)
    requires HandlesTo(repo, UnappliedTx(txs[|txs| - 1]), rules, repo')
    ensures InStep(repo', txs[..|txs| - 1], rules)
  {
    var front, tx := txs[..|txs| - 1], txs[|txs| - 1];
    var m := LedgerOf(front, rules);
    MintedHasNoLink(repo, m, tx, rules);
    HandledOutcome(repo, tx, rules, false, repo');
    forall eid ensures GetLastConfirmed(repo', eid) == Get(m, eid) {
      OutcomeIsLedger(repo, m, tx, rules, eid);
    }
    KnowsMore(repo, repo', rules, front);
  }

  // ---------------------------------------------------------------- whole runs

  datatype Step =
    | Handle(ev: LedgerTxEvent)
    | Predict(entity: Entity, prev: Option<Sid>)
    | Unconfirm(entity: Entity)

  ghost predicate StepsTo(repo: Repo, step: Step, rules: Rules, repo': Repo) {
    match step
    case Handle(ev) => HandlesTo(repo, ev, rules, repo')
    case Predict(e, prev) => repo' == WithPredicted(repo, e, prev)
    case Unconfirm(e) => repo' == WithUnconfirmed(repo, e)
  }

  /** Transactions left standing; `None` when a rollback does not concern the last one. */
  function Surviving(steps: seq<Step>): Option<seq<Tx>> {
    if steps == [] then Some([])
    else
      match Surviving(steps[..|steps| - 1])
      case None => None
      case Some(txs) =>
        match steps[|steps| - 1]
        case Handle(AppliedTx(tx)) => Some(txs + [tx])
        case Handle(UnappliedTx(tx)) =>
          if txs != [] && txs[|txs| - 1] == tx then Some(txs[..|txs| - 1]) else None
        case _ => Some(txs)
  }

  /** Applied transactions are valid where they are applied; predictions are made of boxes they spend. */
  ghost predicate ValidStep(txs: seq<Tx>, step: Step, rules: Rules) {
    match step
    case Handle(AppliedTx(tx)) => ValidTx(LedgerOf(txs, rules), tx, rules)
    case Handle(UnappliedTx(tx)) => txs != [] && txs[|txs| - 1] == tx
    case Predict(e, prev) =>
      rules.parse(e.sid) == Some(e) && (prev.Some? ==> Predecessor(rules, e.sid, prev.value))
    case Unconfirm(e) => rules.parse(e.sid) == Some(e)
  }

  ghost predicate IsRun(repos: seq<Repo>, steps: seq<Step>, rules: Rules) {
    && |repos| == |steps| + 1 && repos[0] == EMPTY_REPO
    && forall i {:trigger steps[i]} :: 0 <= i < |steps| ==>
         && Surviving(steps[..i]).Some?
         && ValidStep(Surviving(steps[..i]).value, steps[i], rules)
         && StepsTo(repos[i], steps[i], rules, repos[i + 1])
  }

  lemma StepKeepsInStep(repo: Repo, txs: seq<Tx>, step: Step, rules: Rules, repo': Repo, txs': seq<Tx>)
    requires WellRuled(rules) && InStep(repo, txs, rules) && ValidStep(txs, step, rules)
    requires StepsTo(repo, step, rules, repo')
    requires txs' == match step
                     case Handle(AppliedTx(tx)) => txs + [tx]
                     case Handle(UnappliedTx(_)) => txs[..|txs| - 1]
                     case _ => txs
    ensures InStep(repo', txs', rules)
  {
    match step {
      case Handle(AppliedTx(tx)) => ApplyKeepsInStep(repo, txs, tx, rules, repo');
      case Handle(UnappliedTx(tx)) => UnapplyKeepsInStep(repo, txs, rules, repo');
      case Predict(e, prev) =>
        assert forall eid :: GetLastConfirmed(repo', eid) == GetLastConfirmed(repo, eid);
        KnowsMore(repo, repo', rules, txs);
      case Unconfirm(e) =>
        assert forall eid :: GetLastConfirmed(repo', eid) == GetLastConfirmed(repo, eid);
        KnowsMore(repo, repo', rules, txs);
    }
  }

  lemma {:induction false} RunStaysInStep(repos: seq<Repo>, steps: seq<Step>, rules: Rules, i: nat)
    requires WellRuled(rules) && IsRun(repos, steps, rules) && i <= |steps|
    ensures Surviving(steps[..i]).Some? && InStep(repos[i], Surviving(steps[..i]).value, rules)
  {
    if i > 0 {
      RunStaysInStep(repos, steps, rules, i - 1);
      assert steps[..i][..i - 1] == steps[..i - 1];
      var step := steps[i - 1];
      StepKeepsInStep(repos[i - 1], Surviving(steps[..i - 1]).value, step, rules,
                      repos[i], Surviving(steps[..i]).value);
    }
  }

  /** Steps that apply the given transactions one after the other. */
  function Scratch(txs: seq<Tx>): seq<Step> {
    seq(|txs|, i requires 0 <= i < |txs| => Handle(AppliedTx(txs[i])))
  }

  lemma {:induction false} ScratchSurvives(txs: seq<Tx>)
    ensures Surviving(Scratch(txs)) == Some(txs)
  {
    if txs != [] {
      var front := txs[..|txs| - 1];
      assert Scratch(txs)[..|txs| - 1] == Scratch(front);
      ScratchSurvives(front);
      assert front + [txs[|txs| - 1]] == txs;
    }
  }

  /**
   Rollback restores entity state: whatever was applied, rolled back and predicted along the way, every
   entity has the confirmed state it has when only the surviving transactions are applied from scratch.
   */
  lemma RollbackRestores(
    repos: seq<Repo>, steps: seq<Step>, scratch: seq<Repo>, txs: seq<Tx>, rules: Rules, eid: Eid)
    requires WellRuled(rules) && IsRun(repos, steps, rules)
    requires Surviving(steps) == Some(txs) && IsRun(scratch, Scratch(txs), rules)
    ensures GetLastConfirmed(repos[|steps|], eid) == GetLastConfirmed(scratch[|txs|], eid)
    ensures GetLastConfirmed(repos[|steps|], eid) == Get(LedgerOf(txs, rules), eid)
  {
    RunStaysInStep(repos, steps, rules, |steps|);
    assert steps[..|steps|] == steps;
    RunStaysInStep(scratch, Scratch(txs), rules, |txs|);
    assert Scratch(txs)[..|txs|] == Scratch(txs);
    ScratchSurvives(txs);
  }

  // ---------------------------------------------------------------- blocks

  function Reverse<T>(s: seq<T>): seq<T> {
    if s == [] then [] else [s[|s| - 1]] + Reverse(s[..|s| - 1])
  }

  /** Events of an upgrade; a rolled-back block is undone in reverse order. */
  function ProcessUpgrade(u: ChainUpgrade): seq<LedgerTxEvent> {
    match u
    case RollForward(blk) => Applied(blk.transactions)
    case RollBackward(blk) => Unapplied(Reverse(blk.transactions))
  }

  function Applied(txs: seq<Tx>): seq<LedgerTxEvent> {
    seq(|txs|, i requires 0 <= i < |txs| => AppliedTx(txs[i]))
  }

  function Unapplied(txs: seq<Tx>): seq<LedgerTxEvent> {
    seq(|txs|, i requires 0 <= i < |txs| => UnappliedTx(txs[i]))
  }

  function HandleAll(evs: seq<LedgerTxEvent>): seq<Step> {
    seq(|evs|, i requires 0 <= i < |evs| => Handle(evs[i]))
  }

  lemma {:induction false} AppliedSurvive(steps: seq<Step>, txs: seq<Tx>, added: seq<Tx>)
    requires Surviving(steps) == Some(txs)
    ensures Surviving(steps + HandleAll(Applied(added))) == Some(txs + added)
  {
    if added == [] {
      assert steps + HandleAll(Applied(added)) == steps && txs + added == txs;
    } else {
      var n := |added| - 1;
      var longer := steps + HandleAll(Applied(added));
      assert longer[..|steps| + n] == steps + HandleAll(Applied(added[..n]));
      AppliedSurvive(steps, txs, added[..n]);
      assert txs + added[..n] + [added[n]] == txs + added;
    }
  }

  lemma {:induction false} UnappliedAreGone(steps: seq<Step>, txs: seq<Tx>, undone: seq<Tx>)
    requires Surviving(steps) == Some(txs + undone)
    ensures Surviving(steps + HandleAll(Unapplied(Reverse(undone)))) == Some(txs)
    decreases |undone|
  {
    if undone == [] {
      assert steps + HandleAll(Unapplied(Reverse(undone))) == steps && txs + undone == txs;
    } else {
      var n := |undone| - 1;
      var one := steps + [Handle(UnappliedTx(undone[n]))];
      assert one[..|steps|] == steps;
      assert (txs + undone)[..|txs + undone| - 1] == txs + undone[..n];
      UnappliedAreGone(one, txs, undone[..n]);
      assert one + HandleAll(Unapplied(Reverse(undone[..n]))) == steps + HandleAll(Unapplied(Reverse(undone)));
    }
  }

  /** Rolling a block forward appends its transactions. */
  lemma ForwardSurvives(steps: seq<Step>, txs: seq<Tx>, blk: Block)
    requires Surviving(steps) == Some(txs)
    ensures Surviving(steps + HandleAll(ProcessUpgrade(RollForward(blk)))) == Some(txs + blk.transactions)
  {
    AppliedSurvive(steps, txs, blk.transactions);
  }

  /** Undoing a block from its last transaction down takes exactly that block off the chain. */
  lemma BackwardSurvives(steps: seq<Step>, txs: seq<Tx>, blk: Block)
    requires Surviving(steps) == Some(txs + blk.transactions)
    ensures Surviving(steps + HandleAll(ProcessUpgrade(RollBackward(blk)))) == Some(txs)
  {
    UnappliedAreGone(steps, txs, blk.transactions);
  }
}
