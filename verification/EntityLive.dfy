/** The confirmed entities are exactly those in unspent boxes, and what ledger events make of predictions. */
module EntityLive {
  import opened Wrappers
  import opened Chain
  import opened EntityRepo
  import opened EntityLedger
  import opened EntityRollback

  /** The box holds the entity, and the entity is not blacklisted. */
  ghost predicate Holds(rules: Rules, sid: Sid, e: Entity) {
    rules.parse(sid) == Some(e) && e.eid !in rules.blacklist
  }

  /** The state's box was made by some transaction and spent by no later one. */
  ghost predicate Unspent(txs: seq<Tx>, sid: Sid) {
    exists i :: 0 <= i < |txs| && sid in txs[i].outputs && forall j :: i < j < |txs| ==> sid !in txs[j].inputs
  }

  ghost predicate SameEntity(rules: Rules, sid: Sid, other: Sid) {
    && rules.parse(sid).Some? && rules.parse(other).Some?
    && rules.parse(sid).value.eid == rules.parse(other).value.eid
  }

  /** A transaction makes at most one box of an entity. */
  ghost predicate OneBoxEach(tx: Tx, rules: Rules) {
    forall sid, other :: sid in tx.outputs && other in tx.outputs && SameEntity(rules, sid, other) ==> sid == other
  }

  /** An entity is held by a list of boxes exactly when one of them holds it; with several, one of those. */
  lemma HeldIff(rules: Rules, sids: seq<Sid>, eid: Eid)
    ensures eid in Held(rules, sids) ==>
              exists i :: 0 <= i < |sids| && Holds(rules, sids[i], Held(rules, sids)[eid])
                          && Held(rules, sids)[eid].eid == eid
    ensures forall i, e {:trigger Holds(rules, sids[i], e)} ::
              0 <= i < |sids| && Holds(rules, sids[i], e) && e.eid == eid ==> eid in Held(rules, sids)
  {
    if eid in Held(rules, sids) {
      HeldComesFrom(rules, sids, eid);
      var i :| 0 <= i < |sids| && Tracked(rules, sids[i]) == Some(Held(rules, sids)[eid]);
      assert Holds(rules, sids[i], Held(rules, sids)[eid]);
    }
    forall i, e | 0 <= i < |sids| && Holds(rules, sids[i], e) && e.eid == eid ensures eid in Held(rules, sids) {
      HeldContains(rules, sids, i);
    }
  }

  /** What a transaction makes is in the ledger. */
  lemma MadeIsLive(m: map<Eid, Entity>, tx: Tx, rules: Rules, e: Entity)
    requires WellRuled(rules) && OneBoxEach(tx, rules) && Holds(rules, e.sid, e) && e.sid in tx.outputs
    ensures Get(Ledger(m, tx, rules), e.eid) == Some(e)
  {
    HeldIff(rules, tx.outputs, e.eid);
    var i :| 0 <= i < |tx.outputs| && tx.outputs[i] == e.sid;
    assert Holds(rules, tx.outputs[i], e);
    var k :| 0 <= k < |tx.outputs| && Holds(rules, tx.outputs[k], Held(rules, tx.outputs)[e.eid])
             && Held(rules, tx.outputs)[e.eid].eid == e.eid;
    assert SameEntity(rules, tx.outputs[k], tx.outputs[i]);
  }

  /** What was live and is not made by a transaction stays live exactly when the transaction does not spend it. */
  lemma OldStaysLiveIff(m: map<Eid, Entity>, tx: Tx, rules: Rules, e: Entity)
    requires WellRuled(rules) && ValidTx(m, tx, rules) && Holds(rules, e.sid, e) && e.sid !in tx.outputs
    ensures Get(Ledger(m, tx, rules), e.eid) == Some(e) <==> Get(m, e.eid) == Some(e) && e.sid !in tx.inputs
  {
    HeldIff(rules, tx.inputs, e.eid);
    HeldIff(rules, tx.outputs, e.eid);
    SpentWasLive(m, tx, rules);
    if e.sid in tx.inputs {
      var i :| 0 <= i < |tx.inputs| && tx.inputs[i] == e.sid;
      assert Holds(rules, tx.inputs[i], e);
    }
  }

  lemma UnspentStep(txs: seq<Tx>, tx: Tx, sid: Sid)
    ensures Unspent(txs + [tx], sid) <==> sid in tx.outputs || (Unspent(txs, sid) && sid !in tx.inputs)
  {
    var longer, n := txs + [tx], |txs|;
    assert longer[n] == tx && forall i :: 0 <= i < n ==> longer[i] == txs[i];
    if i :| 0 <= i < n && sid in txs[i].outputs && (forall j :: i < j < n ==> sid !in txs[j].inputs)
            && sid !in tx.inputs
    {
      assert sid in longer[i].outputs;
    }
    if i :| 0 <= i <= n && sid in longer[i].outputs && forall j :: i < j <= n ==> sid !in longer[j].inputs {
      if i < n { assert sid in txs[i].outputs && sid !in longer[n].inputs; }
    }
  }

  /** The ledger of a valid chain holds exactly the entities, blacklisted ones aside, whose boxes are unspent. */
  lemma {:induction false} LedgerIsUnspent(txs: seq<Tx>, rules: Rules, e: Entity)
    requires WellRuled(rules) && ValidChain(txs, rules) && forall i :: 0 <= i < |txs| ==> OneBoxEach(txs[i], rules)
    ensures Get(LedgerOf(txs, rules), e.eid) == Some(e) <==> Holds(rules, e.sid, e) && Unspent(txs, e.sid)
  {
    if txs != [] {
      var front, tx := txs[..|txs| - 1], txs[|txs| - 1];
      var m := LedgerOf(front, rules);
      assert front + [tx] == txs;
      assert forall i :: 0 <= i < |front| ==> OneBoxEach(front[i], rules);
      LedgerIsUnspent(front, rules, e);
      UnspentStep(front, tx, e.sid);
      if !Holds(rules, e.sid, e) {
        LiveIsHeld(m, tx, rules, e);
      } else if e.sid in tx.outputs {
        MadeIsLive(m, tx, rules, e);
      } else {
        OldStaysLiveIff(m, tx, rules, e);
      }
    }
  }

  /** Nothing gets into the ledger but what a box holds. */
  lemma LiveIsHeld(m: map<Eid, Entity>, tx: Tx, rules: Rules, e: Entity)
    requires WellRuled(rules) && !Holds(rules, e.sid, e) && Get(m, e.eid) != Some(e)
    ensures Get(Ledger(m, tx, rules), e.eid) != Some(e)
  {
    HeldIff(rules, tx.outputs, e.eid);
  }

  /**
   In every run of applications and rollbacks with predictions in between, the confirmed state of an entity is
   the one in its unspent box on the surviving chain; a blacklisted entity never has one.
   */
  lemma ConfirmedIsUnspent(repos: seq<Repo>, steps: seq<Step>, rules: Rules, txs: seq<Tx>, e: Entity)
    requires WellRuled(rules) && IsRun(repos, steps, rules) && Surviving(steps) == Some(txs)
    requires forall i :: 0 <= i < |txs| ==> OneBoxEach(txs[i], rules)
    ensures GetLastConfirmed(repos[|steps|], e.eid) == Some(e) <==>
            rules.parse(e.sid) == Some(e) && e.eid !in rules.blacklist && Unspent(txs, e.sid)
  {
    RunStaysInStep(repos, steps, rules, |steps|);
    assert steps[..|steps|] == steps;
    LedgerIsUnspent(txs, rules, e);
  }

  // ---------------------------------------------------------------- predictions and mempool states

  ghost predicate KeyedByEntity(m: map<Eid, Entity>) {
    forall eid :: eid in m ==> m[eid].eid == eid
  }

  lemma {:induction false} ConsumedIsKeyed(repo: Repo, blacklist: set<Eid>, inputs: seq<Sid>)
    ensures KeyedByEntity(Consumed(repo, blacklist, inputs))
  {
    if inputs != [] { ConsumedIsKeyed(repo, blacklist, inputs[..|inputs| - 1]); }
  }

  lemma {:induction false} CreatedIsKeyed(rules: Rules, outputs: seq<Sid>)
    ensures KeyedByEntity(Created(rules, outputs))
  {
    if outputs != [] { CreatedIsKeyed(rules, outputs[..|outputs| - 1]); }
  }

  /** Only the entities in `ended` have lost their predictions, and only those in `reset` their mempool state. */
  ghost predicate Forgets(repo: Repo, repo': Repo, ended: set<Eid>, reset: set<Eid>) {
    && repo'.lastPredicted == repo.lastPredicted - ended
    && repo'.lastUnconfirmed == repo.lastUnconfirmed - reset
  }

  /** Entities that disappear in an event: its transaction spends them for good, or is undone and had made them. */
  ghost function Ended(consumed: map<Eid, Entity>, created: map<Eid, Entity>, applied: bool): set<Eid> {
    if applied then consumed.Keys - created.Keys else created.Keys - consumed.Keys
  }

  ghost function Among(keys: seq<Eid>, s: set<Eid>): set<Eid> {
    set eid | eid in keys && eid in s
  }

  lemma UpdateForgets(repo: Repo, consumed: map<Eid, Entity>, created: map<Eid, Entity>, key: Eid, applied: bool)
    requires KeyedByEntity(consumed) && KeyedByEntity(created) && TransitionOf(consumed, created, key).Some?
    ensures var ended := {key} * Ended(consumed, created, applied);
            Forgets(repo, Dispatch(repo, UpdateOf(TransitionOf(consumed, created, key).value, applied)),
                    if applied then ended else {}, ended)
  {
  }

  lemma ForgetsMore(repo: Repo, mid: Repo, repo': Repo, ended: set<Eid>, reset: set<Eid>, ended': set<Eid>,
                    reset': set<Eid>)
    requires Forgets(repo, mid, ended, reset) && Forgets(mid, repo', ended', reset')
    ensures Forgets(repo, repo', ended + ended', reset + reset')
  {
    assert repo.lastPredicted - ended - ended' == repo.lastPredicted - (ended + ended');
    assert repo.lastUnconfirmed - reset - reset' == repo.lastUnconfirmed - (reset + reset');
  }

  lemma AmongPush(keys: seq<Eid>, key: Eid, s: set<Eid>)
    ensures Among(keys + [key], s) == Among(keys, s) + {key} * s
  {
  }

  lemma {:induction false} BatchForgets(
    repo: Repo, consumed: map<Eid, Entity>, created: map<Eid, Entity>, keys: seq<Eid>, applied: bool)
    requires KeyedByEntity(consumed) && KeyedByEntity(created)
    requires forall i :: 0 <= i < |keys| ==> keys[i] in consumed.Keys + created.Keys
    ensures var ended := Among(keys, Ended(consumed, created, applied));
            Forgets(repo, DispatchAll(repo, Topic(Transitions(consumed, created, keys), applied)),
                    if applied then ended else {}, ended)
  {
    if keys != [] {
      var front, key := keys[..|keys| - 1], keys[|keys| - 1];
      assert forall i :: 0 <= i < |front| ==> front[i] == keys[i];
      var gone, mid := Ended(consumed, created, applied),
          DispatchAll(repo, Topic(Transitions(consumed, created, front), applied));
      BatchForgets(repo, consumed, created, front, applied);
      TopicSplits(consumed, created, keys, applied);
      UpdateForgets(mid, consumed, created, key, applied);
      ForgetsMore(repo, mid, Dispatch(mid, UpdateOf(TransitionOf(consumed, created, key).value, applied)),
                  if applied then Among(front, gone) else {}, Among(front, gone),
                  if applied then {key} * gone else {}, {key} * gone);
      assert keys == front + [key];
      AmongPush(front, key, gone);
    }
  }

  /**
   A transaction forgets predictions and mempool states of the entities it spends for good and of no others. Undoing
   it forgets no prediction at all, and the mempool states of just the entities it had made.
   */
  lemma EventForgets(repo: Repo, ev: LedgerTxEvent, rules: Rules, repo': Repo)
    requires HandlesTo(repo, ev, rules, repo')
    ensures var ended := Ended(Consumed(repo, rules.blacklist, ev.tx.inputs), Created(rules, ev.tx.outputs),
                               ev.AppliedTx?);
            Forgets(repo, repo', if ev.AppliedTx? then ended else {}, ended)
  {
    var consumed, created := Consumed(repo, rules.blacklist, ev.tx.inputs), Created(rules, ev.tx.outputs);
    ConsumedIsKeyed(repo, rules.blacklist, ev.tx.inputs);
    CreatedIsKeyed(rules, ev.tx.outputs);
    var transitions :| AreTransitions(transitions, consumed, created)
                       && repo' == DispatchAll(repo, Topic(transitions, ev.AppliedTx?));
    var keys :| Enumerates(keys, consumed.Keys + created.Keys) && transitions == Transitions(consumed, created, keys);
    BatchForgets(repo, consumed, created, keys, ev.AppliedTx?);
    var ended := Ended(consumed, created, ev.AppliedTx?);
    forall eid | eid in ended ensures eid in keys {
      assert eid in consumed.Keys + created.Keys;
    }
    assert Among(keys, ended) == ended;
  }
}
