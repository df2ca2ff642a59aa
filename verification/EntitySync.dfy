/** From chain synchronisation to entities: the confirmed states are the ledger of the chain being followed. */
module EntitySync {
  import opened Wrappers
  import opened Chain
  import opened EntityRepo
  import opened EntityLedger
  import opened EntityRollback
  import ChainSync

  /** The transactions of a chain, in order. */
  function TxsOf(chain: seq<Block>): seq<Tx> {
    if chain == [] then [] else TxsOf(DropLast(chain)) + Last(chain).transactions
  }

  /** The steps that a log of upgrades makes the entity tracker take. */
  function StepsOf(log: seq<ChainUpgrade>): seq<Step> {
    if log == [] then [] else StepsOf(DropLast(log)) + HandleAll(ProcessUpgrade(Last(log)))
  }

  /** The steps without the predictions and mempool states in between. */
  function Handled(steps: seq<Step>): seq<Step> {
    if steps == [] then []
    else Handled(DropLast(steps)) + if Last(steps).Handle? then [Last(steps)] else []
  }

  lemma {:induction false} OnlyHandledSurvive(steps: seq<Step>)
    ensures Surviving(steps) == Surviving(Handled(steps))
  {
    if steps != [] {
      OnlyHandledSurvive(DropLast(steps));
      if Last(steps).Handle? {
        var handled := Handled(steps);
        assert handled[..|handled| - 1] == Handled(DropLast(steps)) && handled[|handled| - 1] == Last(steps);
      } else {
        assert Handled(steps) == Handled(DropLast(steps));
      }
    }
  }

  /** The transactions that survive the events of a log are those of the chain it replays to. */
  lemma {:induction false} LogSurvives(log: seq<ChainUpgrade>)
    requires Replay(log).Some?
    ensures Surviving(StepsOf(log)) == Some(TxsOf(Replay(log).value))
  {
    if log != [] {
      var front := DropLast(log);
      LogSurvives(front);
      var chain := Replay(front).value;
      match Last(log) {
        case RollForward(b) =>
          assert DropLast(chain + [b]) == chain && Last(chain + [b]) == b;
          ForwardSurvives(StepsOf(front), TxsOf(chain), b);
        case RollBackward(b) =>
          BackwardSurvives(StepsOf(front), TxsOf(DropLast(chain)), b);
      }
    }
  }

  /**
   Whatever predictions come in between, once the events of a log have been handled each entity has the confirmed
   state that the ledger of the replayed chain gives it.
   */
  lemma ReplayedLedger(log: seq<ChainUpgrade>, repos: seq<Repo>, steps: seq<Step>, rules: Rules, eid: Eid)
    requires Replay(log).Some? && Handled(steps) == StepsOf(log)
    requires WellRuled(rules) && IsRun(repos, steps, rules)
    ensures GetLastConfirmed(repos[|steps|], eid) == Get(LedgerOf(TxsOf(Replay(log).value), rules), eid)
  {
    LogSurvives(log);
    OnlyHandledSurvive(steps);
    RunStaysInStep(repos, steps, rules, |steps|);
    assert steps[..|steps|] == steps;
  }

  /**
   End to end: for all answers of the node, forks included, the entities are those of the ledger of exactly the
   linked chain that the synchroniser has cached.
   */
  lemma SyncedEntities(start: nat, answers: seq<Option<Block>>, tree: iset<Block>, repos: seq<Repo>,
                       steps: seq<Step>, rules: Rules, eid: Eid)
    requires IsBlockTree(tree) && WellRuled(rules)
    requires ChainSync.NodeAnswers(ChainSync.Init(start, ChainSync.Cache(map[], None)), answers, tree)
    requires IsRun(repos, steps, rules)
    requires Handled(steps) == StepsOf(ChainSync.Run(ChainSync.Init(start, ChainSync.Cache(map[], None)), answers).1)
    ensures var (s, log) := ChainSync.Run(ChainSync.Init(start, ChainSync.Cache(map[], None)), answers);
            && Replay(log).Some? && ChainSync.Holds(s.cache, Replay(log).value) && Linked(Replay(log).value, start)
            && GetLastConfirmed(repos[|steps|], eid) == Get(LedgerOf(TxsOf(Replay(log).value), rules), eid)
  {
    ChainSync.SyncSafety(start, answers, tree);
    ReplayedLedger(ChainSync.Run(ChainSync.Init(start, ChainSync.Cache(map[], None)), answers).1,
                   repos, steps, rules, eid);
  }
}
