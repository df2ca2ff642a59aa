/** Whole runs of a pool: conservation, solvency in every reachable state, and nanoERG balance. */
module PoolRuns {
  import opened Arith
  import opened Wrappers
  import opened LmPool
  import opened PoolEpochs
  import opened PoolRewards

  /** A pool with its outstanding bundles; a bundle is identified by its position. */
  datatype World = World(pool: Pool, bundles: seq<Bundle>)

  datatype Step =
    | Deposit(deposit: DepositOrder, height: u32)
    | Redeem(redeem: RedeemOrder, ix: nat)
    | Compound(ids: seq<nat>, funding: seq<u64>)

  /** Token amounts on the ledger are positive, and a step names bundles that exist. */
  ghost predicate WellFormed(w: World, step: Step) {
    match step
    case Deposit(order, _) => order.lq > 0
    case Redeem(_, ix) => ix < |w.bundles|
    case Compound(ids, funding) => ValidBatch(w.bundles, ids) && funding != []
  }

  ghost function Apply(w: World, step: Step): Outcome<World>
    requires WellFormed(w, step)
  {
    match step
    case Deposit(order, height) => (
      match ApplyDeposit(w.pool, order, height)
      case Trapped => Trapped
      case Err(e) => Err(e)
      case Ok(d) => Ok(World(d.pool, w.bundles + [d.bundle])))
    case Redeem(order, ix) => (
      match ApplyRedeem(w.pool, order, w.bundles[ix])
      case Trapped => Trapped
      case Err(e) => Err(e)
      case Ok(r) => Ok(World(r.pool, w.bundles[..ix] + w.bundles[ix + 1..])))
    case Compound(ids, funding) => (
      match Distribute(w.pool, BatchOf(w.bundles, ids), funding)
      case Trapped => Trapped
      case Err(e) => Err(e)
      case Ok(d) =>
        if |d.bundles| == |ids| then Ok(World(d.pool, WriteBack(w.bundles, ids, d.bundles))) else Trapped)
  }

  ghost predicate IsRun(ws: seq<World>, steps: seq<Step>) {
    && |ws| == |steps| + 1
    && forall i {:trigger steps[i]} :: 0 <= i < |steps| ==>
         WellFormed(ws[i], steps[i]) && Apply(ws[i], steps[i]) == Ok(ws[i + 1])
  }

  /** The pool and the first bundle as the deployment tool creates them. */
  function Deployed(poolId: PoolId, conf: ProgramConfig, lq: u64, epochsToDelegate: u64): Option<World> {
    MulNonNeg(lq, epochsToDelegate);
    var tmp: nat := lq * epochsToDelegate;
    if lq > MAX_VALUE || tmp > MAX_VALUE then None
    else
      Some(World(
             Pool(poolId, conf.programBudget, lq, MAX_VALUE - lq, MAX_VALUE - tmp, None, conf, MIN_SAFE_FAT_BOX_VALUE),
             [Bundle(poolId, lq, Some(tmp), MIN_SAFE_FAT_BOX_VALUE)]))
  }

  ghost predicate Safe(w: World) {
    Conserved(w.pool, w.bundles) && Covered(w.bundles, EpochsRemain(w.pool))
  }

  // ---------------------------------------------------------------- sums

  lemma {:induction false} SumsOfConcat(a: seq<Bundle>, b: seq<Bundle>)
    ensures SumVlq(a + b) == SumVlq(a) + SumVlq(b)
    ensures SumTmp(a + b) == SumTmp(a) + SumTmp(b)
  {
    if b == [] {
      assert a + b == a;
    } else {
      assert (a + b)[..|a + b| - 1] == a + b[..|b| - 1];
      SumsOfConcat(a, b[..|b| - 1]);
    }
  }

  lemma SumsOfOne(b: Bundle)
    ensures SumVlq([b]) == b.vlq && SumTmp([b]) == TmpOf(b)
  {
  }

  lemma {:induction false} SumsWithout(bs: seq<Bundle>, i: nat)
    requires i < |bs|
    ensures SumVlq(bs[..i] + bs[i + 1..]) == SumVlq(bs) - bs[i].vlq
    ensures SumTmp(bs[..i] + bs[i + 1..]) == SumTmp(bs) - TmpOf(bs[i])
  {
    var last := |bs| - 1;
    var rest := bs[..i] + bs[i + 1..];
    if i == last {
      assert rest == bs[..last];
    } else {
      assert rest[..last - 1] == bs[..last][..i] + bs[..last][i + 1..];
      assert rest[last - 1] == bs[last];
      SumsWithout(bs[..last], i);
    }
  }

  // ---------------------------------------------------------------- conservation, step by step

  /** A batch that succeeds moves temporal tokens and budget, and nothing else. */
  ghost predicate BatchMoves(pool: Pool, bs: seq<Bundle>, pool': Pool, bs': seq<Bundle>) {
    && 0 < pool'.budgetRem <= pool.budgetRem
    && pool' == pool.(budgetRem := pool'.budgetRem, reservesTmp := pool'.reservesTmp)
    && SumVlq(bs') == SumVlq(bs)
    && pool'.reservesTmp + SumTmp(bs') == pool.reservesTmp + SumTmp(bs)
    && AllBacked(bs')
  }

  lemma PaymentMoves(pool: Pool, r: u32, next: Pool, b: Bundle)
    requires pool.conf.epochNum > 0 && Backed(b)
    requires PayBundle(pool, r, next, b).Ok?
    ensures var p := PayBundle(pool, r, next, b).value;
            && 0 < p.pool.budgetRem <= next.budgetRem
            && p.pool == next.(budgetRem := p.pool.budgetRem, reservesTmp := p.pool.reservesTmp)
            && p.bundle.vlq == b.vlq && Backed(p.bundle)
            && p.pool.reservesTmp + TmpOf(p.bundle) == next.reservesTmp + TmpOf(b)
  {
    BurnedMeansEnoughTmp(b, r);
    MultipleIsBacked(r, b.vlq);
  }

  lemma {:induction false} BatchConserves(pool: Pool, r: u32, bs: seq<Bundle>, ids: seq<nat>)
    requires pool.conf.epochNum > 0 && pool.budgetRem > 0 && ValidBatch(bs, ids)
    requires AllBacked(bs)
    requires PayAll(pool, r, BatchOf(bs, ids)).Ok?
    ensures var batch := PayAll(pool, r, BatchOf(bs, ids)).value;
            && |batch.bundles| == |batch.rewards| == |ids|
            && BatchMoves(pool, bs, batch.pool, WriteBack(bs, ids, batch.bundles))
  {
    if ids != [] {
      var n := |ids| - 1;
      assert BatchOf(bs, ids)[..n] == BatchOf(bs, ids[..n]);
      BatchConserves(pool, r, bs, ids[..n]);
      var front := PayAll(pool, r, BatchOf(bs, ids[..n])).value;
      var p := PayBundle(pool, r, front.pool, bs[ids[n]]).value;
      var batch := PayAll(pool, r, BatchOf(bs, ids)).value;
      assert batch.bundles[..n] == front.bundles;
      PaymentMoves(pool, r, front.pool, bs[ids[n]]);
      WriteBackElsewhere(bs, ids[..n], front.bundles, ids[n]);
      SumsAfterUpdate(WriteBack(bs, ids[..n], front.bundles), ids[n], p.bundle);
    }
  }

  lemma DepositConserves(w: World, order: DepositOrder, height: u32)
    requires Conserved(w.pool, w.bundles) && order.lq > 0
    requires ApplyDeposit(w.pool, order, height).Ok?
    ensures var d := ApplyDeposit(w.pool, order, height).value;
            && Conserved(d.pool, w.bundles + [d.bundle])
            && d.pool.conf == w.pool.conf && d.pool.budgetRem == w.pool.budgetRem
            && order.ergValue == d.bundle.ergValue + d.userErg + d.executorErg + d.minerErg
  {
    var d := ApplyDeposit(w.pool, order, height).value;
    var epochs := EpochsRemainAfter(w.pool.conf, CurrentEpochIx(w.pool.conf, height).value);
    MultipleIsBacked(epochs, order.lq);
    SumsOfConcat(w.bundles, [d.bundle]);
    SumsOfOne(d.bundle);
  }

  lemma RedeemConserves(w: World, order: RedeemOrder, ix: nat)
    requires Conserved(w.pool, w.bundles) && ix < |w.bundles|
    requires ApplyRedeem(w.pool, order, w.bundles[ix]).Ok?
    ensures var r := ApplyRedeem(w.pool, order, w.bundles[ix]).value;
            && Conserved(r.pool, w.bundles[..ix] + w.bundles[ix + 1..])
            && r.pool.conf == w.pool.conf && r.pool.budgetRem == w.pool.budgetRem
            && r.userLq == w.bundles[ix].vlq
            && order.ergValue + w.bundles[ix].ergValue == r.userErg + r.executorErg + r.minerErg
  {
    SumsWithout(w.bundles, ix);
  }

  /** nanoERG of a batch balance exactly when the funding covers the batch. */
  lemma FundingBalances(pool: Pool, bundles: seq<Bundle>, funding: seq<u64>)
    requires Distribute(pool, bundles, funding).Ok?
    ensures var d := Distribute(pool, bundles, funding).value;
            var change := if d.nextFunding.Some? then d.nextFunding.value else 0;
            && (SumOf(funding) == |d.rewards| * MIN_SAFE_BOX_VALUE + change + d.minerErg
                <==> BatchCost(|d.rewards|) <= SumOf(funding))
            && (d.nextFunding.Some? ==> d.nextFunding.value >= MIN_SAFE_BOX_VALUE)
  {
  }

  lemma StepConserves(w: World, step: Step)
    requires Conserved(w.pool, w.bundles) && WellFormed(w, step) && Apply(w, step).Ok?
    ensures var w' := Apply(w, step).value;
            && Conserved(w'.pool, w'.bundles)
            && w'.pool.conf == w.pool.conf && w'.pool.budgetRem <= w.pool.budgetRem
  {
    match step
    case Deposit(order, height) => DepositConserves(w, order, height);
    case Redeem(order, ix) => RedeemConserves(w, order, ix);
    case Compound(ids, funding) =>
      BatchConserves(w.pool, EpochsRemainAfter(w.pool.conf, EpochToPay(w.pool).value), w.bundles, ids);
  }

  lemma DeployedConserves(poolId: PoolId, conf: ProgramConfig, lq: u64, epochsToDelegate: u64)
    requires ValidProgram(conf) && lq > 0
    requires Deployed(poolId, conf, lq, epochsToDelegate).Some?
    ensures var w := Deployed(poolId, conf, lq, epochsToDelegate).value; Conserved(w.pool, w.bundles)
  {
    var w := Deployed(poolId, conf, lq, epochsToDelegate).value;
    ProgramBounds(conf);
    MulPositive(conf.epochNum, EpochAlloc(conf));
    SumsOfOne(w.bundles[0]);
    assert lq * epochsToDelegate == epochsToDelegate * lq;
    MultipleIsBacked(epochsToDelegate, lq);
  }

  /** Tokens are conserved along every run of successful steps from a deployed pool. */
  lemma {:induction false} ConservationOverRuns(
    poolId: PoolId, conf: ProgramConfig, lq: u64, epochsToDelegate: u64, ws: seq<World>, steps: seq<Step>, i: nat)
    requires ValidProgram(conf) && lq > 0
    requires IsRun(ws, steps) && Deployed(poolId, conf, lq, epochsToDelegate) == Some(ws[0])
    requires i < |ws|
    ensures Conserved(ws[i].pool, ws[i].bundles) && ws[i].pool.conf == conf
  {
    if i == 0 {
      DeployedConserves(poolId, conf, lq, epochsToDelegate);
    } else {
      ConservationOverRuns(poolId, conf, lq, epochsToDelegate, ws, steps, i - 1);
      StepConserves(ws[i - 1], steps[i - 1]);
    }
  }

  // ---------------------------------------------------------------- coverage and solvency

  /** A deposit is timely when its height is not past the epoch being paid. */
  ghost predicate Timely(w: World, step: Step) {
    step.Deposit? && CurrentEpochIx(w.pool.conf, step.height).Some? && EpochToPay(w.pool).Some? ==>
      CurrentEpochIx(w.pool.conf, step.height).value <= EpochToPay(w.pool).value
  }

  /** A successful deposit keeps every bundle covered exactly when it is timely. */
  lemma DepositCoveredIffTimely(w: World, order: DepositOrder, height: u32)
    requires Safe(w) && order.lq > 0
    requires ApplyDeposit(w.pool, order, height).Ok?
    ensures var d := ApplyDeposit(w.pool, order, height).value;
            Covered(w.bundles + [d.bundle], EpochsRemain(w.pool)) <==> Timely(w, Deposit(order, height))
  {
    var d := ApplyDeposit(w.pool, order, height).value;
    EpochOfBudget(w.pool);
    var r, current := EpochsRemain(w.pool), CurrentEpochIx(w.pool.conf, height).value;
    var epochs := EpochsRemainAfter(w.pool.conf, current);
    assert current <= EpochToPay(w.pool).value <==> r <= epochs;
    BundleCoveredIff(d.bundle, epochs, r);
    var bs := w.bundles + [d.bundle];
    assert bs[|w.bundles|] == d.bundle;
    assert forall i :: 0 <= i < |w.bundles| ==> bs[i] == w.bundles[i];
  }

  lemma BundleCoveredIff(b: Bundle, epochs: nat, r: nat)
    requires b.vlq > 0 && TmpOf(b) == epochs * b.vlq
    ensures Burnable(b, r) >= 0 <==> r <= epochs
  {
    if r <= epochs {
      MulMono(r, epochs, b.vlq);
    } else {
      MulMono(epochs + 1, r, b.vlq);
      assert (epochs + 1) * b.vlq == epochs * b.vlq + b.vlq;
    }
  }

  lemma CoveredFewer(bs: seq<Bundle>, r: nat, r': nat)
    requires Covered(bs, r) && r' <= r
    ensures Covered(bs, r')
  {
    forall i | 0 <= i < |bs| ensures Burnable(bs[i], r') >= 0 {
      assert Burnable(bs[i], r) >= 0;
      MulMono(r', r, bs[i].vlq);
    }
  }

  ghost predicate Uncompounded(bs: seq<Bundle>, ids: seq<nat>, r: nat)
    requires ValidBatch(bs, ids)
  {
    forall j :: 0 <= j < |ids| ==> Burnable(bs[ids[j]], r) > 0
  }

  /** A batch that succeeds consists of bundles that were not compounded yet. */
  lemma {:induction false} PaidMeansUncompounded(pool: Pool, r: u32, bs: seq<Bundle>, ids: seq<nat>)
    requires pool.conf.epochNum > 0 && ValidBatch(bs, ids)
    requires AllBacked(bs)
    requires PayAll(pool, r, BatchOf(bs, ids)).Ok?
    ensures Uncompounded(bs, ids, r)
  {
    if ids != [] {
      var n := |ids| - 1;
      assert BatchOf(bs, ids)[..n] == BatchOf(bs, ids[..n]);
      PaidMeansUncompounded(pool, r, bs, ids[..n]);
      WeightIsBurnable(bs[ids[n]], r);
      assert forall j :: 0 <= j < n ==> ids[j] == ids[..n][j];
    }
  }

  /** Rewards of a batch stay within the allocation and later epochs stay funded. */
  lemma BatchKeepsSafe(w: World, ids: seq<nat>)
    requires Safe(w) && ValidBatch(w.bundles, ids) && Uncompounded(w.bundles, ids, EpochsRemain(w.pool))
    ensures var r := EpochsRemain(w.pool);
            var paid := PayAll(w.pool, r, BatchOf(w.bundles, ids));
            && paid.Ok? && |paid.value.bundles| == |ids|
            && SumOf(paid.value.rewards) <= AllocRem(w.pool, r)
            && paid.value.pool.budgetRem == w.pool.budgetRem - SumOf(paid.value.rewards)
            && paid.value.pool.budgetRem > LaterAlloc(w.pool.conf, r)
            && Safe(World(paid.value.pool, WriteBack(w.bundles, ids, paid.value.bundles)))
  {
    var r := EpochsRemain(w.pool);
    BatchIsSolvent(w.pool, w.bundles, ids, r);
    var batch := PayAll(w.pool, r, BatchOf(w.bundles, ids)).value;
    var bs' := WriteBack(w.bundles, ids, batch.bundles);
    BatchConserves(w.pool, r, w.bundles, ids);
    BudgetAboveLater(w.pool);
    SpentIsAffordable(w.pool, w.bundles, bs', r, |ids|, SumOf(batch.rewards), batch.pool);
    if ids == [] { assert batch.rewards == []; }
    EpochsRemainMonotone(w.pool, batch.pool);
    CoveredFewer(bs', r, EpochsRemain(batch.pool));
  }

  lemma SpentIsAffordable(pool: Pool, bs: seq<Bundle>, bs': seq<Bundle>, r: u32, n: nat, spent: nat, pool': Pool)
    requires pool.conf.epochNum > 0 && PaidTotals(pool, bs, bs', r, n, spent, pool') && Covered(bs', r)
    ensures SumBurnable(bs, r) > 0 ==> spent <= AllocRem(pool, r)
  {
    BurnableIsNonNegative(bs', r);
    if SumBurnable(bs, r) > 0 {
      SpentWithinAlloc(spent, SumBurnable(bs, r), AllocRem(pool, r), SumBurnable(bs, r) - SumBurnable(bs', r));
    }
  }

  /** The first bundle of the batch that was already compounded. */
  lemma FirstCompounded(bs: seq<Bundle>, ids: seq<nat>, r: nat) returns (j: nat)
    requires ValidBatch(bs, ids) && !Uncompounded(bs, ids, r)
    ensures j < |ids| && Burnable(bs[ids[j]], r) <= 0
    ensures Uncompounded(bs, ids[..j], r)
  {
    j := 0;
    while Burnable(bs[ids[j]], r) > 0
      invariant 0 <= j < |ids|
      invariant forall k :: 0 <= k < j ==> Burnable(bs[ids[k]], r) > 0
      invariant exists k :: j <= k < |ids| && Burnable(bs[ids[k]], r) <= 0
      decreases |ids| - j
    {
      j := j + 1;
    }
  }

  /** A batch with a bundle that was already compounded is refused as such, and for no other reason. */
  lemma CompoundedIsRefused(w: World, ids: seq<nat>)
    requires Safe(w) && ValidBatch(w.bundles, ids) && !Uncompounded(w.bundles, ids, EpochsRemain(w.pool))
    ensures PayAll(w.pool, EpochsRemain(w.pool), BatchOf(w.bundles, ids)) == Err(AlreadyCompounded)
  {
    var r, bs := EpochsRemain(w.pool), w.bundles;
    var j := FirstCompounded(bs, ids, r);
    var front, upTo := BatchOf(bs, ids)[..j], BatchOf(bs, ids)[..j + 1];
    assert front == BatchOf(bs, ids[..j]) && upTo[..j] == front && upTo[j] == bs[ids[j]];
    BatchIsSolvent(w.pool, bs, ids[..j], r);
    WeightIsBurnable(bs[ids[j]], r);
    PayAllStops(w.pool, r, BatchOf(bs, ids), j + 1);
  }

  /**
   In a safe state a distribution fails only because a bundle was already compounded: no arithmetic
   traps on the token side and the budget is never depleted.
   */
  lemma DistributionOutcome(w: World, ids: seq<nat>, funding: seq<u64>)
    requires Safe(w) && WellFormed(w, Compound(ids, funding))
    requires BatchCost(|ids|) < U64_LIMIT && SumOf(funding) < U64_LIMIT
    ensures Distribute(w.pool, BatchOf(w.bundles, ids), funding).Ok?
            <==> Uncompounded(w.bundles, ids, EpochsRemain(w.pool))
    ensures !Distribute(w.pool, BatchOf(w.bundles, ids), funding).Ok? ==>
              Distribute(w.pool, BatchOf(w.bundles, ids), funding) == Err(AlreadyCompounded)
  {
    EpochOfBudget(w.pool);
    if Uncompounded(w.bundles, ids, EpochsRemain(w.pool)) {
      BatchIsSolvent(w.pool, w.bundles, ids, EpochsRemain(w.pool));
    } else {
      CompoundedIsRefused(w, ids);
    }
  }

  lemma StepKeepsSafe(w: World, step: Step)
    requires Safe(w) && WellFormed(w, step) && Timely(w, step) && Apply(w, step).Ok?
    ensures Safe(Apply(w, step).value)
  {
    StepConserves(w, step);
    var w', r := Apply(w, step).value, EpochsRemain(w.pool);
    EpochOfBudget(w.pool);
    match step
    case Deposit(order, height) =>
      DepositCoveredIffTimely(w, order, height);
      DepositConserves(w, order, height);
      EpochsRemainMonotone(w.pool, w'.pool);
      CoveredFewer(w'.bundles, r, EpochsRemain(w'.pool));
    case Redeem(order, ix) =>
      EpochsRemainMonotone(w.pool, w'.pool);
      assert Covered(w'.bundles, r);
      CoveredFewer(w'.bundles, r, EpochsRemain(w'.pool));
    case Compound(ids, funding) =>
      PaidMeansUncompounded(w.pool, r, w.bundles, ids);
      BatchKeepsSafe(w, ids);
      EpochsRemainMonotone(w.pool, w'.pool);
      var batch := PayAll(w.pool, r, BatchOf(w.bundles, ids)).value;
      EpochsRemainMonotone(batch.pool, w'.pool);
      CoveredFewer(w'.bundles, EpochsRemain(batch.pool), EpochsRemain(w'.pool));
  }

  /** A deployed pool is safe exactly when the first bundle is delegated for enough epochs. */
  lemma DeployedSafeIff(poolId: PoolId, conf: ProgramConfig, lq: u64, epochsToDelegate: u64)
    requires ValidProgram(conf) && lq > 0
    requires Deployed(poolId, conf, lq, epochsToDelegate).Some?
    ensures Safe(Deployed(poolId, conf, lq, epochsToDelegate).value) <==> conf.epochNum <= epochsToDelegate + 1
  {
    var w := Deployed(poolId, conf, lq, epochsToDelegate).value;
    DeployedConserves(poolId, conf, lq, epochsToDelegate);
    FullBudget(w.pool);
    assert lq * epochsToDelegate == epochsToDelegate * lq;
    BundleCoveredIff(w.bundles[0], epochsToDelegate, EpochsRemain(w.pool));
  }

  /** A full budget pays the first epoch. */
  lemma FullBudget(pool: Pool)
    requires ValidProgram(pool.conf) && pool.budgetRem == pool.conf.programBudget
    ensures EpochToPay(pool) == Some(1) && EpochsRemain(pool) == pool.conf.epochNum - 1
  {
    EpochOfBudget(pool);
    ProgramBounds(pool.conf);
    var n: nat, alloc: nat := pool.conf.epochNum, EpochAlloc(pool.conf);
    MulDistributes(n, 1, alloc);
    if Left(pool) < n {
      MulMono(Left(pool), n - 1, alloc);
      assert false;
    }
  }

  /** Every state of a run with timely deposits is safe, so `DistributionOutcome` applies to it. */
  lemma {:induction false} SolvencyOverRuns(ws: seq<World>, steps: seq<Step>, i: nat)
    requires IsRun(ws, steps) && Safe(ws[0])
    requires forall k :: 0 <= k < |steps| ==> Timely(ws[k], steps[k])
    requires i < |ws|
    ensures Safe(ws[i])
  {
    if i > 0 {
      SolvencyOverRuns(ws, steps, i - 1);
      var w, step := ws[i - 1], steps[i - 1];
      assert WellFormed(w, step) && Timely(w, step) && Apply(w, step) == Ok(ws[i]);
      StepKeepsSafe(w, step);
    }
  }

  /**
   Solvency from deployment: every state of a run with timely deposits that starts from an accepted program,
   whose first bundle is delegated for all epochs but at most one, is safe.
   */
  lemma SafeFromDeployment(
    poolId: PoolId, conf: ProgramConfig, lq: u64, epochsToDelegate: u64, height: u32, ws: seq<World>,
    steps: seq<Step>, i: nat)
    requires ValidatePool(conf, lq, height) == Accepted && conf.epochNum <= epochsToDelegate + 1
    requires IsRun(ws, steps) && Deployed(poolId, conf, lq, epochsToDelegate) == Some(ws[0]) && i < |ws|
    requires forall k :: 0 <= k < |steps| ==> Timely(ws[k], steps[k])
    ensures Safe(ws[i])
  {
    AcceptedMeansValidProgram(conf, lq, height);
    DeployedSafeIff(poolId, conf, lq, epochsToDelegate);
    SolvencyOverRuns(ws, steps, i);
  }
}
