/** The bundle index against the distribution loop: which epoch a bundle is selected for. */
module PoolSelection {
  import opened Arith
  import opened Wrappers
  import opened LmPool
  import opened PoolEpochs
  import opened PoolRewards
  import opened PoolRuns

  /**
   The index of a bundle says what the loop does with it: at the epoch being paid it burns exactly one epoch,
   above it the bundle is refused and otherwise it is not, and once paid the index is the next epoch.
   */
  ghost predicate SelectedAsPaid(pool: Pool, next: Pool, b: Bundle) {
    && pool.conf.epochNum > 0 && b.vlq > 0 && EpochToPay(pool).Some? && LowerEpochIx(b, pool.conf).Some?
    && var e, ix := EpochToPay(pool).value, LowerEpochIx(b, pool.conf).value;
    var r := EpochsRemainAfter(pool.conf, e);
    var paid := PayBundle(pool, r, next, b);
    && (ix == e ==> EpochsBurned(b, r) == 1)
    && (ix > e <==> paid == Err(AlreadyCompounded))
    && (paid.Ok? ==> LowerEpochIx(paid.value.bundle, pool.conf) == Some(e + 1))
  }

  /** A bundle that is delegated for no more epochs than the program has is selected as it is paid. */
  lemma SelectionAgreement(pool: Pool, next: Pool, b: Bundle)
    requires ValidProgram(pool.conf)
    requires pool.conf.maxRoundingError < pool.budgetRem <= pool.conf.programBudget
    requires Backed(b) && TmpOf(b) <= pool.conf.epochNum * b.vlq
    ensures SelectedAsPaid(pool, next, b)
  {
    EpochOfBudget(pool);
    var k := TmpOf(b) / b.vlq;
    DivMod(TmpOf(b), b.vlq);
    DivNonNeg(TmpOf(b), b.vlq);
    MulCancel(k, pool.conf.epochNum, b.vlq);
    SmallMod(k, U32_LIMIT);
    var r: nat := EpochsRemain(pool);
    SmallMod(r, U32_LIMIT);
    MulNonNeg(r, b.vlq);
    DivUnique(r * b.vlq, b.vlq, r, 0);
    PaidBundleKeeps(pool, EpochsRemain(pool), next, b);
  }

  /** The epochs that a bundle holds temporal tokens for. */
  ghost function EpochsHeld(b: Bundle): nat
    requires b.vlq > 0
  {
    DivNonNeg(TmpOf(b), b.vlq);
    TmpOf(b) / b.vlq
  }

  /**
   Index and loop agree on a bundle exactly when the epochs it holds tokens for, cast to 32 bits, are no more than
   the program has, and the cast loses nothing or leaves the bundle indexed below the epoch being paid.
   */
  lemma SelectionIff(pool: Pool, next: Pool, b: Bundle)
    requires ValidProgram(pool.conf)
    requires pool.conf.maxRoundingError < pool.budgetRem <= pool.conf.programBudget && Backed(b)
    ensures var held, cast := EpochsHeld(b), EpochsHeld(b) % U32_LIMIT;
            && (SelectedAsPaid(pool, next, b) <==>
                  cast <= pool.conf.epochNum && (cast == held || cast > EpochsRemain(pool) + 1))
            && (held < U32_LIMIT ==> (SelectedAsPaid(pool, next, b) <==> TmpOf(b) <= pool.conf.epochNum * b.vlq))
  {
    var k, n: nat := EpochsHeld(b), pool.conf.epochNum;
    DivMod(TmpOf(b), b.vlq);
    if k < U32_LIMIT {
      SmallMod(k, U32_LIMIT);
      if k <= n {
        MulMono(k, n, b.vlq);
        SelectionAgreement(pool, next, b);
      } else {
        MulMono(n + 1, k, b.vlq);
        MulDistributes(n, 1, b.vlq);
      }
    } else {
      WrappedSelection(pool, next, b);
    }
  }

  /** A delegation of 2^32 epochs and more: the loop burns far more than one epoch, whatever the index says. */
  lemma WrappedSelection(pool: Pool, next: Pool, b: Bundle)
    requires ValidProgram(pool.conf) && Backed(b) && EpochsHeld(b) >= U32_LIMIT
    requires pool.conf.maxRoundingError < pool.budgetRem <= pool.conf.programBudget
    ensures var cast := EpochsHeld(b) % U32_LIMIT;
            SelectedAsPaid(pool, next, b) <==> cast <= pool.conf.epochNum && cast > EpochsRemain(pool) + 1
  {
    EpochOfBudget(pool);
    ProgramBounds(pool.conf);
    var r: nat := EpochsRemain(pool);
    assert EpochsBurned(b, EpochsRemain(pool)) == EpochsHeld(b) - r > 1;
    SmallMod(r, U32_LIMIT);
    MulNonNeg(r, b.vlq);
    DivUnique(r * b.vlq, b.vlq, r, 0);
    PaidBundleKeeps(pool, EpochsRemain(pool), next, b);
  }

  lemma PaidBundleKeeps(pool: Pool, r: u32, next: Pool, b: Bundle)
    requires pool.conf.epochNum > 0 && b.vlq > 0
    ensures PayBundle(pool, r, next, b) == Err(AlreadyCompounded) <==> EpochsBurned(b, r) == 0
    ensures PayBundle(pool, r, next, b).Ok? ==>
              && PayBundle(pool, r, next, b).value.bundle.vlq == b.vlq
              && TmpOf(PayBundle(pool, r, next, b).value.bundle) == r * b.vlq
  {
  }

  // ---------------------------------------------------------------- over runs

  /** No bundle holds temporal tokens for more epochs than the program has. */
  ghost predicate Delegated(bs: seq<Bundle>, epochNum: nat) {
    forall i :: 0 <= i < |bs| ==> TmpOf(bs[i]) <= epochNum * bs[i].vlq
  }

  lemma {:induction false} BatchKeepsDelegated(pool: Pool, r: u32, bs: seq<Bundle>, ids: seq<nat>)
    requires pool.conf.epochNum > 0 && r <= pool.conf.epochNum && ValidBatch(bs, ids) && AllBacked(bs)
    requires Delegated(bs, pool.conf.epochNum) && PayAll(pool, r, BatchOf(bs, ids)).Ok?
    ensures var paid := PayAll(pool, r, BatchOf(bs, ids)).value.bundles;
            |paid| == |ids| && Delegated(WriteBack(bs, ids, paid), pool.conf.epochNum)
  {
    if ids != [] {
      var n := |ids| - 1;
      assert BatchOf(bs, ids)[..n] == BatchOf(bs, ids[..n]);
      BatchKeepsDelegated(pool, r, bs, ids[..n]);
      var front := PayAll(pool, r, BatchOf(bs, ids[..n])).value;
      PaidBundleKeeps(pool, r, front.pool, bs[ids[n]]);
      MulMono(r, pool.conf.epochNum, bs[ids[n]].vlq);
      assert PayAll(pool, r, BatchOf(bs, ids)).value.bundles[..n] == front.bundles;
    }
  }

  lemma StepKeepsDelegated(w: World, step: Step)
    requires Conserved(w.pool, w.bundles) && WellFormed(w, step) && Apply(w, step).Ok?
    requires Delegated(w.bundles, w.pool.conf.epochNum)
    ensures Delegated(Apply(w, step).value.bundles, w.pool.conf.epochNum)
  {
    match step
    case Deposit(order, height) =>
      var epochs: nat := EpochsRemainAfter(w.pool.conf, CurrentEpochIx(w.pool.conf, height).value);
      MulMono(epochs, w.pool.conf.epochNum, order.lq);
    case Redeem(order, ix) =>
    case Compound(ids, funding) =>
      BatchKeepsDelegated(w.pool, EpochsRemainAfter(w.pool.conf, EpochToPay(w.pool).value), w.bundles, ids);
  }

  /** From a deployment that delegates no more epochs than the program has, every bundle of every run keeps to that. */
  lemma {:induction false} DelegatedOverRuns(
    poolId: PoolId, conf: ProgramConfig, lq: u64, epochsToDelegate: u64, ws: seq<World>, steps: seq<Step>, i: nat)
    requires ValidProgram(conf) && lq > 0 && epochsToDelegate <= conf.epochNum
    requires IsRun(ws, steps) && Deployed(poolId, conf, lq, epochsToDelegate) == Some(ws[0])
    requires i < |ws|
    ensures Delegated(ws[i].bundles, conf.epochNum)
  {
    if i == 0 {
      MulMono(epochsToDelegate, conf.epochNum, lq);
    } else {
      var w, step := ws[i - 1], steps[i - 1];
      DelegatedOverRuns(poolId, conf, lq, epochsToDelegate, ws, steps, i - 1);
      ConservationOverRuns(poolId, conf, lq, epochsToDelegate, ws, steps, i - 1);
      assert WellFormed(w, step) && Apply(w, step) == Ok(ws[i]);
      StepKeepsDelegated(w, step);
    }
  }

  /**
   The first bundle can be indexed exactly when the epochs it is delegated for, as a 32-bit number, are no
   more than the program has; otherwise the subtraction underflows.
   */
  lemma FirstIndexIff(poolId: PoolId, conf: ProgramConfig, lq: u64, epochsToDelegate: u64)
    requires ValidProgram(conf) && lq > 0 && Deployed(poolId, conf, lq, epochsToDelegate).Some?
    ensures var first := Deployed(poolId, conf, lq, epochsToDelegate).value.bundles[0];
            && (LowerEpochIx(first, conf).Some? <==> epochsToDelegate % U32_LIMIT <= conf.epochNum)
            && (epochsToDelegate < U32_LIMIT ==>
                  (LowerEpochIx(first, conf).Some? <==> epochsToDelegate <= conf.epochNum))
  {
    ProgramBounds(conf);
    MulNonNeg(lq, epochsToDelegate);
    assert lq * epochsToDelegate == epochsToDelegate * lq;
    DivUnique(lq * epochsToDelegate, lq, epochsToDelegate, 0);
  }

  /**
   Selection agreement over runs: in every reachable state before the program is over, a bundle indexed at the
   epoch being paid burns exactly one epoch, one indexed higher is refused and no other is, and once paid the
   index is the next epoch.
   */
  lemma SelectionOverRuns(
    poolId: PoolId, conf: ProgramConfig, lq: u64, epochsToDelegate: u64, ws: seq<World>, steps: seq<Step>, i: nat,
    j: nat, next: Pool)
    requires ValidProgram(conf) && lq > 0 && epochsToDelegate <= conf.epochNum
    requires IsRun(ws, steps) && Deployed(poolId, conf, lq, epochsToDelegate) == Some(ws[0])
    requires i < |ws| && j < |ws[i].bundles| && ws[i].pool.budgetRem > conf.maxRoundingError
    ensures SelectedAsPaid(ws[i].pool, next, ws[i].bundles[j])
  {
    ConservationOverRuns(poolId, conf, lq, epochsToDelegate, ws, steps, i);
    DelegatedOverRuns(poolId, conf, lq, epochsToDelegate, ws, steps, i);
    SelectionAgreement(ws[i].pool, next, ws[i].bundles[j]);
  }
}
