/** Deposits and redeems: exactly when they are accepted and who gets what; and the change of a distribution. */
module PoolMoves {
  import opened Arith
  import opened Wrappers
  import opened LmPool
  import opened PoolEpochs
  import opened PoolRewards
  import opened PoolRuns
  import opened PoolCoverage

  // ---------------------------------------------------------------- where epochs end

  /** The height at which epoch `k` ends, counted from 1; epoch 0 is the time before the program. */
  ghost function EpochEnd(conf: ProgramConfig, k: nat): nat {
    MulNonNeg(k, conf.epochLen);
    conf.programStart + k * conf.epochLen
  }

  /** A height belongs to epoch `k` or an earlier one exactly when it lies below the end of epoch `k`. */
  lemma CurrentEpochIff(conf: ProgramConfig, height: u32, k: nat)
    requires conf.epochLen > 0 && conf.programStart > 0
    ensures CurrentEpochIx(conf, height).Some?
    ensures CurrentEpochIx(conf, height).value <= k <==> height < EpochEnd(conf, k)
  {
    var block, len: nat := height - conf.programStart + 1, conf.epochLen;
    MulNonNeg(k, len);
    if block >= 0 {
      var q, rem := block / len, block % len;
      DivMod(block, len);
      DivLeq(block, len);
      if rem > 0 { MulMono(2, len, q); }
      SmallQuotient(q, U32_LIMIT);
      if q < k { MulMono(q + 1, k, len); MulDistributes(q, 1, len); }
      if q >= k { MulMono(k, q, len); }
      if q > k { MulMono(k + 1, q, len); MulDistributes(k, 1, len); }
    }
  }

  lemma SmallQuotient(q: nat, limit: nat)
    requires q < limit
    ensures q % limit == q
  {
  }

  /** Deposits and the scheduler agree on where an epoch ends: at the height of its tick. */
  lemma EpochEndsAtTick(sc: PoolSchedule, conf: ProgramConfig, height: u32)
    requires conf.epochLen == sc.epochLen > 0 && conf.programStart == sc.programStart > 0
    requires NextCompoundingAt(sc).At?
    ensures NextCompoundingAt(sc).value == EpochEnd(conf, sc.lastCompletedEpochIx + 1)
    ensures CurrentEpochIx(conf, height).Some?
    ensures CurrentEpochIx(conf, height).value <= sc.lastCompletedEpochIx + 1 <==> height < NextCompoundingAt(sc).value
  {
    MulDistributes(sc.lastCompletedEpochIx, 1, sc.epochLen);
    CurrentEpochIff(conf, height, sc.lastCompletedEpochIx + 1);
  }

  /** A successful deposit keeps every bundle covered exactly when it comes before the end of the epoch being paid. */
  lemma DepositCoveredIffBeforeEnd(w: World, order: DepositOrder, height: u32)
    requires Safe(w) && order.lq > 0 && w.pool.conf.epochLen > 0 && w.pool.conf.programStart > 0
    requires ApplyDeposit(w.pool, order, height).Ok?
    ensures EpochToPay(w.pool).Some?
    ensures Covered(w.bundles + [ApplyDeposit(w.pool, order, height).value.bundle], EpochsRemain(w.pool)) <==>
            height < EpochEnd(w.pool.conf, EpochToPay(w.pool).value)
  {
    EpochOfBudget(w.pool);
    DepositCoveredIffTimely(w, order, height);
    CurrentEpochIff(w.pool.conf, height, EpochToPay(w.pool).value);
  }

  // ---------------------------------------------------------------- deposits

  /** At this height exactly `k` epochs are still to end. */
  ghost predicate EpochsToEnd(conf: ProgramConfig, height: u32, k: nat) {
    && k <= conf.epochNum
    && height < EpochEnd(conf, conf.epochNum - k)
    && (k < conf.epochNum ==> EpochEnd(conf, conf.epochNum - k - 1) <= height)
  }

  lemma RemainIsToEnd(conf: ProgramConfig, height: u32, k: nat)
    requires conf.epochLen > 0 && conf.programStart > 0 && k > 0
    ensures CurrentEpochIx(conf, height).Some?
    ensures EpochsRemainAfter(conf, CurrentEpochIx(conf, height).value) == k <==> EpochsToEnd(conf, height, k)
  {
    if k <= conf.epochNum {
      CurrentEpochIff(conf, height, conf.epochNum - k);
      if k < conf.epochNum { CurrentEpochIff(conf, height, conf.epochNum - k - 1); }
    } else {
      CurrentEpochIff(conf, height, 0);
    }
  }

  /** The pool can take the stake and release the tokens for it. */
  ghost predicate HasReserves(pool: Pool, lq: nat, epochs: nat) {
    lq <= pool.reservesVlq && epochs * lq <= pool.reservesTmp && pool.reservesLq + lq < U64_LIMIT
  }

  /**
   A deposit is accepted exactly when the epoch is completed, the order expects as many epochs as are still to
   end, the pool has the reserves, and the order pays for two boxes, the miner and the executor. The staker's
   bundle then holds one temporal token per unit of stake and epoch, and the executor gets what is left.
   */
  lemma DepositAcceptedIff(pool: Pool, order: DepositOrder, height: u32)
    requires ValidProgram(pool.conf) && pool.conf.epochLen > 0 && pool.conf.programStart > 0
    ensures ApplyDeposit(pool, order, height).Ok? <==>
            && EpochCompleted(pool)
            && order.expectedNumEpochs > 0 && EpochsToEnd(pool.conf, height, order.expectedNumEpochs)
            && HasReserves(pool, order.lq, order.expectedNumEpochs)
            && order.ergValue >= 2 * MIN_SAFE_FAT_BOX_VALUE + DEFAULT_MINER_FEE + MIN_SAFE_BOX_VALUE
    ensures ApplyDeposit(pool, order, height).Ok? ==>
              var d := ApplyDeposit(pool, order, height).value;
              && d.bundle.poolId == pool.poolId && d.bundle.vlq == order.lq
              && TmpOf(d.bundle) == order.expectedNumEpochs * order.lq
              && d.bundle.ergValue == d.userErg == MIN_SAFE_FAT_BOX_VALUE && d.minerErg == DEFAULT_MINER_FEE
              && d.executorErg == order.ergValue - 2 * MIN_SAFE_FAT_BOX_VALUE - DEFAULT_MINER_FEE
  {
    MulNonNeg(order.expectedNumEpochs, order.lq);
    CurrentEpochIff(pool.conf, height, 0);
    if order.expectedNumEpochs > 0 { RemainIsToEnd(pool.conf, height, order.expectedNumEpochs); }
  }

  // ---------------------------------------------------------------- redeems

  lemma {:induction false} VlqWithinTotal(bs: seq<Bundle>, i: nat)
    requires i < |bs|
    ensures bs[i].vlq <= SumVlq(bs)
  {
    if i < |bs| - 1 { VlqWithinTotal(bs[..|bs| - 1], i); }
  }

  /**
   In a conserved state a redeem is accepted exactly when it asks for the stake of the bundle, the epoch is
   completed or the pool is the exempted one, and order and bundle together pay for the user's box, the miner
   and the executor. No arithmetic stands in the way of the tokens. The user gets the stake.
   */
  lemma RedeemAcceptedIff(w: World, order: RedeemOrder, ix: nat)
    requires Conserved(w.pool, w.bundles) && ix < |w.bundles|
    ensures ApplyRedeem(w.pool, order, w.bundles[ix]).Ok? <==>
            && order.expectedLq == w.bundles[ix].vlq
            && (w.bundles[ix].poolId == STUCK_POOL_ID || EpochCompleted(w.pool))
            && 2 * MIN_SAFE_BOX_VALUE + DEFAULT_MINER_FEE <= order.ergValue + w.bundles[ix].ergValue < U64_LIMIT
    ensures ApplyRedeem(w.pool, order, w.bundles[ix]).Ok? ==>
              var r := ApplyRedeem(w.pool, order, w.bundles[ix]).value;
              && r.userLq == w.bundles[ix].vlq && r.userErg == MIN_SAFE_BOX_VALUE && r.minerErg == DEFAULT_MINER_FEE
              && r.executorErg == order.ergValue + w.bundles[ix].ergValue - MIN_SAFE_BOX_VALUE - DEFAULT_MINER_FEE
  {
    VlqWithinTotal(w.bundles, ix);
    TmpWithinTotal(w.bundles, ix);
  }

  // ---------------------------------------------------------------- the change of a distribution

  /**
   The miner of a distribution keeps no more than the fee and change too small for a box, and exactly the fee when
   change is returned or the funding does not cover the cost.
   */
  lemma MinerKeepsDust(pool: Pool, bundles: seq<Bundle>, funding: seq<u64>)
    requires Distribute(pool, bundles, funding).Ok?
    ensures var d, fee := Distribute(pool, bundles, funding).value, DEFAULT_MINER_FEE_FOR_COMPOUND_TX;
            && fee <= d.minerErg < fee + MIN_SAFE_BOX_VALUE
            && (d.nextFunding.Some? ==> d.minerErg == fee)
            && (SumOf(funding) < BatchCost(|d.rewards|) ==> d.minerErg == fee && d.nextFunding.None?)
            && (d.nextFunding.Some? <==> SumOf(funding) >= BatchCost(|d.rewards|) + MIN_SAFE_BOX_VALUE)
  {
  }

  /** Whatever covers the cost and is not kept as dust comes back: the laws of the change leave one pair of amounts. */
  lemma ChangeIsExact(pool: Pool, bundles: seq<Bundle>, funding: seq<u64>)
    requires Distribute(pool, bundles, funding).Ok?
    requires SumOf(funding) >= BatchCost(|bundles|)
    ensures var d, change := Distribute(pool, bundles, funding).value, SumOf(funding) - BatchCost(|bundles|);
            if change >= MIN_SAFE_BOX_VALUE then
              d.nextFunding == Some(change) && d.minerErg == DEFAULT_MINER_FEE_FOR_COMPOUND_TX
            else d.nextFunding == None && d.minerErg == DEFAULT_MINER_FEE_FOR_COMPOUND_TX + change
  {
    OneRewardEach(pool, EpochsRemainAfter(pool.conf, EpochToPay(pool).value), bundles);
    MinerKeepsDust(pool, bundles, funding);
    FundingBalances(pool, bundles, funding);
  }

  /** A distribution records the epoch it paid, and leaves the pool's stakes and its own nanoERG alone. */
  lemma EpochIsRecorded(pool: Pool, bundles: seq<Bundle>, funding: seq<u64>)
    requires Distribute(pool, bundles, funding).Ok?
    ensures EpochToPay(pool).Some?
    ensures var d := Distribute(pool, bundles, funding).value;
            && d.pool.epochIx == EpochToPay(pool) && d.pool.conf == pool.conf && d.pool.ergValue == pool.ergValue
            && d.pool.reservesLq == pool.reservesLq && d.pool.reservesVlq == pool.reservesVlq
  {
    PaidPoolKeeps(pool, EpochsRemainAfter(pool.conf, EpochToPay(pool).value), bundles);
  }

  lemma {:induction false} PaidPoolKeeps(pool: Pool, r: u32, bundles: seq<Bundle>)
    requires pool.conf.epochNum > 0 && PayAll(pool, r, bundles).Ok?
    ensures var paid := PayAll(pool, r, bundles).value.pool;
            paid == pool.(budgetRem := paid.budgetRem, reservesTmp := paid.reservesTmp)
  {
    if bundles != [] { PaidPoolKeeps(pool, r, bundles[..|bundles| - 1]); }
  }

  lemma {:induction false} OneRewardEach(pool: Pool, r: u32, bundles: seq<Bundle>)
    requires pool.conf.epochNum > 0 && PayAll(pool, r, bundles).Ok?
    ensures |PayAll(pool, r, bundles).value.rewards| == |bundles|
  {
    if bundles != [] { OneRewardEach(pool, r, bundles[..|bundles| - 1]); }
  }
}
