/**
 Which epoch is it? The distribution loop, the scheduler and the bundle index each recover the epoch
 from a different quantity; under the bounds checked at deployment they agree.
 */
module PoolEpochs {
  import opened Arith
  import opened Wrappers
  import opened LmPool

  // ---------------------------------------------------------------- deployment bounds

  datatype Validation =
    | Accepted
    | StartTooEarly
    | RedeemBlocksDeltaTooLong
    | InsufficientLqTokens
    | FailedMaxRoundingErrorBounds
    | ValidationTrapped

  function ValidatePool(conf: ProgramConfig, initialLq: u64, currentHeight: u32): Validation {
    if currentHeight + 100 >= U32_LIMIT then ValidationTrapped
    else if conf.programStart < currentHeight + 100 then StartTooEarly
    else if conf.redeemBlocksDelta < conf.epochLen then RedeemBlocksDeltaTooLong
    else if initialLq < 100 then InsufficientLqTokens
    else if conf.epochNum >= conf.maxRoundingError then FailedMaxRoundingErrorBounds
    else if conf.epochNum == 0 || conf.maxRoundingError * conf.epochNum >= U64_LIMIT then ValidationTrapped
    else if conf.maxRoundingError * conf.epochNum >= EpochAlloc(conf) then FailedMaxRoundingErrorBounds
    else Accepted
  }

  /** The rounding tolerance exceeds the number of epochs and stays well below one epoch's allocation. */
  ghost predicate ValidProgram(conf: ProgramConfig) {
    && 0 < conf.epochNum < conf.maxRoundingError
    && conf.maxRoundingError * conf.epochNum < EpochAlloc(conf)
  }

  lemma AcceptedMeansValidProgram(conf: ProgramConfig, initialLq: u64, currentHeight: u32)
    ensures ValidatePool(conf, initialLq, currentHeight) == Accepted <==>
            && ValidProgram(conf)
            && currentHeight + 100 < U32_LIMIT && currentHeight + 100 <= conf.programStart
            && conf.epochLen <= conf.redeemBlocksDelta
            && 100 <= initialLq
  {
  }

  /** Linear consequences of the bounds. */
  lemma ProgramBounds(conf: ProgramConfig)
    requires ValidProgram(conf)
    ensures conf.epochNum < conf.maxRoundingError < EpochAlloc(conf)
    ensures conf.epochNum + 1 < U32_LIMIT
    ensures conf.epochNum * EpochAlloc(conf) <= conf.programBudget
    ensures conf.programBudget < conf.epochNum * EpochAlloc(conf) + conf.epochNum
  {
    var n, m, alloc := conf.epochNum, conf.maxRoundingError, EpochAlloc(conf);
    MulPositive(m, n);
    DivMod(conf.programBudget, n);
    assert alloc * n == n * alloc;
    if n >= U32_LIMIT - 1 {
      TooManyEpochs(n, m, alloc);
      assert false;
    }
  }

  /** The bounds cap the number of epochs far below 32 bits. */
  lemma TooManyEpochs(n: nat, m: nat, alloc: nat)
    requires U32_LIMIT - 1 <= n < m && m * n < alloc
    ensures n * alloc >= U64_LIMIT
  {
    MulMono(U32_LIMIT, m, n);
    MulMono(U32_LIMIT - 1, n, alloc);
  }

  // ---------------------------------------------------------------- the epoch behind a budget

  /** Rounding up the tolerated budget brackets it between two multiples of the allocation. */
  lemma CeilBracket(budget: nat, tolerance: nat, alloc: nat)
    requires tolerance < alloc
    ensures var left := CeilDiv(SatSub(budget, tolerance), alloc);
            && left == budget / alloc + (if budget % alloc <= tolerance then 0 else 1)
            && (left == 0 <==> budget <= tolerance)
            && (left > 0 ==> (left - 1) * alloc + tolerance < budget)
            && budget <= left * alloc + tolerance
  {
    var q, s := budget / alloc, budget % alloc;
    DivMod(budget, alloc);
    DivNonNeg(budget, alloc);
    assert (q + 1) * alloc == q * alloc + alloc;
    if q == 0 {
      assert budget == s;
      if s <= tolerance {
        DivUnique(0, alloc, 0, 0);
      } else {
        DivUnique(s - tolerance, alloc, 0, s - tolerance);
      }
    } else {
      assert (q - 1) * alloc == q * alloc - alloc;
      MulPositive(q, alloc);
      if s < tolerance {
        DivUnique(budget - tolerance, alloc, q - 1, s + alloc - tolerance);
      } else {
        DivUnique(budget - tolerance, alloc, q, s - tolerance);
      }
    }
  }

  /** Epochs not yet paid, as an unbounded number. */
  ghost function Left(pool: Pool): nat
    requires ValidProgram(pool.conf)
  {
    ProgramBounds(pool.conf);
    CeilDiv(SatSub(pool.budgetRem, pool.conf.maxRoundingError), EpochAlloc(pool.conf))
  }

  /** Every budget up to the program budget determines its epoch: nothing underflows or saturates. */
  lemma EpochOfBudget(pool: Pool)
    requires ValidProgram(pool.conf) && pool.budgetRem <= pool.conf.programBudget
    ensures Left(pool) <= pool.conf.epochNum
    ensures EpochsLeftToProcess(pool) == Left(pool)
    ensures EpochToPay(pool) == Some(pool.conf.epochNum + 1 - Left(pool))
    ensures EpochCompleted(pool) <==> Left(pool) == FundedEpochs(pool)
    ensures Left(pool) == 0 <==> pool.budgetRem <= pool.conf.maxRoundingError
    ensures Left(pool) > 0 ==>
              (Left(pool) - 1) * EpochAlloc(pool.conf) + pool.conf.maxRoundingError < pool.budgetRem
    ensures pool.budgetRem <= Left(pool) * EpochAlloc(pool.conf) + pool.conf.maxRoundingError
  {
    var n, alloc := pool.conf.epochNum, EpochAlloc(pool.conf);
    ProgramBounds(pool.conf);
    CeilBracket(pool.budgetRem, pool.conf.maxRoundingError, alloc);
    if Left(pool) > n {
      MulMono(n, Left(pool) - 1, alloc);
      assert false;
    }
  }

  /** Epochs remaining after the one that `DistributeRewards` pays. */
  ghost function EpochsRemain(pool: Pool): u32
    requires ValidProgram(pool.conf) && pool.budgetRem <= pool.conf.programBudget
  {
    EpochOfBudget(pool);
    EpochsRemainAfter(pool.conf, EpochToPay(pool).value)
  }

  /** The number of remaining epochs never grows as the budget is spent. */
  lemma EpochsRemainMonotone(pool: Pool, pool': Pool)
    requires ValidProgram(pool.conf) && pool'.conf == pool.conf
    requires pool'.budgetRem <= pool.budgetRem <= pool.conf.programBudget
    ensures Left(pool') <= Left(pool)
    ensures EpochsRemain(pool') <= EpochsRemain(pool)
  {
    EpochOfBudget(pool);
    EpochOfBudget(pool');
    if Left(pool') > Left(pool) {
      MulMono(Left(pool), Left(pool') - 1, EpochAlloc(pool.conf));
      assert false;
    }
  }

  // ---------------------------------------------------------------- schedule

  datatype PoolSchedule = PoolSchedule(
    poolId: PoolId,
    epochLen: u32,
    epochNum: u32,
    programStart: u32,
    lastCompletedEpochIx: u32)

  datatype Tick = Tick(poolId: PoolId, epochIx: u32, height: u32)

  datatype Scheduled<+T> = At(value: T) | Exhausted | ScheduleTrapped

  function ScheduleOf(pool: Pool): Option<PoolSchedule> {
    if pool.conf.epochNum == 0 || pool.conf.epochNum < EpochsLeftToProcess(pool) then None
    else
      Some(PoolSchedule(pool.poolId, pool.conf.epochLen, pool.conf.epochNum, pool.conf.programStart,
                        pool.conf.epochNum - EpochsLeftToProcess(pool)))
  }

  function NextCompoundingAt(sc: PoolSchedule): Scheduled<u32> {
    MulNonNeg(sc.lastCompletedEpochIx, sc.epochLen);
    var next := sc.programStart + sc.lastCompletedEpochIx * sc.epochLen + sc.epochLen;
    var end := sc.programStart + sc.epochLen * sc.epochNum;
    if next >= U32_LIMIT || end >= U32_LIMIT then ScheduleTrapped
    else if next <= end then At(next)
    else Exhausted
  }

  function TickOf(sc: PoolSchedule): Scheduled<Tick> {
    match NextCompoundingAt(sc)
    case ScheduleTrapped => ScheduleTrapped
    case Exhausted => Exhausted
    case At(h) =>
      if sc.lastCompletedEpochIx + 1 < U32_LIMIT then At(Tick(sc.poolId, sc.lastCompletedEpochIx + 1, h))
      else ScheduleTrapped
  }

  lemma TickWhileEpochsLeft(sc: PoolSchedule)
    requires sc.lastCompletedEpochIx <= sc.epochNum
    ensures TickOf(sc).At? ==> TickOf(sc).value.epochIx == sc.lastCompletedEpochIx + 1
    ensures TickOf(sc).At? ==> TickOf(sc).value.poolId == sc.poolId
    ensures TickOf(sc).At? && sc.epochLen > 0 ==> sc.lastCompletedEpochIx < sc.epochNum
    ensures TickOf(sc).Exhausted? ==> sc.lastCompletedEpochIx == sc.epochNum
  {
    var len: nat, last: nat, n: nat := sc.epochLen, sc.lastCompletedEpochIx, sc.epochNum;
    assert (last + 1) * len == last * len + len;
    assert n * len == len * n;
    if last < n {
      MulMono(last + 1, n, len);
    }
  }

  /**
   The scheduler and the distribution loop agree on the epoch, `epochNum - epochsLeft` never
   underflows, and with epochs of positive length a tick exists exactly while the budget exceeds the
   rounding tolerance.
   */
  lemma EpochAgreement(pool: Pool)
    requires ValidProgram(pool.conf) && pool.budgetRem <= pool.conf.programBudget
    ensures ScheduleOf(pool).Some?
    ensures var tick := TickOf(ScheduleOf(pool).value);
            && (tick.At? ==> EpochToPay(pool) == Some(tick.value.epochIx) && tick.value.poolId == pool.poolId)
            && (tick.At? && pool.conf.epochLen > 0 ==> pool.budgetRem > pool.conf.maxRoundingError)
            && (tick.Exhausted? ==> pool.budgetRem <= pool.conf.maxRoundingError)
  {
    EpochOfBudget(pool);
    TickWhileEpochsLeft(ScheduleOf(pool).value);
  }

  // ---------------------------------------------------------------- bundle index

  /** `IndexedBundle::new`: the first epoch a bundle has not been paid for. */
  function LowerEpochIx(bundle: Bundle, conf: ProgramConfig): Option<u32> {
    if bundle.vlq == 0 then None
    else
      var ix := conf.epochNum - TmpOf(bundle) / bundle.vlq % U32_LIMIT + 1;
      if 0 < ix < U32_LIMIT then Some(ix) else None
  }
}
