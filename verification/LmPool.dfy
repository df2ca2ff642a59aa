/**
 Liquidity-mining pool: deposits, redeems and batched reward distribution.

 Machine integers are modelled by their ranges. Any operation that would leave its range, and any
 division by zero, yields `Trapped`: the source panics there with overflow checks and wraps without
 them, so a run that is proved never to trap behaves the same in both builds.
 */
module LmPool {
  import opened Arith
  import opened Wrappers

  const U32_LIMIT: nat := 0x1_0000_0000
  const U64_LIMIT: nat := 0x1_0000_0000_0000_0000
  const U128_LIMIT: nat := 0x1_0000_0000_0000_0000_0000_0000_0000_0000

  type u32 = n: int | 0 <= n < 0x1_0000_0000
  type u64 = n: int | 0 <= n < 0x1_0000_0000_0000_0000

  /** Max amount of tokens allowed in Ergo. */
  const MAX_VALUE: u64 := 0x7fff_ffff_ffff_ffff
  const MIN_SAFE_BOX_VALUE: u64 := 250_000
  const MIN_SAFE_FAT_BOX_VALUE: u64 := 522_000
  const DEFAULT_MINER_FEE: u64 := 1_000_000
  const DEFAULT_MINER_FEE_FOR_COMPOUND_TX: u64 := 3_000_000

  /** A 32-byte token id, as the number with those big-endian bytes. */
  type PoolId = n: nat | n < 0x1_0000000000000000_0000000000000000_0000000000000000_0000000000000000

  /** The pool whose redeems skip the epoch check. */
  const STUCK_POOL_ID: PoolId := 0x69eff57ea62b13c58e5668e3fbc9927fdb2dffb1c692261f98728a665b2f8abb

  datatype ProgramConfig = ProgramConfig(
    epochLen: u32,
    epochNum: u32,
    programStart: u32,
    redeemBlocksDelta: u32,
    maxRoundingError: u64,
    programBudget: u64)

  datatype Pool = Pool(
    poolId: PoolId,
    budgetRem: u64,
    reservesLq: u64,
    reservesVlq: u64,
    reservesTmp: u64,
    epochIx: Option<u32>,
    conf: ProgramConfig,
    ergValue: u64)

  datatype Bundle = Bundle(poolId: PoolId, vlq: u64, tmp: Option<u64>, ergValue: u64)

  datatype PoolError =
    | LiquidityMismatch
    | ProgramExhausted
    | UnexpectedEpochs(expected: u32, remain: u32)
    | AlreadyCompounded
    | BudgetDepleted
    | LowValue(required: u64, provided: u64)
    | LiquidityMoveBlocked

  datatype Outcome<+T> = Ok(value: T) | Err(error: PoolError) | Trapped

  // ---------------------------------------------------------------- epochs

  /** Reward tokens allocated to one epoch, rounded down. */
  function EpochAlloc(conf: ProgramConfig): u64
    requires conf.epochNum > 0
  {
    DivLeq(conf.programBudget, conf.epochNum);
    conf.programBudget / conf.epochNum
  }

  /** The floating-point remainder by zero is not a number and compares false. */
  predicate EpochCompleted(pool: Pool)
    requires pool.conf.epochNum > 0
  {
    var alloc := EpochAlloc(pool.conf);
    alloc != 0 && pool.budgetRem % alloc <= pool.conf.maxRoundingError
  }

  /** Whole epoch allocations left in the budget. */
  function FundedEpochs(pool: Pool): u64
    requires pool.conf.epochNum > 0 && EpochAlloc(pool.conf) > 0
  {
    DivLeq(pool.budgetRem, EpochAlloc(pool.conf));
    pool.budgetRem / EpochAlloc(pool.conf)
  }

  /** Index of the epoch that `DistributeRewards` pays next; `None` when the arithmetic traps. */
  function EpochToPay(pool: Pool): Option<u32> {
    if pool.conf.epochNum == 0 || EpochAlloc(pool.conf) == 0 || pool.conf.epochNum + 1 >= U32_LIMIT then None
    else
      var funded := FundedEpochs(pool);
      var ix := pool.conf.epochNum + 1 - funded - (if EpochCompleted(pool) then 0 else 1);
      if ix < 0 then None else Some(ix)
  }

  /** Epochs still to be paid after epoch `ix`. */
  function EpochsRemainAfter(conf: ProgramConfig, ix: u32): u32 {
    SatSub(conf.epochNum, ix)
  }

  function CeilDiv(a: nat, b: nat): nat
    requires b > 0
  {
    if a % b == 0 then a / b else a / b + 1
  }

  /** Epochs not yet paid in full. A quotient by a zero allocation saturates the cast to 32 bits. */
  function EpochsLeftToProcess(pool: Pool): nat
    requires pool.conf.epochNum > 0
  {
    var left := SatSub(pool.budgetRem, pool.conf.maxRoundingError);
    var alloc := EpochAlloc(pool.conf);
    var quotient := if alloc > 0 then CeilDiv(left, alloc) else if left > 0 then U32_LIMIT - 1 else 0;
    if quotient < U32_LIMIT then quotient else U32_LIMIT - 1
  }

  /** Epoch of the given height, counted from 1; 0 before the program; `None` when the division traps. */
  function CurrentEpochIx(conf: ProgramConfig, height: u32): Option<u32> {
    var blockIx := height - conf.programStart + 1;
    if blockIx < 0 then Some(0)
    else if conf.epochLen == 0 then None
    else
      var rem, quotient := blockIx % conf.epochLen, blockIx / conf.epochLen;
      if rem > 0 then
        var ix := quotient % U32_LIMIT + 1;
        if ix < U32_LIMIT then Some(ix) else None
      else Some(quotient % U32_LIMIT)
  }

  // ---------------------------------------------------------------- deposit and redeem

  datatype DepositOrder = DepositOrder(lq: u64, ergValue: u64, expectedNumEpochs: u32)
  datatype RedeemOrder = RedeemOrder(expectedLq: u64, ergValue: u64)

  datatype Deposited = Deposited(pool: Pool, bundle: Bundle, userErg: u64, executorErg: u64, minerErg: u64)
  datatype Redeemed = Redeemed(pool: Pool, userLq: u64, userErg: u64, executorErg: u64, minerErg: u64)

  function ApplyDeposit(pool: Pool, order: DepositOrder, height: u32): Outcome<Deposited> {
    match CurrentEpochIx(pool.conf, height)
    case None => Trapped
    case Some(current) =>
      var epochsRemain := EpochsRemainAfter(pool.conf, current);
      if epochsRemain < 1 then Err(ProgramExhausted)
      else if !EpochCompleted(pool) then Err(LiquidityMoveBlocked)
      else if epochsRemain != order.expectedNumEpochs then
        Err(UnexpectedEpochs(order.expectedNumEpochs, epochsRemain))
      else ReleaseBundle(pool, order, epochsRemain)
  }

  /** Move the deposit into the pool and release the staker's virtual liquidity and temporal tokens. */
  function ReleaseBundle(pool: Pool, order: DepositOrder, epochsRemain: u32): Outcome<Deposited> {
    MulNonNeg(epochsRemain, order.lq);
    var releaseTmp: nat := epochsRemain * order.lq;
    if releaseTmp >= U64_LIMIT || pool.reservesLq + order.lq >= U64_LIMIT
       || pool.reservesVlq < order.lq || pool.reservesTmp < releaseTmp then Trapped
    else
      var remainder :=
        SatSub(SatSub(SatSub(order.ergValue, MIN_SAFE_FAT_BOX_VALUE), MIN_SAFE_FAT_BOX_VALUE), DEFAULT_MINER_FEE);
      if remainder < MIN_SAFE_BOX_VALUE then Err(LowValue(MIN_SAFE_BOX_VALUE, remainder))
      else
        Ok(Deposited(
             pool.(reservesLq := pool.reservesLq + order.lq,
                   reservesVlq := pool.reservesVlq - order.lq,
                   reservesTmp := pool.reservesTmp - releaseTmp),
             Bundle(pool.poolId, order.lq, Some(releaseTmp), MIN_SAFE_FAT_BOX_VALUE),
             MIN_SAFE_FAT_BOX_VALUE, remainder, DEFAULT_MINER_FEE))
  }

  function ApplyRedeem(pool: Pool, order: RedeemOrder, bundle: Bundle): Outcome<Redeemed> {
    if order.expectedLq != bundle.vlq then Err(LiquidityMismatch)
    else if bundle.poolId != STUCK_POOL_ID && pool.conf.epochNum == 0 then Trapped
    else if bundle.poolId != STUCK_POOL_ID && !EpochCompleted(pool) then Err(LiquidityMoveBlocked)
    else if pool.reservesLq < order.expectedLq || pool.reservesVlq + bundle.vlq >= U64_LIMIT
            || pool.reservesTmp + TmpOf(bundle) >= U64_LIMIT
            || order.ergValue + bundle.ergValue >= U64_LIMIT then Trapped
    else
      var remainder := SatSub(SatSub(order.ergValue + bundle.ergValue, MIN_SAFE_BOX_VALUE), DEFAULT_MINER_FEE);
      if remainder < MIN_SAFE_BOX_VALUE then Err(LowValue(MIN_SAFE_BOX_VALUE, remainder))
      else
        Ok(Redeemed(
             pool.(reservesLq := pool.reservesLq - order.expectedLq,
                   reservesVlq := pool.reservesVlq + bundle.vlq,
                   reservesTmp := pool.reservesTmp + TmpOf(bundle)),
             order.expectedLq, MIN_SAFE_BOX_VALUE, remainder, DEFAULT_MINER_FEE))
  }

  /** Temporal tokens held by a bundle. */
  function TmpOf(bundle: Bundle): u64 {
    if bundle.tmp.Some? then bundle.tmp.value else 0
  }

  // ---------------------------------------------------------------- reward distribution

  /** Budget reserved for the epochs after the one being paid. */
  function LaterAlloc(conf: ProgramConfig, epochsRemain: u32): nat
    requires conf.epochNum > 0
  {
    MulNonNeg(conf.programBudget, epochsRemain);
    DivNonNeg(conf.programBudget * epochsRemain, conf.epochNum);
    conf.programBudget * epochsRemain / conf.epochNum
  }

  /** What the epoch being paid may still hand out. */
  function AllocRem(pool: Pool, epochsRemain: u32): nat
    requires pool.conf.epochNum > 0
  {
    SatSub(SatSub(pool.budgetRem, LaterAlloc(pool.conf, epochsRemain)), 1)
  }

  /** Temporal tokens outside the pool that the epoch being paid may still collect. */
  function ActualTmp(pool: Pool, epochsRemain: u32): nat {
    SatSub(SatSub(MAX_VALUE, pool.reservesTmp), pool.reservesLq * epochsRemain)
  }

  function EpochsBurned(bundle: Bundle, epochsRemain: u32): nat
    requires bundle.vlq > 0 || bundle.tmp.None?
  {
    if bundle.tmp.Some? then SatSub(bundle.tmp.value / bundle.vlq, epochsRemain) else 0
  }

  /** Reward of one bundle, computed from the pool as it was when the batch started. */
  function RewardOf(snapshot: Pool, epochsRemain: u32, bundle: Bundle): Option<u64>
    requires snapshot.conf.epochNum > 0
    requires bundle.vlq > 0 || bundle.tmp.None?
  {
    var actualTmp := ActualTmp(snapshot, epochsRemain);
    if snapshot.reservesLq * epochsRemain >= U64_LIMIT then None
    else if actualTmp == 0 then Some(0)
    else
      var product := AllocRem(snapshot, epochsRemain) * bundle.vlq * EpochsBurned(bundle, epochsRemain);
      if product >= U128_LIMIT then None else Some(product / actualTmp % U64_LIMIT)
  }

  datatype Payment = Payment(pool: Pool, bundle: Bundle, reward: u64)

  /** Pay one bundle out of `next`, the pool as left by the bundles paid before it. */
  function PayBundle(snapshot: Pool, epochsRemain: u32, next: Pool, bundle: Bundle): Outcome<Payment>
    requires snapshot.conf.epochNum > 0
  {
    if bundle.tmp.Some? && bundle.vlq == 0 then Trapped
    else if EpochsBurned(bundle, epochsRemain) < 1 then Err(AlreadyCompounded)
    else
      var kept := epochsRemain * bundle.vlq;
      BurnedMeansEnoughTmp(bundle, epochsRemain);
      var charged := TmpOf(bundle) - kept;
      match RewardOf(snapshot, epochsRemain, bundle)
      case None => Trapped
      case Some(reward) =>
        if next.budgetRem < reward || next.reservesTmp + charged >= U64_LIMIT then Trapped
        else if next.budgetRem - reward == 0 then Err(BudgetDepleted)
        else
          Ok(Payment(
               next.(budgetRem := next.budgetRem - reward, reservesTmp := next.reservesTmp + charged),
               bundle.(tmp := if kept > 0 then Some(kept) else None),
               reward))
  }

  datatype Batch = Batch(pool: Pool, bundles: seq<Bundle>, rewards: seq<u64>)

  /** Pay the bundles left to right; the first failure decides the whole batch. */
  function PayAll(snapshot: Pool, epochsRemain: u32, bundles: seq<Bundle>): Outcome<Batch>
    requires snapshot.conf.epochNum > 0
  {
    if bundles == [] then Ok(Batch(snapshot, [], []))
    else
      var front := |bundles| - 1;
      match PayAll(snapshot, epochsRemain, bundles[..front])
      case Trapped => Trapped
      case Err(e) => Err(e)
      case Ok(paid) =>
        match PayBundle(snapshot, epochsRemain, paid.pool, bundles[front])
        case Trapped => Trapped
        case Err(e) => Err(e)
        case Ok(p) => Ok(Batch(p.pool, paid.bundles + [p.bundle], paid.rewards + [p.reward]))
  }

  datatype Distributed = Distributed(
    pool: Pool,
    bundles: seq<Bundle>,
    nextFunding: Option<u64>,
    rewards: seq<u64>,
    minerErg: u64)

  function SumOf(xs: seq<u64>): nat {
    if xs == [] then 0 else SumOf(xs[..|xs| - 1]) + xs[|xs| - 1]
  }

  /** Cost of a batch: one box per reward and the miner fee. */
  function BatchCost(n: nat): nat {
    n * MIN_SAFE_BOX_VALUE + DEFAULT_MINER_FEE_FOR_COMPOUND_TX
  }

  /** Settle the nanoERG side of a paid batch. */
  function Settle(batch: Batch, epochIx: u32, funding: seq<u64>): Outcome<Distributed> {
    if BatchCost(|batch.rewards|) >= U64_LIMIT || SumOf(funding) >= U64_LIMIT then Trapped
    else
      var remain: u64 := SatSub(SumOf(funding), BatchCost(|batch.rewards|));
      var pool := batch.pool.(epochIx := Some(epochIx));
      if remain >= MIN_SAFE_BOX_VALUE then
        Ok(Distributed(pool, batch.bundles, Some(remain), batch.rewards, DEFAULT_MINER_FEE_FOR_COMPOUND_TX))
      else
        Ok(Distributed(pool, batch.bundles, None, batch.rewards, DEFAULT_MINER_FEE_FOR_COMPOUND_TX + remain))
  }

  /** Specification of `DistributeRewards`. */
  function Distribute(pool: Pool, bundles: seq<Bundle>, funding: seq<u64>): Outcome<Distributed> {
    match EpochToPay(pool)
    case None => Trapped
    case Some(ix) =>
      match PayAll(pool, EpochsRemainAfter(pool.conf, ix), bundles)
      case Trapped => Trapped
      case Err(e) => Err(e)
      case Ok(batch) => Settle(batch, ix, funding)
  }

  method DistributeRewards(pool: Pool, bundles: seq<Bundle>, funding: seq<u64>) returns (r: Outcome<Distributed>)
    ensures r == Distribute(pool, bundles, funding)
  {
    var epochToPay := EpochToPay(pool);
    if epochToPay.None? { return Trapped; }
    var epochIx := epochToPay.value;
    var paid := PayInPlace(pool, EpochsRemainAfter(pool.conf, epochIx), bundles);
    match paid {
      case Trapped => return Trapped;
      case Err(e) => return Err(e);
      case Ok(batch) => r := Settle(batch, epochIx, funding);
    }
  }

  /** The batch loop of the source: bundles are updated in place, the snapshot is never touched. */
  method PayInPlace(snapshot: Pool, epochsRemain: u32, bundles: seq<Bundle>) returns (r: Outcome<Batch>)
    requires snapshot.conf.epochNum > 0
    ensures r == PayAll(snapshot, epochsRemain, bundles)
  {
    var nextPool, nextBundles, rewards := snapshot, bundles, [];
    var i := 0;
    while i < |bundles|
      invariant 0 <= i <= |bundles| == |nextBundles|
      invariant nextBundles[i..] == bundles[i..]
      invariant PayAll(snapshot, epochsRemain, bundles[..i]) == Ok(Batch(nextPool, nextBundles[..i], rewards))
    {
      assert nextBundles[i] == nextBundles[i..][0] == bundles[i];
      var payment := PayBundle(snapshot, epochsRemain, nextPool, nextBundles[i]);
      PayAllStep(snapshot, epochsRemain, bundles, i, Batch(nextPool, nextBundles[..i], rewards), payment);
      if !payment.Ok? {
        PayAllStops(snapshot, epochsRemain, bundles, i + 1);
        if payment.Trapped? { return Trapped; }
        return Err(payment.error);
      }
      nextPool, rewards := payment.value.pool, rewards + [payment.value.reward];
      assert nextBundles[i := payment.value.bundle][..i + 1] == nextBundles[..i] + [payment.value.bundle];
      nextBundles := nextBundles[i := payment.value.bundle];
      i := i + 1;
    }
    assert bundles[..i] == bundles && nextBundles[..i] == nextBundles;
    r := Ok(Batch(nextPool, nextBundles, rewards));
  }

  /** One turn of the loop extends the prefix that has been paid. */
  lemma PayAllStep(snapshot: Pool, epochsRemain: u32, bundles: seq<Bundle>, i: nat, paid: Batch, p: Outcome<Payment>)
    requires snapshot.conf.epochNum > 0 && i < |bundles|
    requires PayAll(snapshot, epochsRemain, bundles[..i]) == Ok(paid)
    requires p == PayBundle(snapshot, epochsRemain, paid.pool, bundles[i])
    ensures PayAll(snapshot, epochsRemain, bundles[..i + 1]) ==
            match p
            case Trapped => Trapped
            case Err(e) => Err(e)
            case Ok(v) => Ok(Batch(v.pool, paid.bundles + [v.bundle], paid.rewards + [v.reward]))
  {
    assert bundles[..i + 1][..i] == bundles[..i];
  }

  /** A failure on a prefix is the failure of the batch. */
  lemma {:induction false} PayAllStops(snapshot: Pool, epochsRemain: u32, bundles: seq<Bundle>, n: nat)
    requires snapshot.conf.epochNum > 0
    requires n <= |bundles|
    requires !PayAll(snapshot, epochsRemain, bundles[..n]).Ok?
    ensures PayAll(snapshot, epochsRemain, bundles) == PayAll(snapshot, epochsRemain, bundles[..n])
    decreases |bundles| - n
  {
    if n == |bundles| {
      assert bundles[..n] == bundles;
    } else {
      assert bundles[..n + 1][..n] == bundles[..n];
      PayAllStops(snapshot, epochsRemain, bundles, n + 1);
    }
  }

  // ---------------------------------------------------------------- arithmetic

  lemma BurnedMeansEnoughTmp(bundle: Bundle, epochsRemain: u32)
    requires bundle.vlq > 0 || bundle.tmp.None?
    requires EpochsBurned(bundle, epochsRemain) >= 1
    ensures epochsRemain * bundle.vlq + bundle.vlq <= TmpOf(bundle)
  {
    var t, v := bundle.tmp.value, bundle.vlq;
    DivMod(t, v);
    MulMono(epochsRemain + 1, t / v, v);
    assert (epochsRemain + 1) * v == epochsRemain * v + v;
  }
}
