/** When an epoch is over: the budget that is left, the exact condition to advance, and pools that never do. */
module PoolCompletion {
  import opened Arith
  import opened Wrappers
  import opened LmPool
  import opened PoolEpochs
  import opened PoolRewards
  import opened PoolRuns
  import opened PoolFairness

  ghost predicate AllCompounded(bs: seq<Bundle>, r: nat) {
    forall i :: 0 <= i < |bs| ==> Burnable(bs[i], r) == 0
  }

  lemma {:induction false} NothingLeftToBurn(bs: seq<Bundle>, r: nat)
    requires AllCompounded(bs, r)
    ensures SumBurnable(bs, r) == 0
  {
    if bs != [] {
      var front, last := bs[..|bs| - 1], bs[|bs| - 1];
      NothingLeftToBurn(front, r);
      MulDistributes(SumVlq(front), last.vlq, r);
      assert Burnable(last, r) == 0;
    }
  }

  /** Flooring a whole epoch leaves less than one unit per bundle of the last batch. */
  lemma DustOfLastBatch(alloc: nat, spent: nat, total: nat, n: nat)
    requires total > 0 && n > 0
    requires alloc * total <= spent * total + n * (total - 1)
    ensures alloc - spent < n
  {
    MulDistributes(alloc, spent, total);
    MulDistributes(total, 1, n);
    if n <= alloc - spent {
      MulMono(n, alloc - spent, total);
      assert false;
    }
  }

  /** The budget once every bundle has been compounded: later epochs' allocation plus a bounded slack. */
  lemma BudgetAfterEpoch(w: World, ids: seq<nat>, r: u32, w': World)
    requires PaysEpoch(w, ids, r, w') && ids != []
    requires AllCompounded(w'.bundles, r)
    ensures r * EpochAlloc(w.pool.conf) < w'.pool.budgetRem
    ensures w'.pool.budgetRem <= r * EpochAlloc(w.pool.conf) + w.pool.conf.epochNum + |ids|
    ensures w'.pool.conf == w.pool.conf
  {
    BatchStepTotals(w, ids, r, w');
    NothingLeftToBurn(w'.bundles, r);
    EpochOfBudget(w.pool);
    LaterAllocBounds(w.pool.conf, r);
    DustOfLastBatch(Unspent(w, r), SumOf(PayAll(w.pool, r, BatchOf(w.bundles, ids)).value.rewards),
                    SumBurnable(w.bundles, r), |ids|);
  }

  // ---------------------------------------------------------------- advancing

  /** What the batch is going to be paid: the floored shares of its bundles. */
  ghost function Shares(pool: Pool, bs: seq<Bundle>, ids: seq<nat>, r: u32): int
    requires ValidBatch(bs, ids) && pool.conf.epochNum > 0 && SumBurnable(bs, r) != 0
  {
    if ids == [] then 0
    else
      var last := |ids| - 1;
      Shares(pool, bs, ids[..last], r) + AllocRem(pool, r) * Burnable(bs[ids[last]], r) / SumBurnable(bs, r)
  }

  lemma {:induction false} PaidIsShares(pool: Pool, bs: seq<Bundle>, ids: seq<nat>, r: u32, rewards: seq<u64>)
    requires ValidBatch(bs, ids) && pool.conf.epochNum > 0 && SumBurnable(bs, r) > 0 && |rewards| == |ids|
    requires forall j :: 0 <= j < |ids| ==>
               rewards[j] == AllocRem(pool, r) * Burnable(bs[ids[j]], r) / SumBurnable(bs, r)
    ensures SumOf(rewards) == Shares(pool, bs, ids, r)
  {
    if ids != [] { PaidIsShares(pool, bs, ids[..|ids| - 1], r, rewards[..|ids| - 1]); }
  }

  /** The epoch that a budget above `r` allocations pays, for budgets of any size. */
  lemma EpochAbove(pool: Pool, r: nat)
    requires ValidProgram(pool.conf) && pool.budgetRem <= pool.conf.programBudget
    requires r * EpochAlloc(pool.conf) < pool.budgetRem
    ensures Left(pool) >= r
    ensures Left(pool) == r <==> pool.budgetRem <= r * EpochAlloc(pool.conf) + pool.conf.maxRoundingError
  {
    EpochOfBudget(pool);
    ProgramBounds(pool.conf);
    var alloc: nat, left := EpochAlloc(pool.conf), Left(pool);
    if left < r {
      MulMono(left + 1, r, alloc);
      MulDistributes(left, 1, alloc);
      assert false;
    } else if left > r {
      MulMono(r, left - 1, alloc);
    }
  }

  /** The budget that a batch is going to leave. */
  ghost function BudgetLeft(w: World, ids: seq<nat>, r: u32): int
    requires ValidBatch(w.bundles, ids) && w.pool.conf.epochNum > 0 && SumBurnable(w.bundles, r) != 0
  {
    w.pool.budgetRem - Shares(w.pool, w.bundles, ids, r)
  }

  lemma BatchLeaves(w: World, ids: seq<nat>, r: u32, w': World)
    requires PaysEpoch(w, ids, r, w') && ids != []
    ensures SumBurnable(w.bundles, r) > 0
    ensures w'.pool.conf == w.pool.conf && w'.pool.budgetRem == BudgetLeft(w, ids, r)
    ensures r * EpochAlloc(w.pool.conf) < w'.pool.budgetRem <= w.pool.budgetRem
  {
    BatchStepTotals(w, ids, r, w');
    var paid := PayAll(w.pool, r, BatchOf(w.bundles, ids)).value;
    PaidIsShares(w.pool, w.bundles, ids, r, paid.rewards);
    EpochOfBudget(w.pool);
    LaterAllocBounds(w.pool.conf, r);
  }

  /**
   The exact condition to advance, read off the state before the batch: the next epoch is one higher if and
   only if the epoch was not over yet and what the batch leaves is within the tolerance above the later epochs.
   */
  lemma NextEpochIff(w: World, ids: seq<nat>, r: u32, w': World)
    requires PaysEpoch(w, ids, r, w') && ids != []
    ensures EpochToPay(w.pool).Some? && EpochToPay(w'.pool).Some? && SumBurnable(w.bundles, r) > 0
    ensures EpochToPay(w'.pool).value == EpochToPay(w.pool).value + 1 <==>
            && w.pool.budgetRem > w.pool.conf.maxRoundingError
            && BudgetLeft(w, ids, r) <= r * EpochAlloc(w.pool.conf) + w.pool.conf.maxRoundingError
    ensures EpochToPay(w'.pool).value != EpochToPay(w.pool).value + 1 ==> EpochToPay(w'.pool) == EpochToPay(w.pool)
  {
    BatchLeaves(w, ids, r, w');
    EpochOfBudget(w.pool);
    EpochOfBudget(w'.pool);
    EpochsRemainMonotone(w.pool, w'.pool);
    EpochAbove(w'.pool, r);
  }

  /**
   Epoch completion. Once every outstanding bundle has been compounded, a tolerance that covers the
   number of epochs plus the last batch completes the epoch, and the next epoch is exactly one higher.
   */
  lemma EpochCompletes(w: World, ids: seq<nat>, r: u32, w': World)
    requires PaysEpoch(w, ids, r, w') && ids != []
    requires AllCompounded(w'.bundles, r)
    requires w.pool.budgetRem > w.pool.conf.maxRoundingError
    requires w.pool.conf.epochNum + |ids| <= w.pool.conf.maxRoundingError
    ensures w'.pool.conf == w.pool.conf && EpochCompleted(w'.pool)
    ensures EpochToPay(w.pool).Some? && EpochToPay(w'.pool).Some?
    ensures EpochToPay(w'.pool).value == EpochToPay(w.pool).value + 1
  {
    BudgetAfterEpoch(w, ids, r, w');
    BatchLeaves(w, ids, r, w');
    NextEpochIff(w, ids, r, w');
    ProgramBounds(w.pool.conf);
    var alloc: nat := EpochAlloc(w.pool.conf);
    DivUnique(w'.pool.budgetRem, alloc, r, w'.pool.budgetRem - r * alloc);
  }

  // ---------------------------------------------------------------- pools that never advance

  /** Once every bundle is compounded for the epoch that the budget still pays, every further batch is refused. */
  lemma SpentEpochIsRefused(w: World, r: u32, ids: seq<nat>, funding: seq<u64>)
    requires Safe(w) && r == EpochsRemain(w.pool) && AllCompounded(w.bundles, r)
    requires ValidBatch(w.bundles, ids) && ids != []
    ensures Distribute(w.pool, BatchOf(w.bundles, ids), funding) == Err(AlreadyCompounded)
  {
    EpochOfBudget(w.pool);
    assert Burnable(w.bundles[ids[0]], r) == 0;
    CompoundedIsRefused(w, ids);
  }

  /** Deposits and redeems are refused while the epoch is not completed. */
  lemma MovesAreBlocked(w: World)
    requires w.pool.conf.epochNum > 0 && !EpochCompleted(w.pool)
    ensures forall order, height :: !ApplyDeposit(w.pool, order, height).Ok?
    ensures forall order, ix :: 0 <= ix < |w.bundles| && w.bundles[ix].poolId != STUCK_POOL_ID ==>
                                  !ApplyRedeem(w.pool, order, w.bundles[ix]).Ok?
  {
  }

  /** The epoch is the same as before, and none of the outstanding bundles can be paid any more. */
  ghost predicate Stalls(w: World, w': World) {
    && EpochToPay(w'.pool) == EpochToPay(w.pool)
    && forall ids, funding :: ValidBatch(w'.bundles, ids) && ids != [] ==>
         Distribute(w'.pool, BatchOf(w'.bundles, ids), funding) == Err(AlreadyCompounded)
  }

  /** The last batch of an epoch stalls the pool exactly when it leaves more than the tolerance above later epochs. */
  lemma StallsIff(w: World, ids: seq<nat>, r: u32, w': World)
    requires PaysEpoch(w, ids, r, w') && ids != [] && AllCompounded(w'.bundles, r)
    requires w.pool.budgetRem > w.pool.conf.maxRoundingError
    ensures SumBurnable(w.bundles, r) > 0
    ensures Stalls(w, w') <==>
            BudgetLeft(w, ids, r) > r * EpochAlloc(w.pool.conf) + w.pool.conf.maxRoundingError
  {
    NextEpochIff(w, ids, r, w');
    if EpochToPay(w'.pool) == EpochToPay(w.pool) {
      BatchLeaves(w, ids, r, w');
      BatchStepContinues(w, ids, r, w');
      forall ids', funding | ValidBatch(w'.bundles, ids') && ids' != []
        ensures Distribute(w'.pool, BatchOf(w'.bundles, ids'), funding) == Err(AlreadyCompounded)
      {
        SpentEpochIsRefused(w', r, ids', funding);
      }
    }
  }

  /**
   After a batch deposits and redeems are open exactly when what it leaves is within the tolerance above some
   multiple of the allocation, be it the later epochs' or a higher one.
   */
  lemma MovesOpenIff(w: World, ids: seq<nat>, r: u32, w': World)
    requires PaysEpoch(w, ids, r, w') && ids != []
    ensures SumBurnable(w.bundles, r) > 0 && EpochAlloc(w.pool.conf) > 0 && w'.pool.conf == w.pool.conf
    ensures EpochCompleted(w'.pool) <==>
            BudgetLeft(w, ids, r) % EpochAlloc(w.pool.conf) <= w.pool.conf.maxRoundingError
  {
    BatchLeaves(w, ids, r, w');
    ProgramBounds(w.pool.conf);
  }

  // ---------------------------------------------------------------- runs that get stuck

  /** One epoch with a budget of six units, and the given rounding tolerance. */
  function SmallProgram(tolerance: u64): ProgramConfig {
    ProgramConfig(1, 1, 1000, 1, tolerance, 6)
  }

  /** A run whose deposits are all timely. */
  ghost predicate IsTimelyRun(ws: seq<World>, steps: seq<Step>) {
    IsRun(ws, steps) && forall i :: 0 <= i < |steps| ==> Timely(ws[i], steps[i])
  }

  lemma TimelyRunExtends(ws: seq<World>, steps: seq<Step>, step: Step, w: World)
    requires IsTimelyRun(ws, steps)
    requires Timely(ws[|steps|], step) && WellFormed(ws[|steps|], step) && Apply(ws[|steps|], step) == Ok(w)
    ensures IsTimelyRun(ws + [w], steps + [step])
  {
    var ws', steps' := ws + [w], steps + [step];
    forall i | 0 <= i < |steps'|
      ensures WellFormed(ws'[i], steps'[i]) && Apply(ws'[i], steps'[i]) == Ok(ws'[i + 1]) && Timely(ws'[i], steps'[i])
    {
      if i < |steps| { assert ws'[i] == ws[i] && ws'[i + 1] == ws[i + 1] && steps'[i] == steps[i]; }
    }
  }

  /** A safe pool with a full budget and equal stakers. */
  ghost predicate HasEqualStakers(w: World, n: nat, tolerance: u64) {
    && Safe(w) && w.pool.conf == SmallProgram(tolerance) && w.pool.budgetRem == 6 && |w.bundles| == n
    && forall i :: 0 <= i < n ==> w.bundles[i].vlq == 100 && w.bundles[i].tmp == Some(100)
  }

  lemma {:induction false} EqualSums(bs: seq<Bundle>)
    requires forall i :: 0 <= i < |bs| ==> bs[i].vlq == 100 && bs[i].tmp == Some(100)
    ensures SumVlq(bs) == SumTmp(bs) == 100 * |bs|
  {
    if bs != [] { EqualSums(bs[..|bs| - 1]); }
  }

  lemma OneMoreStaker(w: World, n: nat, tolerance: u64, deposit: Step) returns (w': World)
    requires HasEqualStakers(w, n, tolerance) && n <= 6 && 2 <= tolerance <= 5
    requires deposit == Deposit(DepositOrder(100, 10_000_000, 1), 0)
    ensures Timely(w, deposit) && WellFormed(w, deposit) && Apply(w, deposit) == Ok(w')
    ensures HasEqualStakers(w', n + 1, tolerance)
  {
    EqualSums(w.bundles);
    w' := Apply(w, deposit).value;
    StepKeepsSafe(w, deposit);
  }

  /** A run of deposits after which the given number of equal stakers share the pool. */
  lemma {:induction false} DepositRun(n: nat, tolerance: u64) returns (ws: seq<World>, steps: seq<Step>)
    requires 1 <= n <= 6 && 2 <= tolerance <= 5
    ensures IsTimelyRun(ws, steps) && Deployed(1, SmallProgram(tolerance), 100, 1) == Some(ws[0])
    ensures |steps| == n - 1 && HasEqualStakers(ws[n - 1], n, tolerance)
  {
    if n == 1 {
      var w := Deployed(1, SmallProgram(tolerance), 100, 1).value;
      DeployedSafeIff(1, SmallProgram(tolerance), 100, 1);
      ws, steps := [w], [];
    } else {
      ws, steps := DepositRun(n - 1, tolerance);
      var deposit := Deposit(DepositOrder(100, 10_000_000, 1), 0);
      var w := OneMoreStaker(ws[n - 2], n - 1, tolerance, deposit);
      TimelyRunExtends(ws, steps, deposit, w);
      ws, steps := ws + [w], steps + [deposit];
    }
  }

  ghost function UpTo(n: nat): seq<nat> {
    seq(n, i => i)
  }

  lemma {:induction false} SumOfEqual(xs: seq<u64>, x: u64)
    requires forall i :: 0 <= i < |xs| ==> xs[i] == x
    ensures SumOf(xs) == |xs| * x
  {
    if xs != [] {
      SumOfEqual(xs[..|xs| - 1], x);
      MulDistributes(|xs| - 1, 1, x);
    }
  }

  /** The share of each of `n` equal stakers, and what is left of five units. */
  lemma FloorOfFive(n: nat)
    requires 1 <= n <= 6
    ensures 5 * 100 / (100 * n) == 5 / n && n * (5 / n) == 5 - 5 % n
  {
    assert n == 1 || n == 2 || n == 3 || n == 4 || n == 5 || n == 6;
  }

  lemma EqualBasics(w: World, n: nat, tolerance: u64)
    requires HasEqualStakers(w, n, tolerance) && 2 <= tolerance <= 5
    ensures EpochToPay(w.pool) == Some(1) && EpochsRemain(w.pool) == 0 && AllocRem(w.pool, 0) == 5
    ensures ValidBatch(w.bundles, UpTo(n)) && Uncompounded(w.bundles, UpTo(n), 0)
    ensures SumBurnable(w.bundles, 0) == 100 * n && forall i :: 0 <= i < n ==> Burnable(w.bundles[i], 0) == 100
  {
    EqualSums(w.bundles);
    assert LaterAlloc(w.pool.conf, 0) == 0;
  }

  /** Equal stakers each get the floored share of five units. */
  lemma EqualShares(w: World, n: nat, tolerance: u64)
    requires HasEqualStakers(w, n, tolerance) && 1 <= n <= 6 && 2 <= tolerance <= 5
    ensures ValidBatch(w.bundles, UpTo(n))
    ensures var paid := PayAll(w.pool, 0, BatchOf(w.bundles, UpTo(n)));
            && paid.Ok? && PaidExactly(w.pool, w.bundles, UpTo(n), 0, paid.value)
            && SumOf(paid.value.rewards) == 5 - 5 % n
  {
    EqualBasics(w, n, tolerance);
    var ids := UpTo(n);
    BatchIsSolvent(w.pool, w.bundles, ids, 0);
    var paid := PayAll(w.pool, 0, BatchOf(w.bundles, ids)).value;
    FloorOfFive(n);
    forall i | 0 <= i < n ensures paid.rewards[i] == 5 / n {
      assert ids[i] == i;
    }
    SumOfEqual(paid.rewards, 5 / n);
  }

  lemma EqualPaid(w: World, n: nat, tolerance: u64, compound: Step) returns (w': World)
    requires HasEqualStakers(w, n, tolerance) && 1 <= n <= 6 && 2 <= tolerance <= 5
    requires compound == Compound(UpTo(n), [10_000_000])
    ensures WellFormed(w, compound) && Apply(w, compound) == Ok(w') && PaysEpoch(w, UpTo(n), 0, w')
    ensures w'.pool.conf == w.pool.conf && w'.pool.budgetRem == 1 + 5 % n
  {
    EqualBasics(w, n, tolerance);
    EqualShares(w, n, tolerance);
    assert SumOf([10_000_000]) == 10_000_000;
    w' := Apply(w, compound).value;
  }

  lemma EqualCompounded(w: World, n: nat, tolerance: u64, w': World)
    requires HasEqualStakers(w, n, tolerance) && PaysEpoch(w, UpTo(n), 0, w')
    ensures AllCompounded(w'.bundles, 0)
  {
    forall i | 0 <= i < n ensures Burnable(w'.bundles[i], 0) == 0 {
      assert UpTo(n)[i] == i;
      StepPaysOrKeeps(w, UpTo(n), 0, w', i);
    }
  }

  lemma EqualOutcome(w: World, n: nat, tolerance: u64, w': World)
    requires HasEqualStakers(w, n, tolerance) && 1 <= n <= 6 && 2 <= tolerance <= 5
    requires PaysEpoch(w, UpTo(n), 0, w') && w'.pool.conf == w.pool.conf && w'.pool.budgetRem == 1 + 5 % n
    requires AllCompounded(w'.bundles, 0)
    ensures if 1 + 5 % n <= tolerance then EpochToPay(w'.pool) == Some(2) else Stalls(w, w')
    ensures EpochCompleted(w'.pool) <==> (1 + 5 % n) % 6 <= tolerance
  {
    EqualBasics(w, n, tolerance);
    BatchLeaves(w, UpTo(n), 0, w');
    NextEpochIff(w, UpTo(n), 0, w');
    StallsIff(w, UpTo(n), 0, w');
  }

  lemma LastBatch(w: World, n: nat, tolerance: u64, compound: Step) returns (w': World)
    requires HasEqualStakers(w, n, tolerance) && 1 <= n <= 6 && 2 <= tolerance <= 5
    requires compound == Compound(UpTo(n), [10_000_000])
    ensures Timely(w, compound) && WellFormed(w, compound) && Apply(w, compound) == Ok(w')
    ensures PaysEpoch(w, UpTo(n), 0, w') && AllCompounded(w'.bundles, 0)
    ensures w'.pool.conf == SmallProgram(tolerance) && w'.pool.budgetRem == 1 + 5 % n
    ensures if 1 + 5 % n <= tolerance then EpochToPay(w'.pool) == Some(2) else Stalls(w, w')
    ensures EpochCompleted(w'.pool) <==> (1 + 5 % n) % 6 <= tolerance
  {
    w' := EqualPaid(w, n, tolerance, compound);
    EqualCompounded(w, n, tolerance, w');
    EqualOutcome(w, n, tolerance, w');
  }

  /**
   A run from an accepted deployment with up to six equal stakers who share one epoch of six units. The
   batch leaves `1 + 5 % n` of them. The pool advances exactly when the tolerance covers that, and otherwise
   stalls, with deposits and redeems blocked for two to five stakers and open for six.
   */
  lemma EqualStakers(n: nat, tolerance: u64)
    returns (ws: seq<World>, steps: seq<Step>, before: World, after: World)
    requires 1 <= n <= 6 && 2 <= tolerance <= 5
    ensures ValidatePool(SmallProgram(tolerance), 100, 0) == Accepted
    ensures IsTimelyRun(ws, steps) && Deployed(1, SmallProgram(tolerance), 100, 1) == Some(ws[0])
    ensures |steps| == n && ws[n - 1] == before && ws[n] == after && before.pool.budgetRem == 6
    ensures PaysEpoch(before, UpTo(n), 0, after) && AllCompounded(after.bundles, 0)
    ensures after.pool.conf == SmallProgram(tolerance) && after.pool.budgetRem == 1 + 5 % n
    ensures if 1 + 5 % n <= tolerance then EpochToPay(after.pool) == Some(2) else Stalls(before, after)
    ensures EpochCompleted(after.pool) <==> (1 + 5 % n) % 6 <= tolerance
  {
    var compound := Compound(UpTo(n), [10_000_000]);
    ws, steps := DepositRun(n, tolerance);
    before := ws[n - 1];
    after := LastBatch(before, n, tolerance, compound);
    TimelyRunExtends(ws, steps, compound, after);
    ws, steps := ws + [after], steps + [compound];
  }
}
