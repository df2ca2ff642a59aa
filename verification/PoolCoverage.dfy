/** What goes wrong when a bundle is not covered: the shares of an epoch add up to more than its allocation. */
module PoolCoverage {
  import opened Arith
  import opened Wrappers
  import opened LmPool
  import opened PoolEpochs
  import opened PoolRewards
  import opened PoolRuns

  // ---------------------------------------------------------------- the weights of an epoch

  /** The weight with which a bundle enters the rewards of the epoch: what it hands in, if anything. */
  ghost function Payable(b: Bundle, r: nat): nat {
    if Burnable(b, r) > 0 then Burnable(b, r) else 0
  }

  ghost function SumPayable(bs: seq<Bundle>, r: nat): nat {
    if bs == [] then 0 else SumPayable(bs[..|bs| - 1], r) + Payable(bs[|bs| - 1], r)
  }

  lemma {:induction false} PayableAboveBurnable(bs: seq<Bundle>, r: nat)
    ensures SumPayable(bs, r) >= SumBurnable(bs, r)
    ensures SumPayable(bs, r) == SumBurnable(bs, r) <==> Covered(bs, r)
  {
    if bs != [] {
      var front, last := bs[..|bs| - 1], bs[|bs| - 1];
      PayableAboveBurnable(front, r);
      MulDistributes(SumVlq(front), last.vlq, r);
      assert SumBurnable(bs, r) == SumBurnable(front, r) + Burnable(last, r);
      assert Covered(bs, r) <==> Covered(front, r) && Burnable(last, r) >= 0 by {
        assert bs == front + [last];
      }
    }
  }

  lemma {:induction false} PayableIsPositive(bs: seq<Bundle>, r: nat, i: nat)
    requires i < |bs| && Burnable(bs[i], r) > 0
    ensures SumPayable(bs, r) > 0
  {
    if i < |bs| - 1 { PayableIsPositive(bs[..|bs| - 1], r, i); }
  }

  /** The divisor of the reward formula, in a conserved state with or without coverage. */
  lemma DivisorIsBurnable(pool: Pool, bs: seq<Bundle>, r: u32)
    requires Conserved(pool, bs)
    ensures ActualTmp(pool, r) == if SumBurnable(bs, r) > 0 then SumBurnable(bs, r) else 0
  {
    MulNonNeg(r, SumVlq(bs));
    assert pool.reservesLq * r == r * SumVlq(bs);
  }

  /**
   In a conserved state some bundle of which can be paid, the weights of the epoch add up to the divisor of
   the reward formula exactly when every bundle is covered; otherwise they add up to more.
   */
  lemma WeightsMatchIff(pool: Pool, bs: seq<Bundle>, r: u32, i: nat)
    requires Conserved(pool, bs) && i < |bs| && Burnable(bs[i], r) > 0
    ensures SumPayable(bs, r) >= ActualTmp(pool, r)
    ensures SumPayable(bs, r) == ActualTmp(pool, r) <==> Covered(bs, r)
  {
    PayableAboveBurnable(bs, r);
    PayableIsPositive(bs, r, i);
    DivisorIsBurnable(pool, bs, r);
  }

  /** A bundle holds no more temporal tokens than all bundles together. */
  lemma {:induction false} TmpWithinTotal(bs: seq<Bundle>, i: nat)
    requires i < |bs|
    ensures TmpOf(bs[i]) <= SumTmp(bs)
  {
    if i < |bs| - 1 { TmpWithinTotal(bs[..|bs| - 1], i); }
  }

  /** The reward that the code computes for a payable bundle, whatever the divisor; `None` is an overflow. */
  lemma RewardOfPayable(pool: Pool, bs: seq<Bundle>, r: u32, b: Bundle)
    requires Conserved(pool, bs) && Backed(b) && Burnable(b, r) > 0
    ensures 0 <= AllocRem(pool, r) * Payable(b, r) < U128_LIMIT
    ensures RewardOf(pool, r, b) ==
            if pool.reservesLq * r >= U64_LIMIT then None
            else if ActualTmp(pool, r) == 0 then Some(0)
            else Some(AllocRem(pool, r) * Payable(b, r) / ActualTmp(pool, r) % U64_LIMIT)
  {
    WeightIsBurnable(b, r);
    var a, w := AllocRem(pool, r), Payable(b, r);
    assert a * b.vlq * EpochsBurned(b, r) == a * w;
    MulNonNeg(a, w);
    MulNonNeg(r, b.vlq);
    MulMono(a, U64_LIMIT, w);
    MulMono(w, U64_LIMIT, U64_LIMIT);
  }

  /** The exact shares of all payable bundles add up to more than the remaining allocation. */
  ghost predicate Overpromised(pool: Pool, bs: seq<Bundle>, r: u32)
    requires pool.conf.epochNum > 0
  {
    ActualTmp(pool, r) > 0 && AllocRem(pool, r) * SumPayable(bs, r) > AllocRem(pool, r) * ActualTmp(pool, r)
  }

  /** The bundle hands in its temporal tokens, the budget stays as it is. */
  ghost predicate PaidNothing(pool: Pool, r: u32, b: Bundle)
    requires pool.conf.epochNum > 0
  {
    var paid := PayBundle(pool, r, pool, b);
    && paid.Ok? && paid.value.reward == 0 && paid.value.pool.budgetRem == pool.budgetRem
    && TmpOf(paid.value.bundle) == TmpOf(b) - Burnable(b, r) < TmpOf(b)
  }

  lemma ZeroDivisorPaysNothing(pool: Pool, bs: seq<Bundle>, r: u32, i: nat)
    requires Conserved(pool, bs) && i < |bs| && Burnable(bs[i], r) > 0
    requires ActualTmp(pool, r) == 0 && pool.reservesLq * r < U64_LIMIT
    ensures PaidNothing(pool, r, bs[i])
  {
    RewardOfPayable(pool, bs, r, bs[i]);
    TmpWithinTotal(bs, i);
    MulNonNeg(r, bs[i].vlq);
    PayBundleResult(pool, r, pool, bs[i], 0);
  }

  /**
   What a missing cover costs. In a conserved state with an allocation to spend and a bundle to pay, exactly one
   of three things happens: every bundle is covered and the shares add up to the allocation; some bundle is not
   covered, the bundles together still hand in tokens, and the shares add up to more than the allocation; or
   they hand in none in total, and the bundle loses its tokens for nothing, unless the arithmetic traps.
   */
  lemma CoverageOutcome(pool: Pool, bs: seq<Bundle>, r: u32, i: nat)
    requires Conserved(pool, bs) && i < |bs| && Burnable(bs[i], r) > 0 && AllocRem(pool, r) > 0
    ensures SumBurnable(bs, r) > 0 ==> (Overpromised(pool, bs, r) <==> !Covered(bs, r))
    ensures SumBurnable(bs, r) > 0 && Covered(bs, r) ==>
              AllocRem(pool, r) * SumPayable(bs, r) == AllocRem(pool, r) * ActualTmp(pool, r)
    ensures SumBurnable(bs, r) <= 0 ==> !Covered(bs, r) && !Overpromised(pool, bs, r)
    ensures SumBurnable(bs, r) <= 0 ==>
              if pool.reservesLq * r < U64_LIMIT then PaidNothing(pool, r, bs[i])
              else PayBundle(pool, r, pool, bs[i]) == Trapped
  {
    WeightsMatchIff(pool, bs, r, i);
    DivisorIsBurnable(pool, bs, r);
    PayableIsPositive(bs, r, i);
    PayableAboveBurnable(bs, r);
    if SumBurnable(bs, r) > 0 {
      MoreWeightMoreShare(AllocRem(pool, r), SumPayable(bs, r), ActualTmp(pool, r));
    } else if pool.reservesLq * r < U64_LIMIT {
      ZeroDivisorPaysNothing(pool, bs, r, i);
    } else {
      RewardOfPayable(pool, bs, r, bs[i]);
      WeightIsBurnable(bs[i], r);
    }
  }

  lemma MoreWeightMoreShare(a: nat, s: nat, t: nat)
    requires a > 0 && s >= t
    ensures a * s > a * t <==> s > t
    ensures s == t ==> a * s == a * t
  {
    if s > t {
      MulMono(t + 1, s, a);
      MulDistributes(t, 1, a);
    }
  }

  /** What the reward formula pays to all payable bundles together. */
  ghost function SumRewards(pool: Pool, bs: seq<Bundle>, r: u32): nat
    requires pool.conf.epochNum > 0 && ActualTmp(pool, r) > 0
  {
    if bs == [] then 0
    else
      var a, w, t := AllocRem(pool, r), Payable(bs[|bs| - 1], r), ActualTmp(pool, r);
      MulNonNeg(a, w);
      DivNonNeg(a * w, t);
      SumRewards(pool, bs[..|bs| - 1], r) + a * w / t
  }

  lemma {:induction false} RewardsNearShares(pool: Pool, bs: seq<Bundle>, r: u32)
    requires pool.conf.epochNum > 0 && ActualTmp(pool, r) > 0
    ensures var paid, t, shares := SumRewards(pool, bs, r), ActualTmp(pool, r), AllocRem(pool, r) * SumPayable(bs, r);
            paid * t <= shares <= paid * t + |bs| * (t - 1)
  {
    if bs != [] {
      var front, last := bs[..|bs| - 1], bs[|bs| - 1];
      RewardsNearShares(pool, front, r);
      ShareStep(AllocRem(pool, r), ActualTmp(pool, r), Payable(last, r), SumPayable(front, r),
                SumRewards(pool, front, r), |front|);
    }
  }

  /** Rounding down hides less than one unit per bundle: beyond that the rewards themselves exceed the allocation. */
  lemma OverspendsBeyondDust(pool: Pool, bs: seq<Bundle>, r: u32)
    requires pool.conf.epochNum > 0 && ActualTmp(pool, r) > 0
    requires AllocRem(pool, r) * SumPayable(bs, r) >
             AllocRem(pool, r) * ActualTmp(pool, r) + |bs| * (ActualTmp(pool, r) - 1)
    ensures SumRewards(pool, bs, r) > AllocRem(pool, r)
  {
    RewardsNearShares(pool, bs, r);
    if SumRewards(pool, bs, r) <= AllocRem(pool, r) {
      MulMono(SumRewards(pool, bs, r), AllocRem(pool, r), ActualTmp(pool, r));
      assert false;
    }
  }

  // ---------------------------------------------------------------- a late deposit

  /** Four epochs of ten blocks and a hundred units each. */
  function FourEpochs(): ProgramConfig {
    ProgramConfig(10, 4, 1000, 10, 10, 400)
  }

  /** The deployed pool once its only bundle has been paid for the first epoch. */
  lemma FirstEpochPaid() returns (w: World, compound: Step, w': World)
    ensures ValidatePool(FourEpochs(), 300, 0) == Accepted
    ensures Deployed(1, FourEpochs(), 300, 4) == Some(w)
    ensures compound == Compound([0], [10_000_000]) && WellFormed(w, compound) && Apply(w, compound) == Ok(w')
    ensures w'.pool == w.pool.(budgetRem := 301, reservesTmp := MAX_VALUE - 900, epochIx := Some(1))
    ensures w'.bundles == [Bundle(1, 300, Some(900), MIN_SAFE_FAT_BOX_VALUE)]
  {
    w := Deployed(1, FourEpochs(), 300, 4).value;
    compound := Compound([0], [10_000_000]);
    assert EpochToPay(w.pool) == Some(1) && AllocRem(w.pool, 3) == 99 && ActualTmp(w.pool, 3) == 300;
    assert RewardOf(w.pool, 3, w.bundles[0]) == Some(99);
    PayOne(w, 3, [10_000_000]);
    w' := Apply(w, compound).value;
  }

  /** A batch of one bundle. */
  lemma PayOne(w: World, r: u32, funding: seq<u64>)
    requires |w.bundles| > 0 && EpochToPay(w.pool).Some?
    requires r == EpochsRemainAfter(w.pool.conf, EpochToPay(w.pool).value)
    requires funding == [10_000_000]
    ensures w.pool.conf.epochNum > 0
    ensures match PayBundle(w.pool, r, w.pool, w.bundles[0])
            case Trapped => Apply(w, Compound([0], funding)) == Trapped
            case Err(e) => Apply(w, Compound([0], funding)) == Err(e)
            case Ok(p) =>
              Apply(w, Compound([0], funding)) ==
              Ok(World(p.pool.(epochIx := EpochToPay(w.pool)), w.bundles[0 := p.bundle]))
  {
    var b := w.bundles[0];
    assert BatchOf(w.bundles, [0]) == [b] && [b][..0] == [];
    assert PayAll(w.pool, r, []) == Ok(Batch(w.pool, [], []));
    assert SumOf([10_000_000]) == 10_000_000;
    var p := PayBundle(w.pool, r, w.pool, b);
    if p.Ok? {
      assert [] + [p.value.bundle] == [p.value.bundle] && [] + [p.value.reward] == [p.value.reward];
      assert PayAll(w.pool, r, [b]) == Ok(Batch(p.value.pool, [p.value.bundle], [p.value.reward]));
      var ids: seq<nat> := [0];
      assert ids[..0] == [] && [p.value.bundle][..0] == [];
      assert WriteBack(w.bundles, ids, [p.value.bundle]) == w.bundles[0 := p.value.bundle];
    }
  }

  /** A deposit in the third epoch while the second one is being paid: accepted, and its bundle is not covered. */
  lemma LateDeposit(w: World, lq: u64, deposit: Step) returns (w': World)
    requires w.pool == Pool(1, 301, 300, MAX_VALUE - 300, MAX_VALUE - 900, Some(1), FourEpochs(),
                            MIN_SAFE_FAT_BOX_VALUE)
    requires w.bundles == [Bundle(1, 300, Some(900), MIN_SAFE_FAT_BOX_VALUE)]
    requires 1 <= lq <= 300 && deposit == Deposit(DepositOrder(lq, 10_000_000, 1), 1025)
    ensures WellFormed(w, deposit) && Apply(w, deposit) == Ok(w') && !Timely(w, deposit)
    ensures w'.pool == w.pool.(reservesLq := 300 + lq, reservesVlq := MAX_VALUE - 300 - lq,
                               reservesTmp := MAX_VALUE - 900 - lq)
    ensures w'.bundles == w.bundles + [Bundle(1, lq, Some(lq), MIN_SAFE_FAT_BOX_VALUE)]
  {
    assert CurrentEpochIx(w.pool.conf, 1025) == Some(3) && EpochToPay(w.pool) == Some(2);
    w' := Apply(w, deposit).value;
  }

  /**
   A run from an accepted deployment with a late deposit, and the next batch. After a deposit of 200 the first
   staker is paid 300 for the second epoch although 100 may be spent, which leaves one unit for the two epochs
   to come. After one of 201 the payment traps. After one of 300 the divisor is zero: the staker is paid nothing
   and hands in 300 temporal tokens for it.
   */
  lemma LateDepositOverspends(lq: u64) returns (ws: seq<World>, steps: seq<Step>)
    requires lq in {200, 201, 300}
    ensures ValidatePool(FourEpochs(), 300, 0) == Accepted
    ensures IsRun(ws, steps) && |steps| == 2 && Deployed(1, FourEpochs(), 300, 4) == Some(ws[0])
    ensures EpochToPay(ws[2].pool) == Some(2) && ws[2].pool.conf == FourEpochs() && ws[2].pool.budgetRem == 301
    ensures AllocRem(ws[2].pool, 2) == 100 && LaterAlloc(FourEpochs(), 2) == 200
    ensures |ws[2].bundles| == 2 && ws[2].bundles[0].tmp == Some(900)
    ensures WellFormed(ws[2], Compound([0], [10_000_000])) && LateOutcome(ws[2], lq)
  {
    var w0, compound, w1 := FirstEpochPaid();
    var deposit := Deposit(DepositOrder(lq, 10_000_000, 1), 1025);
    var w2 := LateDeposit(w1, lq, deposit);
    ws, steps := [w0, w1, w2], [compound, deposit];
    SecondEpochPaid(w2, lq);
  }

  /** What the next batch does, by the size of the late deposit. */
  ghost predicate LateOutcome(w: World, lq: u64)
    requires WellFormed(w, Compound([0], [10_000_000]))
  {
    var next := Apply(w, Compound([0], [10_000_000]));
    && (lq == 200 ==> next.Ok? && next.value.pool.budgetRem == 1)
    && (lq == 201 ==> next == Trapped)
    && (lq == 300 ==> next.Ok? && next.value.pool.budgetRem == w.pool.budgetRem
                      && |next.value.bundles| == 2 && next.value.bundles[0].tmp == Some(600))
  }

  lemma SecondEpochPaid(w: World, lq: u64)
    requires lq in {200, 201, 300}
    requires w.pool == Pool(1, 301, 300 + lq, MAX_VALUE - 300 - lq, MAX_VALUE - 900 - lq, Some(1), FourEpochs(),
                            MIN_SAFE_FAT_BOX_VALUE)
    requires w.bundles == [Bundle(1, 300, Some(900), MIN_SAFE_FAT_BOX_VALUE)]
                          + [Bundle(1, lq, Some(lq), MIN_SAFE_FAT_BOX_VALUE)]
    ensures EpochToPay(w.pool) == Some(2) && AllocRem(w.pool, 2) == 100 && LaterAlloc(FourEpochs(), 2) == 200
    ensures WellFormed(w, Compound([0], [10_000_000])) && LateOutcome(w, lq)
  {
    var b := w.bundles[0];
    assert EpochToPay(w.pool) == Some(2) && AllocRem(w.pool, 2) == 100 && EpochsBurned(b, 2) == 1;
    assert ActualTmp(w.pool, 2) == 300 - lq;
    assert RewardOf(w.pool, 2, b) == Some(if lq == 200 then 300 else if lq == 201 then 303 else 0);
    PayOne(w, 2, [10_000_000]);
  }
}
