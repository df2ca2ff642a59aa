/** What a batch of rewards adds up to: solvency, the exact state after a batch, and rounding slack. */
module PoolRewards {
  import opened Arith
  import opened Wrappers
  import opened LmPool
  import opened PoolEpochs

  // ---------------------------------------------------------------- outstanding bundles

  function SumVlq(bs: seq<Bundle>): nat {
    if bs == [] then 0 else SumVlq(bs[..|bs| - 1]) + bs[|bs| - 1].vlq
  }

  function SumTmp(bs: seq<Bundle>): nat {
    if bs == [] then 0 else SumTmp(bs[..|bs| - 1]) + TmpOf(bs[|bs| - 1])
  }

  /** The bundle stakes something and holds temporal tokens for a whole number of epochs. */
  ghost predicate Backed(b: Bundle) {
    b.vlq > 0 && TmpOf(b) % b.vlq == 0
  }

  ghost predicate AllBacked(bs: seq<Bundle>) {
    forall i :: 0 <= i < |bs| ==> Backed(bs[i])
  }

  /** Temporal tokens the bundle hands in when an epoch with `epochsRemain` epochs after it is paid. */
  ghost function Burnable(b: Bundle, epochsRemain: nat): int {
    TmpOf(b) - epochsRemain * b.vlq
  }

  ghost function SumBurnable(bs: seq<Bundle>, epochsRemain: nat): int {
    SumTmp(bs) - epochsRemain * SumVlq(bs)
  }

  /** No bundle has been paid for an epoch later than the one being paid. */
  ghost predicate Covered(bs: seq<Bundle>, epochsRemain: nat) {
    forall i :: 0 <= i < |bs| ==> Burnable(bs[i], epochsRemain) >= 0
  }

  /** Token conservation between a pool and its outstanding bundles. */
  ghost predicate Conserved(pool: Pool, bs: seq<Bundle>) {
    && ValidProgram(pool.conf)
    && 0 < pool.budgetRem <= pool.conf.programBudget
    && pool.reservesLq + pool.reservesVlq == MAX_VALUE
    && pool.reservesVlq + SumVlq(bs) == MAX_VALUE
    && pool.reservesTmp + SumTmp(bs) == MAX_VALUE
    && AllBacked(bs)
  }

  lemma {:induction false} SumsAfterUpdate(bs: seq<Bundle>, i: nat, b: Bundle)
    requires i < |bs|
    ensures SumVlq(bs[i := b]) == SumVlq(bs) - bs[i].vlq + b.vlq
    ensures SumTmp(bs[i := b]) == SumTmp(bs) - TmpOf(bs[i]) + TmpOf(b)
  {
    var last := |bs| - 1;
    if i == last {
      assert bs[i := b][..last] == bs[..last];
    } else {
      assert bs[i := b][..last] == bs[..last][i := b];
      SumsAfterUpdate(bs[..last], i, b);
    }
  }

  lemma {:induction false} BurnableIsNonNegative(bs: seq<Bundle>, epochsRemain: nat)
    requires Covered(bs, epochsRemain)
    ensures SumBurnable(bs, epochsRemain) >= 0
  {
    if bs != [] {
      var front, last := bs[..|bs| - 1], bs[|bs| - 1];
      BurnableIsNonNegative(front, epochsRemain);
      assert epochsRemain * SumVlq(bs) == epochsRemain * SumVlq(front) + epochsRemain * last.vlq;
    }
  }

  /** A bundle's share never exceeds what is outstanding. */
  lemma BurnableWithinTotal(bs: seq<Bundle>, epochsRemain: nat, i: nat)
    requires Covered(bs, epochsRemain) && i < |bs|
    requires epochsRemain * bs[i].vlq < U64_LIMIT
    ensures Burnable(bs[i], epochsRemain) <= SumBurnable(bs, epochsRemain)
  {
    MulNonNeg(epochsRemain, bs[i].vlq);
    var paid := bs[i].(tmp := Some(epochsRemain * bs[i].vlq));
    SumsAfterUpdate(bs, i, paid);
    BurnableIsNonNegative(bs[i := paid], epochsRemain);
  }

  // ---------------------------------------------------------------- the snapshot of a batch

  lemma LaterAllocBounds(conf: ProgramConfig, r: u32)
    requires ValidProgram(conf) && r <= conf.epochNum
    ensures r * EpochAlloc(conf) <= LaterAlloc(conf, r) <= r * EpochAlloc(conf) + r
  {
    ProgramBounds(conf);
    var n: nat, alloc: nat := conf.epochNum, EpochAlloc(conf);
    LaterAllocBracket(conf.programBudget, n, alloc, conf.programBudget - n * alloc, r);
  }

  lemma LaterAllocBracket(budget: nat, n: nat, alloc: nat, rem: nat, r: nat)
    requires rem < n && budget == n * alloc + rem
    ensures 0 <= budget * r
    ensures r * alloc <= budget * r / n <= r * alloc + r
  {
    MulNonNeg(budget, r);
    MulNonNeg(r, alloc);
    MulDistributes(n * alloc, rem, r);
    MulSwap(n, alloc, r);
    MulSwap(r, alloc, n);
    assert budget * r == (r * alloc) * n + rem * r;
    MulMono(rem, n, r);
    MulDistributes(r * alloc, r + 1, n);
    MulDistributes(r, 1, n);
    MulNonNeg(rem, r);
    DivAtLeast(budget * r, n, r * alloc);
    DivAtMost(budget * r, n, r * alloc + r);
  }

  /** The budget always exceeds what later epochs are owed. */
  lemma BudgetAboveLater(pool: Pool)
    requires ValidProgram(pool.conf) && 0 < pool.budgetRem <= pool.conf.programBudget
    ensures LaterAlloc(pool.conf, EpochsRemain(pool)) < pool.budgetRem
    ensures AllocRem(pool, EpochsRemain(pool)) == pool.budgetRem - LaterAlloc(pool.conf, EpochsRemain(pool)) - 1
  {
    EpochOfBudget(pool);
    ProgramBounds(pool.conf);
    LaterAllocBounds(pool.conf, EpochsRemain(pool));
  }

  /** On a conserved and covered state the snapshot computes exactly the outstanding temporal tokens. */
  lemma SnapshotFacts(pool: Pool, bs: seq<Bundle>, r: u32)
    requires Conserved(pool, bs) && Covered(bs, r)
    ensures SumBurnable(bs, r) >= 0
    ensures ActualTmp(pool, r) == SumBurnable(bs, r) <= MAX_VALUE
    ensures pool.reservesLq * r <= MAX_VALUE
  {
    BurnableIsNonNegative(bs, r);
    MulNonNeg(r, SumVlq(bs));
    assert pool.reservesLq * r == r * SumVlq(bs);
  }

  /** The weight in the reward formula is the bundle's burnable amount. */
  lemma WeightIsBurnable(b: Bundle, r: u32)
    requires Backed(b)
    ensures EpochsBurned(b, r) >= 1 <==> Burnable(b, r) > 0
    ensures Burnable(b, r) >= 0 ==> b.vlq * EpochsBurned(b, r) == Burnable(b, r)
  {
    var k := TmpOf(b) / b.vlq;
    DivMod(TmpOf(b), b.vlq);
    DivNonNeg(TmpOf(b), b.vlq);
    assert (k - r) * b.vlq == k * b.vlq - r * b.vlq;
    if k >= r + 1 { MulMono(1, k - r, b.vlq); }
    if k <= r { MulMono(k, r, b.vlq); }
    if k < r { MulMono(k + 1, r, b.vlq); assert (k + 1) * b.vlq == k * b.vlq + b.vlq; }
  }

  /** A reward is the floored pro-rata share: nothing overflows and the cast loses nothing. */
  lemma RewardIsShare(pool: Pool, bs: seq<Bundle>, r: u32, b: Bundle)
    requires Conserved(pool, bs) && Covered(bs, r) && Backed(b)
    requires 0 < Burnable(b, r) <= SumBurnable(bs, r)
    ensures var share := AllocRem(pool, r) * Burnable(b, r) / SumBurnable(bs, r);
            && 0 <= share <= AllocRem(pool, r)
            && RewardOf(pool, r, b) == Some(share)
  {
    SnapshotFacts(pool, bs, r);
    WeightIsBurnable(b, r);
    var a, w, t := AllocRem(pool, r), Burnable(b, r), SumBurnable(bs, r);
    assert a * b.vlq * EpochsBurned(b, r) == a * w;
    ShareBound(a, w, t);
    ProductFits(a, w);
    SmallMod(a * w / t, U64_LIMIT);
  }

  lemma ShareBound(a: nat, w: nat, t: nat)
    requires 0 < w <= t
    ensures 0 <= a * w
    ensures 0 <= a * w / t <= a
  {
    MulNonNeg(a, w);
    DivNonNeg(a * w, t);
    assert (a + 1) * t == a * t + t;
    MulMono(w, t, a);
    DivAtMost(a * w, t, a);
  }

  lemma ProductFits(a: nat, w: nat)
    requires a < U64_LIMIT && w <= MAX_VALUE
    ensures a * w < U128_LIMIT
  {
    MulMono(a, U64_LIMIT, w);
  }

  lemma SmallMod(a: nat, b: nat)
    requires a < b
    ensures a % b == a
  {
  }

  // ---------------------------------------------------------------- one batch

  ghost predicate ValidBatch(bs: seq<Bundle>, ids: seq<nat>) {
    && (forall j :: 0 <= j < |ids| ==> ids[j] < |bs|)
    && (forall j, k :: 0 <= j < k < |ids| ==> ids[j] != ids[k])
  }

  /** The bundles a batch is made of. */
  function BatchOf(bs: seq<Bundle>, ids: seq<nat>): (r: seq<Bundle>)
    requires forall j :: 0 <= j < |ids| ==> ids[j] < |bs|
  {
    seq(|ids|, j requires 0 <= j < |ids| => bs[ids[j]])
  }

  /** Outstanding bundles once the successors of a batch replace their predecessors. */
  function WriteBack(bs: seq<Bundle>, ids: seq<nat>, paid: seq<Bundle>): (r: seq<Bundle>)
    requires forall j :: 0 <= j < |ids| ==> ids[j] < |bs|
    requires |ids| == |paid|
    ensures |r| == |bs|
  {
    if ids == [] then bs
    else
      var n := |ids| - 1;
      WriteBack(bs, ids[..n], paid[..n])[ids[n] := paid[n]]
  }

  lemma {:induction false} WriteBackElsewhere(bs: seq<Bundle>, ids: seq<nat>, paid: seq<Bundle>, i: nat)
    requires forall j :: 0 <= j < |ids| ==> ids[j] < |bs|
    requires |ids| == |paid| && i < |bs| && i !in ids
    ensures WriteBack(bs, ids, paid)[i] == bs[i]
  {
    if ids != [] {
      WriteBackElsewhere(bs, ids[..|ids| - 1], paid[..|ids| - 1], i);
    }
  }

  /** Sums of floors: one more share is within one unit of exactness. */
  lemma ShareStep(a: nat, t: nat, w: nat, paidW: nat, paidR: nat, n: nat)
    requires t > 0
    requires paidR * t <= a * paidW <= paidR * t + n * (t - 1)
    ensures 0 <= a * w
    ensures var r := a * w / t;
            (paidR + r) * t <= a * (paidW + w) <= (paidR + r) * t + (n + 1) * (t - 1)
  {
    MulNonNeg(a, w);
    DivMod(a * w, t);
    var r := a * w / t;
    assert (paidR + r) * t == paidR * t + r * t;
    assert a * (paidW + w) == a * paidW + a * w;
    assert (n + 1) * (t - 1) == n * (t - 1) + (t - 1);
  }

  /** Each bundle of the batch got its floored share and kept tokens for the remaining epochs only. */
  ghost predicate PaidEach(pool: Pool, bs: seq<Bundle>, ids: seq<nat>, r: u32, batch: Batch)
    requires ValidBatch(bs, ids) && pool.conf.epochNum > 0
  {
    && |batch.bundles| == |batch.rewards| == |ids|
    && forall j :: 0 <= j < |ids| ==>
         && SumBurnable(bs, r) > 0
         && batch.rewards[j] == AllocRem(pool, r) * Burnable(bs[ids[j]], r) / SumBurnable(bs, r)
         && batch.bundles[j] == Compounded(bs[ids[j]], r)
  }

  /** A bundle once the epoch with `r` epochs after it has been paid. */
  ghost function Compounded(b: Bundle, r: u32): Bundle
  {
    MulNonNeg(r, b.vlq);
    if 0 < r * b.vlq < U64_LIMIT then b.(tmp := Some(r * b.vlq)) else b.(tmp := None)
  }

  /** Totals of a paid batch, in terms of the snapshot only. */
  ghost predicate PaidTotals(
    pool: Pool, bs: seq<Bundle>, bs': seq<Bundle>, r: u32, n: nat, spent: nat, pool': Pool)
    requires pool.conf.epochNum > 0
  {
    var total, alloc := SumBurnable(bs, r), AllocRem(pool, r);
    var collected := total - SumBurnable(bs', r);
    && spent <= pool.budgetRem
    && 0 <= collected && pool.reservesTmp + collected <= MAX_VALUE
    && pool' == pool.(budgetRem := pool.budgetRem - spent, reservesTmp := pool.reservesTmp + collected)
    && SumVlq(bs') == SumVlq(bs)
    && SumTmp(bs') == SumTmp(bs) - collected
    && spent * total <= alloc * collected <= spent * total + n * (total - 1)
  }

  /** What a paid batch did. */
  ghost predicate PaidExactly(pool: Pool, bs: seq<Bundle>, ids: seq<nat>, r: u32, batch: Batch)
    requires ValidBatch(bs, ids) && pool.conf.epochNum > 0
  {
    && PaidEach(pool, bs, ids, r, batch)
    && var bs' := WriteBack(bs, ids, batch.bundles);
    && PaidTotals(pool, bs, bs', r, |ids|, SumOf(batch.rewards), batch.pool)
    && Covered(bs', r)
    && AllBacked(bs')
  }

  /** What is left to collect never goes negative, so shares never outrun the allocation. */
  lemma SpentWithinAlloc(spent: nat, total: nat, alloc: nat, collected: nat)
    requires 0 < total && collected <= total
    requires spent * total <= alloc * collected
    ensures spent <= alloc
  {
    MulMono(collected, total, alloc);
    assert alloc * collected <= alloc * total;
    MulCancel(spent, alloc, total);
  }

  /** What `PayBundle` returns once its reward is known and affordable. */
  lemma PayBundleResult(pool: Pool, r: u32, next: Pool, b: Bundle, share: u64)
    requires pool.conf.epochNum > 0 && Backed(b) && Burnable(b, r) > 0
    requires RewardOf(pool, r, b) == Some(share)
    requires share < next.budgetRem && next.reservesTmp + Burnable(b, r) <= MAX_VALUE
    ensures 0 <= r * b.vlq < U64_LIMIT
    ensures PayBundle(pool, r, next, b) ==
            Ok(Payment(
                 next.(budgetRem := next.budgetRem - share, reservesTmp := next.reservesTmp + Burnable(b, r)),
                 Compounded(b, r),
                 share))
  {
    MulNonNeg(r, b.vlq);
    WeightIsBurnable(b, r);
  }

  /** The share of the next bundle, and what it leaves for the others. */
  lemma NextShare(pool: Pool, bs: seq<Bundle>, ids: seq<nat>, r: u32, paid: Batch)
    requires Conserved(pool, bs) && Covered(bs, r)
    requires ids != [] && ValidBatch(bs, ids)
    requires PaidExactly(pool, bs, ids[..|ids| - 1], r, paid)
    requires Burnable(bs[ids[|ids| - 1]], r) > 0
    ensures var b := bs[ids[|ids| - 1]];
            var collected := SumBurnable(bs, r) - SumBurnable(WriteBack(bs, ids[..|ids| - 1], paid.bundles), r);
            && collected + Burnable(b, r) <= SumBurnable(bs, r)
            && paid.pool.reservesTmp + Burnable(b, r) <= MAX_VALUE
  {
    var n := |ids| - 1;
    var b := bs[ids[n]];
    var bs' := WriteBack(bs, ids[..n], paid.bundles);
    MulNonNeg(r, b.vlq);
    WriteBackElsewhere(bs, ids[..n], paid.bundles, ids[n]);
    BurnableWithinTotal(bs', r, ids[n]);
    TmpCoversBurnable(bs', r);
  }

  /** The next bundle of a batch can be paid: no trap, no depleted budget. */
  lemma PayNext(pool: Pool, bs: seq<Bundle>, ids: seq<nat>, r: u32, paid: Batch)
    requires Conserved(pool, bs) && r == EpochsRemain(pool) && Covered(bs, r)
    requires ids != [] && ValidBatch(bs, ids)
    requires PaidExactly(pool, bs, ids[..|ids| - 1], r, paid)
    requires Burnable(bs[ids[|ids| - 1]], r) > 0
    ensures var b := bs[ids[|ids| - 1]];
            && SumBurnable(bs, r) > 0
            && var share := AllocRem(pool, r) * Burnable(b, r) / SumBurnable(bs, r);
            && 0 <= share < paid.pool.budgetRem
            && RewardOf(pool, r, b) == Some(share)
            && paid.pool.reservesTmp + Burnable(b, r) <= MAX_VALUE
  {
    var n := |ids| - 1;
    var b, alloc, total := bs[ids[n]], AllocRem(pool, r), SumBurnable(bs, r);
    var collected := total - SumBurnable(WriteBack(bs, ids[..n], paid.bundles), r);
    NextShare(pool, bs, ids, r, paid);
    RewardIsShare(pool, bs, r, b);
    ShareStep(alloc, total, Burnable(b, r), collected, SumOf(paid.rewards), n);
    SpentWithinAlloc(SumOf(paid.rewards) + alloc * Burnable(b, r) / total, total, alloc, collected + Burnable(b, r));
    BudgetAboveLater(pool);
  }

  /** What can be burned is actually held. */
  lemma TmpCoversBurnable(bs: seq<Bundle>, r: nat)
    ensures SumBurnable(bs, r) <= SumTmp(bs)
  {
    MulNonNeg(r, SumVlq(bs));
  }

  /** Totals after one more bundle. */
  lemma TotalsExtend(pool: Pool, bs: seq<Bundle>, before: seq<Bundle>, r: u32, n: nat, spent: nat, mid: Pool,
                     i: nat, share: nat)
    requires pool.conf.epochNum > 0 && i < |before|
    requires PaidTotals(pool, bs, before, r, n, spent, mid)
    requires SumBurnable(bs, r) > 0 && Burnable(before[i], r) > 0
    requires share == AllocRem(pool, r) * Burnable(before[i], r) / SumBurnable(bs, r)
    requires share < mid.budgetRem && mid.reservesTmp + Burnable(before[i], r) <= MAX_VALUE
    ensures PaidTotals(pool, bs, before[i := Compounded(before[i], r)], r, n + 1, spent + share,
                       mid.(budgetRem := mid.budgetRem - share,
                            reservesTmp := mid.reservesTmp + Burnable(before[i], r)))
  {
    var b := before[i];
    MulNonNeg(r, b.vlq);
    SumsAfterUpdate(before, i, Compounded(b, r));
    ShareStep(AllocRem(pool, r), SumBurnable(bs, r), Burnable(b, r),
              SumBurnable(bs, r) - SumBurnable(before, r), spent, n);
  }

  /** Extending a batch by one bundle extends what has been paid exactly. */
  lemma PaidExtends(pool: Pool, bs: seq<Bundle>, ids: seq<nat>, r: u32, paid: Batch, share: u64)
    requires Conserved(pool, bs) && Covered(bs, r)
    requires ids != [] && ValidBatch(bs, ids)
    requires PaidExactly(pool, bs, ids[..|ids| - 1], r, paid)
    requires var b := bs[ids[|ids| - 1]];
             && SumBurnable(bs, r) > 0 && Burnable(b, r) > 0
             && share == AllocRem(pool, r) * Burnable(b, r) / SumBurnable(bs, r)
             && share < paid.pool.budgetRem && paid.pool.reservesTmp + Burnable(b, r) <= MAX_VALUE
    ensures var b := bs[ids[|ids| - 1]];
            PaidExactly(pool, bs, ids, r,
                        Batch(paid.pool.(budgetRem := paid.pool.budgetRem - share,
                                         reservesTmp := paid.pool.reservesTmp + Burnable(b, r)),
                              paid.bundles + [Compounded(b, r)], paid.rewards + [share]))
  {
    var n := |ids| - 1;
    var b := bs[ids[n]];
    var before := WriteBack(bs, ids[..n], paid.bundles);
    var pool' := paid.pool.(budgetRem := paid.pool.budgetRem - share,
                            reservesTmp := paid.pool.reservesTmp + Burnable(b, r));
    LastExtends(bs, ids, paid, Compounded(b, r), share);
    WriteBackElsewhere(bs, ids[..n], paid.bundles, ids[n]);
    TotalsExtend(pool, bs, before, r, n, SumOf(paid.rewards), paid.pool, ids[n], share);
    CompoundedIsBacked(b, r);
    UpdateKeepsCovered(before, r, ids[n], Compounded(b, r));
    EachExtends(pool, bs, ids, r, paid, share, pool');
  }

  lemma LastExtends(bs: seq<Bundle>, ids: seq<nat>, paid: Batch, b: Bundle, share: u64)
    requires ids != [] && ValidBatch(bs, ids) && |paid.bundles| == |paid.rewards| == |ids| - 1
    ensures WriteBack(bs, ids, paid.bundles + [b])
            == WriteBack(bs, ids[..|ids| - 1], paid.bundles)[ids[|ids| - 1] := b]
    ensures SumOf(paid.rewards + [share]) == SumOf(paid.rewards) + share
  {
  }

  lemma UpdateKeepsCovered(bs: seq<Bundle>, r: nat, i: nat, b: Bundle)
    requires i < |bs| && Covered(bs, r) && AllBacked(bs)
    requires Backed(b) && Burnable(b, r) >= 0
    ensures Covered(bs[i := b], r) && AllBacked(bs[i := b])
  {
  }

  lemma EachExtends(pool: Pool, bs: seq<Bundle>, ids: seq<nat>, r: u32, paid: Batch, share: u64, pool': Pool)
    requires ids != [] && ValidBatch(bs, ids) && pool.conf.epochNum > 0
    requires PaidEach(pool, bs, ids[..|ids| - 1], r, paid)
    requires var b := bs[ids[|ids| - 1]];
             SumBurnable(bs, r) > 0 && share == AllocRem(pool, r) * Burnable(b, r) / SumBurnable(bs, r)
    ensures PaidEach(pool, bs, ids, r,
                     Batch(pool', paid.bundles + [Compounded(bs[ids[|ids| - 1]], r)], paid.rewards + [share]))
  {
  }

  lemma CompoundedIsBacked(b: Bundle, r: u32)
    requires Backed(b) && Burnable(b, r) > 0
    ensures Backed(Compounded(b, r)) && Burnable(Compounded(b, r), r) == 0
  {
    MultipleIsBacked(r, b.vlq);
  }

  lemma MultipleIsBacked(r: nat, vlq: nat)
    requires vlq > 0
    ensures 0 <= r * vlq
    ensures r * vlq % vlq == 0
  {
    MulNonNeg(r, vlq);
    DivUnique(r * vlq, vlq, r, 0);
  }

  lemma PayAllLast(pool: Pool, r: u32, bundles: seq<Bundle>, front: seq<Bundle>, paid: Batch)
    requires pool.conf.epochNum > 0 && bundles != [] && front == bundles[..|bundles| - 1]
    requires PayAll(pool, r, front) == Ok(paid)
    requires PayBundle(pool, r, paid.pool, bundles[|bundles| - 1]).Ok?
    ensures var p := PayBundle(pool, r, paid.pool, bundles[|bundles| - 1]).value;
            PayAll(pool, r, bundles) == Ok(Batch(p.pool, paid.bundles + [p.bundle], paid.rewards + [p.reward]))
  {
  }

  /**
   Solvency. On a conserved pool whose bundles are covered, a batch of distinct bundles that have not
   been compounded yet always succeeds, and is paid exactly the floored shares of the snapshot.
   */
  lemma {:induction false} BatchIsSolvent(pool: Pool, bs: seq<Bundle>, ids: seq<nat>, r: u32)
    requires Conserved(pool, bs) && r == EpochsRemain(pool) && Covered(bs, r)
    requires ValidBatch(bs, ids)
    requires forall j :: 0 <= j < |ids| ==> Burnable(bs[ids[j]], r) > 0
    ensures PayAll(pool, r, BatchOf(bs, ids)).Ok?
    ensures PaidExactly(pool, bs, ids, r, PayAll(pool, r, BatchOf(bs, ids)).value)
  {
    if ids == [] {
      NothingPaid(pool, bs, r);
    } else {
      var n := |ids| - 1;
      BatchIsSolvent(pool, bs, ids[..n], r);
      assert BatchOf(bs, ids)[..n] == BatchOf(bs, ids[..n]);
      SolventStep(pool, bs, ids, r, PayAll(pool, r, BatchOf(bs, ids[..n])).value);
    }
  }

  lemma NothingPaid(pool: Pool, bs: seq<Bundle>, r: u32)
    requires Conserved(pool, bs) && Covered(bs, r)
    ensures PaidExactly(pool, bs, [], r, Batch(pool, [], []))
  {
    assert PaidTotals(pool, bs, bs, r, 0, 0, pool);
  }

  lemma SolventStep(pool: Pool, bs: seq<Bundle>, ids: seq<nat>, r: u32, paid: Batch)
    requires Conserved(pool, bs) && r == EpochsRemain(pool) && Covered(bs, r)
    requires ids != [] && ValidBatch(bs, ids)
    requires Burnable(bs[ids[|ids| - 1]], r) > 0
    requires PayAll(pool, r, BatchOf(bs, ids)[..|ids| - 1]) == Ok(paid)
    requires PaidExactly(pool, bs, ids[..|ids| - 1], r, paid)
    ensures PayAll(pool, r, BatchOf(bs, ids)).Ok?
    ensures PaidExactly(pool, bs, ids, r, PayAll(pool, r, BatchOf(bs, ids)).value)
  {
    assert BatchOf(bs, ids)[|ids| - 1] == bs[ids[|ids| - 1]];
    var share := NextPayment(pool, bs, ids, r, paid);
    PayAllLast(pool, r, BatchOf(bs, ids), BatchOf(bs, ids)[..|ids| - 1], paid);
    PaidExtends(pool, bs, ids, r, paid, share);
  }

  lemma NextPayment(pool: Pool, bs: seq<Bundle>, ids: seq<nat>, r: u32, paid: Batch) returns (share: u64)
    requires Conserved(pool, bs) && r == EpochsRemain(pool) && Covered(bs, r)
    requires ids != [] && ValidBatch(bs, ids) && PaidExactly(pool, bs, ids[..|ids| - 1], r, paid)
    requires Burnable(bs[ids[|ids| - 1]], r) > 0
    ensures var b := bs[ids[|ids| - 1]];
            && SumBurnable(bs, r) > 0 && share == AllocRem(pool, r) * Burnable(b, r) / SumBurnable(bs, r)
            && share < paid.pool.budgetRem && paid.pool.reservesTmp + Burnable(b, r) <= MAX_VALUE
            && PayBundle(pool, r, paid.pool, b) ==
               Ok(Payment(paid.pool.(budgetRem := paid.pool.budgetRem - share,
                                     reservesTmp := paid.pool.reservesTmp + Burnable(b, r)),
                          Compounded(b, r), share))
  {
    var b := bs[ids[|ids| - 1]];
    PayNext(pool, bs, ids, r, paid);
    share := AllocRem(pool, r) * Burnable(b, r) / SumBurnable(bs, r);
    PayBundleResult(pool, r, paid.pool, b, share);
  }
}
