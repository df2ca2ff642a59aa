/** One epoch paid in several batches: fairness between stakers. */
module PoolFairness {
  import opened Arith
  import opened LmPool
  import opened PoolEpochs
  import opened PoolRewards
  import opened PoolRuns

  /** Worlds between successive batches that all pay the epoch with `r` epochs after it. */
  ghost predicate IsEpochRun(ws: seq<World>, batches: seq<seq<nat>>, r: u32) {
    && |ws| == |batches| + 1
    && Covered(ws[0].bundles, r) && ws[0].pool.conf.epochNum > 0
    && forall i {:trigger batches[i]} :: 0 <= i < |batches| ==> PaysEpoch(ws[i], batches[i], r, ws[i + 1])
  }

  /** A batch step that pays the epoch with `r` epochs after it. */
  ghost predicate PaysEpoch(w: World, ids: seq<nat>, r: u32, w': World) {
    && Conserved(w.pool, w.bundles) && Covered(w.bundles, r)
    && r == EpochsRemain(w.pool)
    && ValidBatch(w.bundles, ids)
    && IsBatchStep(w, ids, r, w')
  }

  ghost predicate IsBatchStep(w: World, ids: seq<nat>, r: u32, w': World)
    requires w.pool.conf.epochNum > 0 && ValidBatch(w.bundles, ids)
  {
    var paid := PayAll(w.pool, r, BatchOf(w.bundles, ids));
    && paid.Ok? && |paid.value.bundles| == |ids|
    && w'.pool == paid.value.pool.(epochIx := w'.pool.epochIx)
    && w'.bundles == WriteBack(w.bundles, ids, paid.value.bundles)
  }

  /** A successful `Compound` step is a batch step that pays the current epoch. */
  lemma CompoundIsBatchStep(w: World, ids: seq<nat>, funding: seq<u64>)
    requires Safe(w) && WellFormed(w, Compound(ids, funding)) && Apply(w, Compound(ids, funding)).Ok?
    ensures PaysEpoch(w, ids, EpochsRemain(w.pool), Apply(w, Compound(ids, funding)).value)
  {
    EpochOfBudget(w.pool);
  }

  /** A batch step keeps an epoch run going. */
  lemma BatchStepContinues(w: World, ids: seq<nat>, r: u32, w': World)
    requires PaysEpoch(w, ids, r, w')
    ensures Conserved(w'.pool, w'.bundles) && Covered(w'.bundles, r)
  {
    PaidMeansUncompounded(w.pool, r, w.bundles, ids);
    BatchIsSolvent(w.pool, w.bundles, ids, r);
    BatchConserves(w.pool, r, w.bundles, ids);
  }

  /** Bundles paid in the batches before the `i`-th. */
  ghost function PaidBefore(batches: seq<seq<nat>>, i: nat): nat
    requires i <= |batches|
  {
    if i == 0 then 0 else PaidBefore(batches, i - 1) + |batches[i - 1]|
  }

  /** The epoch's allocation still unspent: what the budget holds above the later epochs' share. */
  ghost function Unspent(w: World, r: u32): int
    requires w.pool.conf.epochNum > 0
  {
    w.pool.budgetRem - LaterAlloc(w.pool.conf, r) - 1
  }

  /** What one batch step collects and spends. */
  ghost predicate StepTotals(w: World, ids: seq<nat>, r: u32, w': World, spent: nat)
    requires w.pool.conf.epochNum > 0 && w'.pool.conf == w.pool.conf
  {
    var total := SumBurnable(w.bundles, r);
    var collected := total - SumBurnable(w'.bundles, r);
    && 0 <= collected <= total
    && 0 <= Unspent(w', r) == Unspent(w, r) - spent
    && spent * total <= Unspent(w, r) * collected <= spent * total + |ids| * (total - 1)
    && (ids == [] ==> spent == 0 && collected == 0)
    && (ids != [] ==> total > 0)
  }

  lemma BatchStepTotals(w: World, ids: seq<nat>, r: u32, w': World)
    requires PaysEpoch(w, ids, r, w')
    ensures var paid := PayAll(w.pool, r, BatchOf(w.bundles, ids)).value;
            && Uncompounded(w.bundles, ids, r)
            && PaidEach(w.pool, w.bundles, ids, r, paid)
            && Unspent(w, r) == AllocRem(w.pool, r)
            && w'.pool.conf == w.pool.conf
            && StepTotals(w, ids, r, w', SumOf(paid.rewards))
  {
    PaidMeansUncompounded(w.pool, r, w.bundles, ids);
    BatchIsSolvent(w.pool, w.bundles, ids, r);
    BudgetAboveLater(w.pool);
    var paid := PayAll(w.pool, r, BatchOf(w.bundles, ids)).value;
    TotalsOfPaid(w, ids, r, w', paid);
  }

  lemma TotalsOfPaid(w: World, ids: seq<nat>, r: u32, w': World, paid: Batch)
    requires w.pool.conf.epochNum > 0 && ValidBatch(w.bundles, ids)
    requires PaidExactly(w.pool, w.bundles, ids, r, paid)
    requires Unspent(w, r) == AllocRem(w.pool, r)
    requires w'.pool == paid.pool.(epochIx := w'.pool.epochIx)
    requires w'.bundles == WriteBack(w.bundles, ids, paid.bundles)
    ensures w'.pool.conf == w.pool.conf
    ensures StepTotals(w, ids, r, w', SumOf(paid.rewards))
  {
    BurnableIsNonNegative(w'.bundles, r);
    SpentIsAffordable(w.pool, w.bundles, w'.bundles, r, |ids|, SumOf(paid.rewards), paid.pool);
    if ids == [] {
      assert paid.rewards == [];
    } else {
      assert paid.rewards[0] == AllocRem(w.pool, r) * Burnable(w.bundles[ids[0]], r) / SumBurnable(w.bundles, r);
    }
  }

  /** How far the unspent allocation drifts from its pro-rata value. */
  ghost predicate Drift(a0: int, t0: int, a: int, t: int, n: nat) {
    && a0 * t <= a * t0
    && a * t0 <= a0 * t + n * t0
  }

  /** Flooring a batch moves the drift by at most one unit per bundle, and never below zero. */
  lemma DriftStep(a0: nat, t0: nat, a: nat, t: nat, n: nat, spent: nat, collected: nat, k: nat)
    requires t > 0 && collected <= t && spent <= a
    requires Drift(a0, t0, a, t, n)
    requires spent * t <= a * collected <= spent * t + k * (t - 1)
    ensures Drift(a0, t0, a - spent, t - collected, n + k)
  {
    var a', t' := a - spent, t - collected;
    DriftStepLower(a0, t0, a, t, a', t');
    DriftStepUpper(a0, t0, a, t, n, a', t', k);
  }

  lemma DriftStepLower(a0: nat, t0: nat, a: nat, t: nat, a': nat, t': nat)
    requires t > 0 && t' <= t && a' <= a
    requires a0 * t <= a * t0
    requires (a - a') * t <= a * (t - t')
    ensures a0 * t' <= a' * t0
  {
    MulDistributes(a, a', t);
    MulDistributes(t, t', a);
    calc {
      (a0 * t') * t;
    ==  { MulSwap(a0, t', t); }
      (a0 * t) * t';
    <=  { MulMono(a0 * t, a * t0, t'); }
      (a * t0) * t';
    ==  { MulSwap(a, t0, t'); }
      (a * t') * t0;
    <=  { MulMono(a * t', a' * t, t0); }
      (a' * t) * t0;
    ==  { MulSwap(a', t, t0); }
      (a' * t0) * t;
    }
    MulCancel(a0 * t', a' * t0, t);
  }

  lemma DriftStepUpper(a0: nat, t0: nat, a: nat, t: nat, n: nat, a': nat, t': nat, k: nat)
    requires t > 0 && t' <= t && a' <= a
    requires a * t0 <= a0 * t + n * t0
    requires a * (t - t') <= (a - a') * t + k * (t - 1)
    ensures a' * t0 <= a0 * t' + (n + k) * t0
  {
    MulDistributes(a, a', t);
    MulDistributes(t, t', a);
    MulDistributes(t, 1, k);
    assert a' * t <= a * t' + k * t;
    calc {
      (a' * t0) * t;
    ==  { MulSwap(a', t0, t); }
      (a' * t) * t0;
    <=  { MulMono(a' * t, a * t' + k * t, t0); }
      (a * t' + k * t) * t0;
    ==  { MulDistributes(a * t', k * t, t0); MulSwap(a, t', t0); MulSwap(k, t, t0); }
      (a * t0) * t' + (k * t0) * t;
    <=  { MulMono(a * t0, a0 * t + n * t0, t'); }
      (a0 * t + n * t0) * t' + (k * t0) * t;
    ==  { MulDistributes(a0 * t, n * t0, t'); MulSwap(a0, t, t'); }
      (a0 * t') * t + (n * t0) * t' + (k * t0) * t;
    <=  { MulNonNeg(n, t0); MulMono(t', t, n * t0); }
      (a0 * t') * t + (n * t0) * t + (k * t0) * t;
    ==  { MulDistributes(n, k, t0); MulDistributes(n * t0, k * t0, t); MulDistributes(a0 * t', (n + k) * t0, t); }
      (a0 * t' + (n + k) * t0) * t;
    }
    MulCancel(a' * t0, a0 * t' + (n + k) * t0, t);
  }

  lemma DriftAcross(a0: nat, t0: nat, n: nat, w: World, ids: seq<nat>, r: u32, w': World)
    requires PaysEpoch(w, ids, r, w')
    requires Drift(a0, t0, Unspent(w, r), SumBurnable(w.bundles, r), n)
    ensures w'.pool.conf.epochNum > 0 && 0 <= SumBurnable(w'.bundles, r) <= SumBurnable(w.bundles, r)
    ensures Drift(a0, t0, Unspent(w', r), SumBurnable(w'.bundles, r), n + |ids|)
  {
    BatchStepTotals(w, ids, r, w');
    if ids != [] {
      DriftStep(a0, t0, Unspent(w, r), SumBurnable(w.bundles, r), n,
                SumOf(PayAll(w.pool, r, BatchOf(w.bundles, ids)).value.rewards),
                SumBurnable(w.bundles, r) - SumBurnable(w'.bundles, r), |ids|);
    }
  }

  lemma {:induction false} DriftOverBatches(ws: seq<World>, batches: seq<seq<nat>>, r: u32, i: nat)
    requires IsEpochRun(ws, batches, r) && i <= |batches|
    ensures ws[i].pool.conf.epochNum > 0
    ensures 0 <= SumBurnable(ws[i].bundles, r) <= SumBurnable(ws[0].bundles, r)
    ensures Drift(Unspent(ws[0], r), SumBurnable(ws[0].bundles, r),
                  Unspent(ws[i], r), SumBurnable(ws[i].bundles, r), PaidBefore(batches, i))
  {
    if i == 0 {
      BurnableIsNonNegative(ws[0].bundles, r);
    } else {
      DriftOverBatches(ws, batches, r, i - 1);
      BudgetStartsAboveLater(ws, batches, r);
      assert PaysEpoch(ws[i - 1], batches[i - 1], r, ws[i]);
      DriftAcross(Unspent(ws[0], r), SumBurnable(ws[0].bundles, r), PaidBefore(batches, i - 1),
                  ws[i - 1], batches[i - 1], r, ws[i]);
    }
  }

  lemma BudgetStartsAboveLater(ws: seq<World>, batches: seq<seq<nat>>, r: u32)
    requires IsEpochRun(ws, batches, r) && batches != []
    ensures 0 <= Unspent(ws[0], r) == AllocRem(ws[0].pool, r)
    ensures SumBurnable(ws[0].bundles, r) >= 0
  {
    assert PaysEpoch(ws[0], batches[0], r, ws[1]);
    BudgetAboveLater(ws[0].pool);
    BurnableIsNonNegative(ws[0].bundles, r);
  }

  lemma {:induction false} WriteBackAt(bs: seq<Bundle>, ids: seq<nat>, paid: seq<Bundle>, j: nat)
    requires ValidBatch(bs, ids) && |ids| == |paid| && j < |ids|
    ensures WriteBack(bs, ids, paid)[ids[j]] == paid[j]
  {
    if j < |ids| - 1 {
      WriteBackAt(bs, ids[..|ids| - 1], paid[..|ids| - 1], j);
    }
  }

  /** After a batch step a bundle is unchanged or has nothing left to burn for this epoch. */
  lemma StepPaysOrKeeps(w: World, ids: seq<nat>, r: u32, w': World, id: nat)
    requires PaysEpoch(w, ids, r, w')
    requires id < |w.bundles|
    ensures |w'.bundles| == |w.bundles|
    ensures id !in ids ==> w'.bundles[id] == w.bundles[id]
    ensures id in ids ==> w'.bundles[id] == Compounded(w.bundles[id], r) && Burnable(w'.bundles[id], r) == 0
  {
    BatchStepTotals(w, ids, r, w');
    var paid := PayAll(w.pool, r, BatchOf(w.bundles, ids)).value;
    if id in ids {
      var j :| 0 <= j < |ids| && ids[j] == id;
      WriteBackAt(w.bundles, ids, paid.bundles, j);
      CompoundedIsBacked(w.bundles[id], r);
    } else {
      WriteBackElsewhere(w.bundles, ids, paid.bundles, id);
    }
  }

  lemma {:induction false} UnpaidIsUnchanged(ws: seq<World>, batches: seq<seq<nat>>, r: u32, i: nat, id: nat)
    requires IsEpochRun(ws, batches, r) && i <= |batches|
    requires id < |ws[i].bundles| && Burnable(ws[i].bundles[id], r) > 0
    ensures id < |ws[0].bundles| && ws[i].bundles[id] == ws[0].bundles[id]
  {
    if i > 0 {
      assert PaysEpoch(ws[i - 1], batches[i - 1], r, ws[i]);
      assert |ws[i - 1].bundles| == |ws[i].bundles|;
      StepPaysOrKeeps(ws[i - 1], batches[i - 1], r, ws[i], id);
      UnpaidIsUnchanged(ws, batches, r, i - 1, id);
    }
  }

  /** A floored share of a drifted allocation, measured against the share at the start of the epoch. */
  lemma FairShare(a0: nat, t0: nat, a: nat, t: nat, n: nat, w: nat)
    requires t0 > 0 && 0 < w <= t
    requires Drift(a0, t0, a, t, n)
    ensures 0 <= a0 * w && 0 <= a * w
    ensures a0 * w / t0 <= a * w / t
    ensures (a * w / t) * t0 <= a0 * w + n * t0
  {
    MulNonNeg(a0, w);
    MulNonNeg(a, w);
    DivNonNeg(a0 * w, t0);
    DivMod(a0 * w, t0);
    DivMod(a * w, t);
    var fair, share := a0 * w / t0, a * w / t;
    calc {
      (fair * t) * t0;
    ==  { MulSwap(fair, t, t0); }
      (fair * t0) * t;
    <=  { MulMono(fair * t0, a0 * w, t); }
      (a0 * w) * t;
    ==  { MulSwap(a0, w, t); }
      (a0 * t) * w;
    <=  { MulMono(a0 * t, a * t0, w); }
      (a * t0) * w;
    ==  { MulSwap(a, t0, w); }
      (a * w) * t0;
    }
    MulCancel(fair * t, a * w, t0);
    DivAtLeast(a * w, t, fair);
    calc {
      (share * t0) * t;
    ==  { MulSwap(share, t0, t); }
      (share * t) * t0;
    <=  { MulMono(share * t, a * w, t0); }
      (a * w) * t0;
    ==  { MulSwap(a, w, t0); }
      (a * t0) * w;
    <=  { MulMono(a * t0, a0 * t + n * t0, w); MulDistributes(a0 * t, n * t0, w); }
      (a0 * t) * w + (n * t0) * w;
    <=  { MulNonNeg(n, t0); MulMono(w, t, n * t0); MulSwap(a0, t, w); }
      (a0 * w) * t + (n * t0) * t;
    ==  { MulDistributes(a0 * w, n * t0, t); }
      (a0 * w + n * t0) * t;
    }
    MulCancel(share * t0, a0 * w + n * t0, t);
  }

  /**
   Batching fairness. However an epoch is split into batches, each staker gets at least the floored
   pro-rata share of the allocation at the start of the epoch, and exceeds the exact share by at most
   the number of stakers paid in earlier batches.
   */
  lemma BatchingIsFair(ws: seq<World>, batches: seq<seq<nat>>, r: u32, i: nat, j: nat)
    requires IsEpochRun(ws, batches, r) && i < |batches| && j < |batches[i]|
    ensures var id, paid := batches[i][j], PayAll(ws[i].pool, r, BatchOf(ws[i].bundles, batches[i]));
            && paid.Ok? && j < |paid.value.rewards|
            && id < |ws[0].bundles| && SumBurnable(ws[0].bundles, r) > 0
            && var alloc, total := AllocRem(ws[0].pool, r), SumBurnable(ws[0].bundles, r);
            var weight, reward := Burnable(ws[0].bundles[id], r), paid.value.rewards[j];
            && weight > 0
            && alloc * weight / total <= reward
            && reward * total <= alloc * weight + PaidBefore(batches, i) * total
  {
    var ids := batches[i];
    assert PaysEpoch(ws[i], ids, r, ws[i + 1]);
    BatchStepTotals(ws[i], ids, r, ws[i + 1]);
    BudgetStartsAboveLater(ws, batches, r);
    UnpaidIsUnchanged(ws, batches, r, i, ids[j]);
    DriftOverBatches(ws, batches, r, i);
    MulNonNeg(r, ws[i].bundles[ids[j]].vlq);
    BurnableWithinTotal(ws[i].bundles, r, ids[j]);
    FairShare(Unspent(ws[0], r), SumBurnable(ws[0].bundles, r), Unspent(ws[i], r), SumBurnable(ws[i].bundles, r),
              PaidBefore(batches, i), Burnable(ws[i].bundles[ids[j]], r));
  }
}
