/** Inputs and outputs of the pool transactions, and what a rejected input invalidates. */
module Layout {
  import opened Wrappers
  import opened LmPool

  datatype Tree = PoolValidator | BundleValidator | MinersFee | Script(id: int)

  datatype StakingBundle = StakingBundle(boxId: int, redeemer: int, funds: Bundle)
  datatype FundingBox = FundingBox(boxId: int, prop: Tree, value: u64)

  datatype Output =
    | PoolOut(pool: Pool)
    | FundingOut(prop: Tree, value: u64)
    | BundleOut(redeemer: int, funds: Bundle)
    | RewardOut(redeemer: int, amount: u64)
    | MinerOut(value: u64)

  datatype Kind = PoolKind | FundingKind | BundleKind | OrderKind

  /** Context variables of a bundle input: where its reward and its successor are. */
  datatype Context = Context(redeemerOutIx: nat, succIx: nat)

  datatype Input = Input(kind: Kind, boxId: int, ctx: Option<Context>)

  datatype CompoundTx = CompoundTx(
    inputs: seq<Input>,
    outputs: seq<Output>,
    predictedBundles: seq<Output>,
    predictedFunding: Option<Output>)

  function TreeOf(o: Output): Tree {
    match o
    case PoolOut(_) => PoolValidator
    case FundingOut(prop, _) => prop
    case BundleOut(_, _) => BundleValidator
    case RewardOut(redeemer, _) => Script(redeemer)
    case MinerOut(_) => MinersFee
  }

  /** The position of the first output guarded by the bundle validator. */
  function FindBundle(outputs: seq<Output>): (r: Option<nat>)
    ensures r.Some? ==>
              && r.value < |outputs| && TreeOf(outputs[r.value]) == BundleValidator
              && forall i :: 0 <= i < r.value ==> TreeOf(outputs[i]) != BundleValidator
    ensures r.None? ==> forall i :: 0 <= i < |outputs| ==> TreeOf(outputs[i]) != BundleValidator
  {
    if outputs == [] then None
    else if TreeOf(outputs[0]) == BundleValidator then Some(0)
    else
      match FindBundle(outputs[1..])
      case None => None
      case Some(i) => Some(i + 1)
  }

  function Funds(bundles: seq<StakingBundle>): seq<Bundle> {
    seq(|bundles|, i requires 0 <= i < |bundles| => bundles[i].funds)
  }

  function Values(funding: seq<FundingBox>): seq<u64> {
    seq(|funding|, i requires 0 <= i < |funding| => funding[i].value)
  }

  function FundingOuts(funding: seq<FundingBox>, d: Distributed): seq<Output>
    requires funding != []
  {
    if d.nextFunding.Some? then [FundingOut(funding[0].prop, d.nextFunding.value)] else []
  }

  function BundleOuts(bundles: seq<StakingBundle>, d: Distributed): seq<Output>
    requires |bundles| == |d.bundles|
  {
    seq(|bundles|, i requires 0 <= i < |bundles| => BundleOut(bundles[i].redeemer, d.bundles[i]))
  }

  function RewardOuts(bundles: seq<StakingBundle>, d: Distributed): seq<Output>
    requires |bundles| == |d.rewards|
  {
    seq(|bundles|, i requires 0 <= i < |bundles| => RewardOut(bundles[i].redeemer, d.rewards[i]))
  }

  function CompoundInputs(
    poolBox: int, bundles: seq<StakingBundle>, funding: seq<FundingBox>, firstOut: nat): seq<Input>
  {
    [Input(PoolKind, poolBox, None)]
    + seq(|funding|, i requires 0 <= i < |funding| => Input(FundingKind, funding[i].boxId, None))
    + seq(|bundles|, i requires 0 <= i < |bundles| =>
        Input(BundleKind, bundles[i].boxId, Some(Context(firstOut + i + |bundles|, firstOut + i))))
  }

  /** The transaction for paid bundles; without a bundle output there is nothing to find and the source panics. */
  function BuildCompound(
    poolBox: int, bundles: seq<StakingBundle>, funding: seq<FundingBox>, d: Distributed): Outcome<CompoundTx>
    requires funding != [] && |d.bundles| == |bundles| && |d.rewards| == |bundles|
  {
    var outputs := CompoundOutputs(bundles, funding, d);
    match FindBundle(outputs)
    case None => Trapped
    case Some(firstOut) =>
      var start := BundleStart(d);
      OutputsPlaced(bundles, funding, d);
      Ok(CompoundTx(CompoundInputs(poolBox, bundles, funding, firstOut), outputs,
                    outputs[start..start + |bundles|],
                    if d.nextFunding.Some? then Some(outputs[1]) else None))
  }

  function RunCompound(
    poolBox: int, pool: Pool, bundles: seq<StakingBundle>, funding: seq<FundingBox>): Outcome<CompoundTx>
    requires funding != []
  {
    match Distribute(pool, Funds(bundles), Values(funding))
    case Trapped => Trapped
    case Err(e) => Err(e)
    case Ok(d) =>
      PaidLengths(pool, bundles, funding);
      BuildCompound(poolBox, bundles, funding, d)
  }

  /** The bundle after it has been paid for every epoch but the remaining ones. */
  predicate Succeeds(b': Bundle, b: Bundle, epochsRemain: u32) {
    b' == b.(tmp := b'.tmp) && TmpOf(b') == epochsRemain * b.vlq && b'.tmp != Some(0)
  }

  /** The reward that the bundle earns in the batch. */
  predicate Earns(pool: Pool, epochsRemain: u32, b: Bundle, reward: u64) {
    pool.conf.epochNum > 0 && b.vlq > 0 && RewardOf(pool, epochsRemain, b) == Some(reward)
  }

  /** The batch loop yields one successor and one reward per bundle, in the order of the bundles. */
  lemma {:induction false} PaysInOrder(pool: Pool, epochsRemain: u32, bundles: seq<Bundle>)
    requires pool.conf.epochNum > 0 && PayAll(pool, epochsRemain, bundles).Ok?
    ensures var batch := PayAll(pool, epochsRemain, bundles).value;
            && |batch.bundles| == |bundles| && |batch.rewards| == |bundles|
            && (forall i :: 0 <= i < |bundles| ==> Succeeds(batch.bundles[i], bundles[i], epochsRemain))
            && (forall i :: 0 <= i < |bundles| ==> Earns(pool, epochsRemain, bundles[i], batch.rewards[i]))
  {
    if bundles != [] {
      var front, last := bundles[..|bundles| - 1], bundles[|bundles| - 1];
      PaysInOrder(pool, epochsRemain, front);
      var paid := PayAll(pool, epochsRemain, front).value;
      PaysOne(pool, epochsRemain, paid.pool, last);
      assert bundles == front + [last];
    }
  }

  lemma PaysOne(pool: Pool, epochsRemain: u32, next: Pool, bundle: Bundle)
    requires pool.conf.epochNum > 0 && PayBundle(pool, epochsRemain, next, bundle).Ok?
    ensures var p := PayBundle(pool, epochsRemain, next, bundle).value;
            Succeeds(p.bundle, bundle, epochsRemain) && Earns(pool, epochsRemain, bundle, p.reward)
  {
  }

  lemma PaidLengths(pool: Pool, bundles: seq<StakingBundle>, funding: seq<FundingBox>)
    requires Distribute(pool, Funds(bundles), Values(funding)).Ok?
    ensures var d := Distribute(pool, Funds(bundles), Values(funding)).value;
            |d.bundles| == |bundles| && |d.rewards| == |bundles|
  {
    PaysInOrder(pool, EpochsRemainAfter(pool.conf, EpochToPay(pool).value), Funds(bundles));
  }

  lemma PaidInOrder(pool: Pool, bundles: seq<StakingBundle>, funding: seq<FundingBox>, i: nat)
    requires Distribute(pool, Funds(bundles), Values(funding)).Ok? && i < |bundles|
    ensures var d := Distribute(pool, Funds(bundles), Values(funding)).value;
            var epochsRemain := EpochsRemainAfter(pool.conf, EpochToPay(pool).value);
            && |d.bundles| == |bundles| && |d.rewards| == |bundles|
            && Succeeds(d.bundles[i], bundles[i].funds, epochsRemain)
            && Earns(pool, epochsRemain, bundles[i].funds, d.rewards[i])
  {
    PaysInOrder(pool, EpochsRemainAfter(pool.conf, EpochToPay(pool).value), Funds(bundles));
    assert Funds(bundles)[i] == bundles[i].funds;
  }

  // ---------------------------------------------------------------- context indices

  /** The input of a bundle points to its own successor and to its own reward. */
  ghost predicate PointsToOwn(tx: CompoundTx, pool: Pool, epochsRemain: u32, b: StakingBundle, input: Input) {
    && input.kind == BundleKind && input.boxId == b.boxId && input.ctx.Some?
    && var Context(rewardIx, succIx) := input.ctx.value;
    && rewardIx < |tx.outputs| && succIx < |tx.outputs|
    && tx.outputs[succIx].BundleOut? && tx.outputs[succIx].redeemer == b.redeemer
    && Succeeds(tx.outputs[succIx].funds, b.funds, epochsRemain)
    && tx.outputs[rewardIx].RewardOut? && tx.outputs[rewardIx].redeemer == b.redeemer
    && Earns(pool, epochsRemain, b.funds, tx.outputs[rewardIx].amount)
  }

  /** Where the bundles begin: behind the pool and the residual funding, if any. */
  function BundleStart(d: Distributed): nat {
    if d.nextFunding.Some? then 2 else 1
  }

  function CompoundOutputs(bundles: seq<StakingBundle>, funding: seq<FundingBox>, d: Distributed): seq<Output>
    requires funding != [] && |d.bundles| == |bundles| && |d.rewards| == |bundles|
  {
    [PoolOut(d.pool)] + FundingOuts(funding, d) + BundleOuts(bundles, d) + RewardOuts(bundles, d)
    + [MinerOut(d.minerErg)]
  }

  lemma OutputsPlaced(bundles: seq<StakingBundle>, funding: seq<FundingBox>, d: Distributed)
    requires funding != [] && |d.bundles| == |bundles| && |d.rewards| == |bundles|
    ensures var outs := CompoundOutputs(bundles, funding, d);
            && |outs| == BundleStart(d) + 2 * |bundles| + 1
            && outs[0] == PoolOut(d.pool)
            && (d.nextFunding.Some? ==> outs[1] == FundingOut(funding[0].prop, d.nextFunding.value))
  {
  }

  /** The successor and the reward of the bundle at position `i`. */
  lemma BundlePlaced(bundles: seq<StakingBundle>, funding: seq<FundingBox>, d: Distributed, i: nat)
    requires funding != [] && |d.bundles| == |bundles| && |d.rewards| == |bundles| && i < |bundles|
    ensures var outs, start := CompoundOutputs(bundles, funding, d), BundleStart(d);
            && |outs| == start + 2 * |bundles| + 1
            && outs[start + i] == BundleOut(bundles[i].redeemer, d.bundles[i])
            && outs[start + |bundles| + i] == RewardOut(bundles[i].redeemer, d.rewards[i])
  {
  }

  lemma InputPlaced(poolBox: int, bundles: seq<StakingBundle>, funding: seq<FundingBox>, firstOut: nat, i: nat)
    requires i < |bundles|
    ensures |CompoundInputs(poolBox, bundles, funding, firstOut)| == 1 + |funding| + |bundles|
    ensures CompoundInputs(poolBox, bundles, funding, firstOut)[1 + |funding| + i] ==
            Input(BundleKind, bundles[i].boxId, Some(Context(firstOut + i + |bundles|, firstOut + i)))
  {
  }

  lemma FoundAt(outputs: seq<Output>, k: nat)
    requires k < |outputs| && TreeOf(outputs[k]) == BundleValidator
    requires forall i :: 0 <= i < k ==> TreeOf(outputs[i]) != BundleValidator
    ensures FindBundle(outputs) == Some(k)
  {
  }

  /** The first bundle output is found where the bundles begin, unless the residual funding is guarded like a bundle. */
  lemma FirstBundle(bundles: seq<StakingBundle>, funding: seq<FundingBox>, d: Distributed)
    requires funding != [] && |d.bundles| == |bundles| && |d.rewards| == |bundles|
    ensures var guarded := d.nextFunding.Some? && funding[0].prop == BundleValidator;
            FindBundle(CompoundOutputs(bundles, funding, d)) ==
            if guarded then Some(1) else if bundles != [] then Some(BundleStart(d)) else None
  {
    OutputsPlaced(bundles, funding, d);
    var outs, start := CompoundOutputs(bundles, funding, d), BundleStart(d);
    if d.nextFunding.Some? && funding[0].prop == BundleValidator {
      FoundAt(outs, 1);
    } else if bundles != [] {
      BundlePlaced(bundles, funding, d, 0);
      FoundAt(outs, start);
    }
  }

  /** The context indices of a bundle lead to what was made of it. */
  lemma IndicesLead(poolBox: int, bundles: seq<StakingBundle>, funding: seq<FundingBox>, d: Distributed, i: nat)
    requires funding != [] && |d.bundles| == |bundles| && |d.rewards| == |bundles| && i < |bundles|
    requires d.nextFunding.Some? ==> funding[0].prop != BundleValidator
    ensures BuildCompound(poolBox, bundles, funding, d).Ok?
    ensures var tx := BuildCompound(poolBox, bundles, funding, d).value;
            var start := BundleStart(d);
            && |tx.outputs| == start + 2 * |bundles| + 1
            && tx.inputs[1 + |funding| + i] ==
               Input(BundleKind, bundles[i].boxId, Some(Context(start + |bundles| + i, start + i)))
            && tx.outputs[start + i] == BundleOut(bundles[i].redeemer, d.bundles[i]) == tx.predictedBundles[i]
            && tx.outputs[start + |bundles| + i] == RewardOut(bundles[i].redeemer, d.rewards[i])
  {
    OutputsPlaced(bundles, funding, d);
    FirstBundle(bundles, funding, d);
    BundlePlaced(bundles, funding, d, i);
    InputPlaced(poolBox, bundles, funding, BundleStart(d), i);
    var tx := BuildCompound(poolBox, bundles, funding, d).value;
    assert tx.predictedBundles[i] == tx.outputs[BundleStart(d) + i];
  }

  /** The funding leaves change, and the change returns to a script that is the bundle validator. */
  predicate GuardedFunding(bundles: seq<StakingBundle>, funding: seq<FundingBox>)
    requires funding != []
  {
    && SumOf(Values(funding)) >= BatchCost(|bundles|) + MIN_SAFE_BOX_VALUE
    && funding[0].prop == BundleValidator
  }

  lemma ChangeIff(pool: Pool, bundles: seq<StakingBundle>, funding: seq<FundingBox>)
    requires Distribute(pool, Funds(bundles), Values(funding)).Ok?
    ensures Distribute(pool, Funds(bundles), Values(funding)).value.nextFunding.Some? <==>
            SumOf(Values(funding)) >= BatchCost(|bundles|) + MIN_SAFE_BOX_VALUE
  {
    PaidLengths(pool, bundles, funding);
  }

  /** The pool and the funding boxes come first, and the change, if any, is predicted as the box behind the pool. */
  lemma FundingIsPlaced(poolBox: int, pool: Pool, bundles: seq<StakingBundle>, funding: seq<FundingBox>)
    requires funding != [] && RunCompound(poolBox, pool, bundles, funding).Ok?
    ensures var tx, total := RunCompound(poolBox, pool, bundles, funding).value, SumOf(Values(funding));
            && |tx.inputs| == 1 + |funding| + |bundles| && tx.inputs[0] == Input(PoolKind, poolBox, None)
            && (forall i :: 0 <= i < |funding| ==> tx.inputs[1 + i] == Input(FundingKind, funding[i].boxId, None))
            && |tx.outputs| > 1 && tx.outputs[0].PoolOut?
            && if total >= BatchCost(|bundles|) + MIN_SAFE_BOX_VALUE then
                 && tx.predictedFunding == Some(tx.outputs[1])
                 && tx.outputs[1] == FundingOut(funding[0].prop, total - BatchCost(|bundles|))
               else tx.predictedFunding == None
  {
    var d := Distribute(pool, Funds(bundles), Values(funding)).value;
    PaidLengths(pool, bundles, funding);
    OutputsPlaced(bundles, funding, d);
  }

  lemma IndicesAreOwn(poolBox: int, pool: Pool, bundles: seq<StakingBundle>, funding: seq<FundingBox>, i: nat)
    requires funding != [] && i < |bundles| && RunCompound(poolBox, pool, bundles, funding).Ok?
    requires !GuardedFunding(bundles, funding)
    ensures var tx := RunCompound(poolBox, pool, bundles, funding).value;
            && PointsToOwn(tx, pool, EpochsRemainAfter(pool.conf, EpochToPay(pool).value), bundles[i],
                           tx.inputs[1 + |funding| + i])
            && tx.predictedBundles[i] == tx.outputs[tx.inputs[1 + |funding| + i].ctx.value.succIx]
  {
    var d := Distribute(pool, Funds(bundles), Values(funding)).value;
    PaidInOrder(pool, bundles, funding, i);
    ChangeIff(pool, bundles, funding);
    IndicesLead(poolBox, bundles, funding, d, i);
  }

  /**
   For any number of funding boxes and bundles, the context indices of every bundle point to its own
   successor and its own reward exactly when the funding leaves no change or its script is not the bundle validator.
   */
  lemma IndicesAreOwnIff(poolBox: int, pool: Pool, bundles: seq<StakingBundle>, funding: seq<FundingBox>)
    requires funding != [] && bundles != [] && RunCompound(poolBox, pool, bundles, funding).Ok?
    ensures var tx := RunCompound(poolBox, pool, bundles, funding).value;
            (forall i :: 0 <= i < |bundles| ==>
              PointsToOwn(tx, pool, EpochsRemainAfter(pool.conf, EpochToPay(pool).value), bundles[i],
                          tx.inputs[1 + |funding| + i]))
            <==> !GuardedFunding(bundles, funding)
  {
    var tx := RunCompound(poolBox, pool, bundles, funding).value;
    if GuardedFunding(bundles, funding) {
      var d := Distribute(pool, Funds(bundles), Values(funding)).value;
      PaidLengths(pool, bundles, funding);
      ChangeIff(pool, bundles, funding);
      OutputsPlaced(bundles, funding, d);
      FirstBundle(bundles, funding, d);
      InputPlaced(poolBox, bundles, funding, 1, 0);
      assert tx.inputs[1 + |funding| + 0].ctx.value.succIx == 1 && tx.outputs[1].FundingOut?;
    } else {
      forall i | 0 <= i < |bundles|
        ensures PointsToOwn(tx, pool, EpochsRemainAfter(pool.conf, EpochToPay(pool).value), bundles[i],
                            tx.inputs[1 + |funding| + i])
      {
        IndicesAreOwn(poolBox, pool, bundles, funding, i);
      }
    }
  }

  /** One bundle paid from a wallet whose script is the bundle validator: the bundle points to the change. */
  lemma GuardedFundingMisleads() returns (pool: Pool, bundles: seq<StakingBundle>, funding: seq<FundingBox>)
    ensures funding != [] && bundles != [] && GuardedFunding(bundles, funding)
    ensures RunCompound(0, pool, bundles, funding).Ok?
    ensures var tx := RunCompound(0, pool, bundles, funding).value;
            tx.inputs[2].kind == BundleKind && tx.inputs[2].ctx == Some(Context(2, 1)) && tx.outputs[1].FundingOut?
  {
    var conf := ProgramConfig(1, 1, 1000, 1, 5, 6);
    pool := Pool(1, 6, 100, MAX_VALUE - 100, MAX_VALUE - 100, None, conf, MIN_SAFE_FAT_BOX_VALUE);
    var bundle := Bundle(1, 100, Some(100), MIN_SAFE_FAT_BOX_VALUE);
    bundles, funding := [StakingBundle(2, 3, bundle)], [FundingBox(4, BundleValidator, 10_000_000)];
    assert EpochToPay(pool) == Some(1);
    var funds := Funds(bundles);
    assert funds == [bundle] && funds[..0] == [];
    assert RewardOf(pool, 0, bundle) == Some(5);
    assert PayBundle(pool, 0, pool, bundle).Ok?;
    assert PayAll(pool, 0, []) == Ok(Batch(pool, [], []));
    assert PayAll(pool, 0, funds).Ok?;
    assert Values(funding) == [10_000_000] && SumOf([10_000_000]) == 10_000_000;
    var d := Distribute(pool, funds, Values(funding)).value;
    PaidLengths(pool, bundles, funding);
    ChangeIff(pool, bundles, funding);
    OutputsPlaced(bundles, funding, d);
    FirstBundle(bundles, funding, d);
    InputPlaced(0, bundles, funding, 1, 0);
  }

  /** A batch that pays nobody has no bundle output to find. */
  lemma NoBundlesPanics(poolBox: int, pool: Pool, funding: seq<FundingBox>)
    requires funding != [] && funding[0].prop != BundleValidator && Distribute(pool, [], Values(funding)).Ok?
    ensures RunCompound(poolBox, pool, [], funding).Trapped?
  {
    assert Funds([]) == [];
    PaidLengths(pool, [], funding);
    FirstBundle([], funding, Distribute(pool, [], Values(funding)).value);
  }

  // ---------------------------------------------------------------- invalidations

  function DepositInputs(poolBox: int, orderBox: int): seq<Input> {
    [Input(PoolKind, poolBox, None), Input(OrderKind, orderBox, None)]
  }

  function RedeemInputs(poolBox: int, bundleBox: int, orderBox: int): seq<Input> {
    [Input(PoolKind, poolBox, None), Input(BundleKind, bundleBox, None), Input(OrderKind, orderBox, None)]
  }

  datatype OrderType = Deposit | Compound(inputFundingBoxIds: seq<int>) | Redeem

  datatype Invalidation = PoolGone | BundlesGone(ixs: seq<int>) | OrderGone | FundingGone(ixs: seq<int>)

  /** A signed index cast to a machine word. */
  function AsUsize(ix: int): int {
    if ix < 0 then ix + U64_LIMIT else ix
  }

  /** The positions of the first `n` funding boxes that are missing. */
  function MissingFunding(missing: seq<int>, n: nat): (r: seq<int>)
    ensures forall ix :: ix in r <==> 1 <= ix <= n && ix in missing
  {
    if n == 0 then []
    else MissingFunding(missing, n - 1) + if n in missing then [n] else []
  }

  /** The missing positions behind the funding boxes. */
  function BehindFunding(missing: seq<int>, n: nat): (r: seq<int>)
    ensures forall ix :: ix in r <==> ix > n && exists m :: m in missing && AsUsize(m) == ix
  {
    if missing == [] then []
    else
      var front, last := missing[..|missing| - 1], missing[|missing| - 1];
      assert missing == front + [last];
      BehindFunding(front, n) + if AsUsize(last) > n then [AsUsize(last)] else []
  }

  function Invalidations(order: OrderType, missing: seq<int>): seq<Invalidation> {
    var pool := if 0 in missing then [PoolGone] else [];
    match order
    case Deposit => pool + if 1 in missing then [OrderGone] else []
    case Compound(funding) =>
      var bundles := BehindFunding(missing, |funding|);
      pool + [FundingGone(MissingFunding(missing, |funding|))] + if bundles != [] then [BundlesGone(bundles)] else []
    case Redeem =>
      pool + (if 1 in missing then [BundlesGone([1])] else []) + if 2 in missing then [OrderGone] else []
  }

  method GenerateInvalidations(order: OrderType, missing: seq<int>) returns (res: seq<Invalidation>)
    ensures res == Invalidations(order, missing)
  {
    res := [];
    if 0 in missing { res := res + [PoolGone]; }
    match order {
      case Deposit =>
        if 1 in missing { res := res + [OrderGone]; }
      case Compound(funding) =>
        var missingFunding := CollectFunding(missing, |funding|);
        res := res + [FundingGone(missingFunding)];
        var bundles := CollectBundles(missing, |funding|);
        if bundles != [] { res := res + [BundlesGone(bundles)]; }
      case Redeem =>
        if 1 in missing { res := res + [BundlesGone([1])]; }
        if 2 in missing { res := res + [OrderGone]; }
    }
  }

  method CollectFunding(missing: seq<int>, n: nat) returns (r: seq<int>)
    ensures r == MissingFunding(missing, n)
  {
    r := [];
    for i := 0 to n
      invariant r == MissingFunding(missing, i)
    {
      // Shifted by one since the first input is the pool box.
      if i + 1 in missing { r := r + [i + 1]; }
    }
  }

  method CollectBundles(missing: seq<int>, n: nat) returns (r: seq<int>)
    ensures r == BehindFunding(missing, n)
  {
    r := [];
    for k := 0 to |missing|
      invariant r == BehindFunding(missing[..k], n)
    {
      assert missing[..k + 1][..k] == missing[..k];
      var ix := AsUsize(missing[k]);
      if ix > n { r := r + [ix]; }
    }
    assert missing[..|missing|] == missing;
  }

  /** The result invalidates a box of the given kind at the given position. */
  ghost predicate Invalidates(res: seq<Invalidation>, kind: Kind, ix: int) {
    match kind
    case PoolKind => PoolGone in res
    case OrderKind => OrderGone in res
    case FundingKind => exists k :: 0 <= k < |res| && res[k].FundingGone? && ix in res[k].ixs
    case BundleKind => exists k :: 0 <= k < |res| && res[k].BundlesGone? && ix in res[k].ixs
  }

  /** The inputs are those that the order's transaction spends. */
  ghost predicate Spends(order: OrderType, inputs: seq<Input>) {
    match order
    case Deposit => exists p, o :: inputs == DepositInputs(p, o)
    case Redeem => exists p, b, o :: inputs == RedeemInputs(p, b, o)
    case Compound(ids) =>
      exists p, bundles, funding, firstOut ::
        inputs == CompoundInputs(p, bundles, funding, firstOut) && |funding| == |ids|
  }

  lemma CompoundKinds(ids: seq<int>, inputs: seq<Input>, ix: nat)
    requires Spends(Compound(ids), inputs) && ix < |inputs|
    ensures inputs[ix].kind == if ix == 0 then PoolKind else if ix <= |ids| then FundingKind else BundleKind
  {
  }

  /** A missing input is invalidated as the kind of box placed there, and only a missing one is. */
  lemma MissingIffInvalidated(order: OrderType, inputs: seq<Input>, missing: seq<int>, ix: nat)
    requires Spends(order, inputs) && ix < |inputs| <= U32_LIMIT && InRange(missing)
    ensures ix in missing <==> Invalidates(Invalidations(order, missing), inputs[ix].kind, ix)
  {
    var res := Invalidations(order, missing);
    match order {
      case Compound(ids) =>
        CompoundKinds(ids, inputs, ix);
        CompoundReports(ids, missing, ix);
      case Deposit =>
      case Redeem =>
        if 1 in missing { assert res[if 0 in missing then 1 else 0] == BundlesGone([1]); }
    }
  }

  /** Indices as the node reports them: signed 32-bit numbers. */
  ghost predicate InRange(missing: seq<int>) {
    forall m :: m in missing ==> -0x8000_0000 <= m < 0x8000_0000
  }

  lemma CompoundReports(ids: seq<int>, missing: seq<int>, ix: int)
    requires InRange(missing)
    ensures var res := Invalidations(Compound(ids), missing);
            && (Invalidates(res, PoolKind, ix) <==> 0 in missing)
            && !Invalidates(res, OrderKind, ix)
            && (Invalidates(res, FundingKind, ix) <==> 1 <= ix <= |ids| && ix in missing)
            && (Invalidates(res, BundleKind, ix) <==> ix > |ids| && exists m :: m in missing && AsUsize(m) == ix)
  {
    var res, n := Invalidations(Compound(ids), missing), if 0 in missing then 1 else 0;
    var fundingIxs, bundleIxs := MissingFunding(missing, |ids|), BehindFunding(missing, |ids|);
    assert res[n] == FundingGone(fundingIxs);
    if bundleIxs != [] { assert res[n + 1] == BundlesGone(bundleIxs); }
    assert Invalidates(res, FundingKind, ix) <==> ix in fundingIxs;
    assert Invalidates(res, BundleKind, ix) <==> ix in bundleIxs;
  }

  /** What is invalidated is a missing input of that very kind. */
  lemma InvalidatedAsPlaced(order: OrderType, inputs: seq<Input>, missing: seq<int>, kind: Kind, ix: nat)
    requires Spends(order, inputs) && ix < |inputs| <= U32_LIMIT && InRange(missing)
    requires Invalidates(Invalidations(order, missing), kind, ix)
    ensures kind.FundingKind? || kind.BundleKind? ==> inputs[ix].kind == kind && ix in missing
    ensures exists j: nat :: j < |inputs| && inputs[j].kind == kind && j in missing
  {
    match order {
      case Compound(ids) =>
        CompoundKinds(ids, inputs, 0);
        CompoundKinds(ids, inputs, ix);
        CompoundReports(ids, missing, ix);
        assert inputs[0].kind == PoolKind;
      case Deposit => assert inputs[0].kind == PoolKind && inputs[1].kind == OrderKind;
      case Redeem => assert inputs[0].kind == PoolKind && inputs[1].kind == BundleKind && inputs[2].kind == OrderKind;
    }
  }

  /** The indices handed on to look up inputs. */
  ghost predicate Reported(res: seq<Invalidation>, ix: int) {
    Invalidates(res, FundingKind, ix) || Invalidates(res, BundleKind, ix)
  }

  /** Every index handed on is the index of an input exactly when the node named only inputs. */
  lemma ReportedAreInputsIff(ids: seq<int>, inputs: seq<Input>, missing: seq<int>)
    requires Spends(Compound(ids), inputs) && |inputs| <= U32_LIMIT && InRange(missing)
    ensures (forall ix :: Reported(Invalidations(Compound(ids), missing), ix) ==> 0 <= ix < |inputs|) <==>
            (forall m :: m in missing ==> 0 <= m < |inputs|)
  {
    var res := Invalidations(Compound(ids), missing);
    assert |inputs| > |ids| by {
      var p, bundles, funding, firstOut :|
        inputs == CompoundInputs(p, bundles, funding, firstOut) && |funding| == |ids|;
    }
    forall m | m in missing && !(0 <= m < |inputs|) ensures Reported(res, AsUsize(m)) && !(0 <= AsUsize(m) < |inputs|) {
      CompoundReports(ids, missing, AsUsize(m));
    }
    forall ix | Reported(res, ix) ensures exists m :: m in missing && AsUsize(m) == ix {
      CompoundReports(ids, missing, ix);
    }
  }
}
