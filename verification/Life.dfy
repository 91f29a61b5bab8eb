/** The life of a swap, from its message to its deletion, in terms of the message and of plain numbers. */
module Life {
  import opened Wrappers
  import opened Bytes
  import opened Types
  import opened Keys
  import opened Hashes
  import opened Banking
  import opened Machine
  import opened Invariants
  import opened Blocks
  import opened Runs

  // ---------- What a create stores ----------

  /** The identifier of the swap that a message asks for. */
  function IDOf(c: Config, m: CreateMsg): SwapID {
    CalculateSwapID(c.hash, m.randomNumberHash, m.sender, m.senderOtherChain)
  }

  /** The stored swap holds the terms of the message: status 1 is open, direction 1 incoming and 2 outgoing. */
  predicate HoldsTerms(swap: AtomicSwap, m: CreateMsg, incoming: bool, expiry: int) {
    && swap.amount == m.amount
    && swap.randomNumberHash == m.randomNumberHash
    && swap.timestamp == m.timestamp
    && swap.sender == m.sender
    && swap.recipient == m.recipient
    && swap.senderOtherChain == m.senderOtherChain
    && swap.recipientOtherChain == m.recipientOtherChain
    && swap.crossChain == m.crossChain
    && swap.direction == (if incoming then 1 else 2)
    && swap.status == 1
    && swap.closedBlock == 0
    && swap.expireTimestamp == expiry
  }

  /** Whether the message comes from the deputy of its asset. */
  predicate FromDeputy(c: Config, m: CreateMsg) {
    |m.amount| == 1 && FindAsset(c.assets, m.amount[0].denom).Some? && m.sender == FindAsset(c.assets, m.amount[0].denom).value.deputyAddress
  }

  /** A create stores the terms of its message, with the block time plus the span as expiry when the span fits
      a duration, and touches no other swap. */
  lemma CreateStoresTerms(c: Config, ctx: Context, s: State, m: CreateMsg, s2: State)
    requires Create(c, ctx, s, m) == Ok(s2)
    ensures var id := IDOf(c, m);
            && id in s2.swaps && id !in s.swaps
            && HoldsTerms(s2.swaps[id], m, FromDeputy(c, m), s2.swaps[id].expireTimestamp)
            && s2.swaps == s.swaps[id := s2.swaps[id]]
            && (0 < m.timeSpanMin <= 153_722_867 ==> s2.swaps[id].expireTimestamp == Unix(ctx.time) + 60 * m.timeSpanMin)
  {
    CreateEffect(c, ctx, s, m);
    if 0 < m.timeSpanMin <= 153_722_867 {
      ExpireTimeExact(ctx.time, m.timeSpanMin);
    }
  }

  // ---------- Claimed with its secret ----------

  /** A created swap is claimed by its secret at once. An incoming one pays its amount to the recipient of the
      message and to nobody else; an outgoing one ends with the sender poorer by the amount and the total
      supply smaller by it. The swap is closed, status 2, at the height of the claim. */
  lemma CreatedThenClaimed(c: Config, ctx: Context, ctx2: Context, s: State, m: CreateMsg, s2: State, secret: Bytes)
    requires ParamsOk(c) && Inv(c, s) && MsgOk(c, m) && Create(c, ctx, s, m) == Ok(s2)
    requires m.randomNumberHash == RandomHash(c.hash, secret, m.timestamp)
    ensures var r, id, coin := Claim(c, ctx2, s2, IDOf(c, m), secret), IDOf(c, m), m.amount[0];
            && r.Ok?
            && r.value.swaps == s2.swaps[id := s2.swaps[id].(status := 2, closedBlock := ctx2.height)]
            && (FromDeputy(c, m) ==> PaidTo(s.bank, r.value.bank, m.recipient, coin))
            && (!FromDeputy(c, m) ==> TakenFrom(s.bank, r.value.bank, m.sender, coin))
  {
    var id := IDOf(c, m);
    CreateEffect(c, ctx, s, m);
    CreatedKeepsInv(c, ctx, s, m, s2);
    ClaimNeverBlocked(c, ctx2, s2, id, secret);
    assert SwapOk(c, s2.supplies, s2.swaps[id]);
    ClaimEffect(c, ctx2, s2, id, secret);
    PaidByLife(c, ctx, ctx2, s, m, s2, Claim(c, ctx2, s2, id, secret).value);
  }

  /** The coin is new, and `to` has it. */
  ghost predicate PaidTo(before: Bank, after: Bank, to: Address, coin: Coin) {
    && (forall a: Address, d: Denom :: Balance(after, a, d) == Balance(before, a, d) + Moved(a, to, d, coin))
    && (forall d: Denom :: Total(after, d) == Total(before, d) + if d == coin.denom then coin.amount else 0)
  }

  /** The coin is gone, and `from` had it. */
  ghost predicate TakenFrom(before: Bank, after: Bank, from: Address, coin: Coin) {
    && (forall a: Address, d: Denom :: Balance(after, a, d) == Balance(before, a, d) - Moved(a, from, d, coin))
    && (forall d: Denom :: Total(after, d) == Total(before, d) - if d == coin.denom then coin.amount else 0)
  }

  lemma PaidByLife(c: Config, ctx: Context, ctx2: Context, s: State, m: CreateMsg, s2: State, s3: State)
    requires Created(c, ctx, s, m, s2) && Claimed(c, ctx2, s2, IDOf(c, m), s3)
    ensures FromDeputy(c, m) ==> PaidTo(s.bank, s3.bank, m.recipient, m.amount[0])
    ensures !FromDeputy(c, m) ==> TakenFrom(s.bank, s3.bank, m.sender, m.amount[0])
  {
  }

  // ---------- Refunded after its expiry ----------

  /** `r` closes the expired swap, status 3 before and 2 after, and leaves the bank as `before`. */
  ghost predicate RefundsAll(r: Result<State, Error>, ctx: Context, s3: State, id: SwapID, before: Bank) {
    && id in s3.swaps && s3.swaps[id].status == 3
    && r.Ok?
    && r.value.swaps == s3.swaps[id := s3.swaps[id].(status := 2, closedBlock := ctx.height)]
    && SameBank(before, r.value.bank)
  }

  /** A created swap that nobody claims is refundable right after the first block at or behind its expiry, and
      then the bank is as it was before the create: the coins are back with the sender of the message. */
  lemma CreatedThenRefunded(c: Config, ctx: Context, ctx2: Context, s: State, m: CreateMsg, s2: State, s3: State)
    requires ParamsOk(c) && Inv(c, s) && MsgOk(c, m) && Create(c, ctx, s, m) == Ok(s2) && s3 == BeginBlock(c, ctx2, s2)
    requires IDOf(c, m) in s2.swaps && s2.swaps[IDOf(c, m)].expireTimestamp <= Unix(ctx2.time)
    ensures RefundsAll(Refund(c, ctx2, s3, IDOf(c, m)), ctx2, s3, IDOf(c, m), s.bank)
  {
    CreateEffect(c, ctx, s, m);
    CreatedKeepsInv(c, ctx, s, m, s2);
    BlockExpires(c, ctx2, s2, s3, IDOf(c, m));
    ExpiredThenRefunded(c, ctx, ctx2, s, m, s2, s3);
  }

  /** A block expires a due open swap and moves no coins. */
  lemma BlockExpires(c: Config, ctx: Context, s: State, s': State, id: SwapID)
    requires ParamsOk(c) && Inv(c, s) && s' == BeginBlock(c, ctx, s)
    requires id in s.swaps && s.swaps[id].status == 1 && s.swaps[id].expireTimestamp <= Unix(ctx.time)
    ensures Inv(c, s') && s'.bank == s.bank && id in s'.swaps && s'.swaps[id] == s.swaps[id].(status := 3)
  {
    BeginBlockDone(c, ctx, s);
    DueHasExpired(c, ctx, s, s', id);
    assert s'.swaps[id] == Aged(s.swaps[id], Unix(ctx.time));
  }

  lemma ExpiredThenRefunded(c: Config, ctx: Context, ctx2: Context, s: State, m: CreateMsg, s2: State, s3: State)
    requires Created(c, ctx, s, m, s2) && Inv(c, s3) && s3.bank == s2.bank && IDOf(c, m) in s3.swaps
    requires s3.swaps[IDOf(c, m)] == s2.swaps[IDOf(c, m)].(status := EXPIRED)
    ensures RefundsAll(Refund(c, ctx2, s3, IDOf(c, m)), ctx2, s3, IDOf(c, m), s.bank)
  {
    var id := IDOf(c, m);
    RefundNeverBlocked(c, ctx2, s3, id);
    assert SwapOk(c, s3.supplies, s3.swaps[id]);
    RefundEffect(c, ctx2, s3, id);
    RefundedByLife(c, ctx, ctx2, s, m, s2, s3, Refund(c, ctx2, s3, id).value);
  }

  ghost predicate SameBank(before: Bank, after: Bank) {
    && (forall a: Address, d: Denom :: Balance(after, a, d) == Balance(before, a, d))
    && (forall d: Denom :: Total(after, d) == Total(before, d))
  }

  lemma RefundedByLife(c: Config, ctx: Context, ctx2: Context, s: State, m: CreateMsg, s2: State, s3: State, s4: State)
    requires Created(c, ctx, s, m, s2) && s3.bank == s2.bank && IDOf(c, m) in s3.swaps
    requires s3.swaps[IDOf(c, m)] == s2.swaps[IDOf(c, m)].(status := EXPIRED)
    requires Refunded(c, ctx2, s3, IDOf(c, m), s4)
    ensures SameBank(s.bank, s4.bank)
  {
  }

  // ---------- Terms are kept ----------

  /** Everything but status and height of closing. */
  predicate SameTerms(before: AtomicSwap, after: AtomicSwap) {
    after == before.(status := after.status, closedBlock := after.closedBlock)
  }

  lemma EffectKeepsTerms(c: Config, ctx: Context, s: State, tx: Tx, s': State, id: SwapID)
    requires Effect(c, ctx, s, tx, s') && CreatesSwap(c, tx, id) == 0 && id in s'.swaps
    ensures id in s.swaps && SameTerms(s.swaps[id], s'.swaps[id])
    ensures s.swaps[id].status == COMPLETED ==> s'.swaps[id] == s.swaps[id]
  {
  }

  lemma EffectKeepsStored(c: Config, ctx: Context, s: State, tx: Tx, s': State, id: SwapID)
    requires Effect(c, ctx, s, tx, s') && id in s.swaps
    ensures id in s'.swaps && CreatesSwap(c, tx, id) == 0
  {
  }

  lemma StepKeepsTerms(c: Config, ch: Chain, e: Event, after: Chain, id: SwapID)
    requires ParamsOk(c) && Inv(c, ch.state) && EventOk(c, ch, e) && after == Step(c, ch, e)
    requires IsCreate(c, ch, e, id) == 0 && id in after.state.swaps
    ensures id in ch.state.swaps && SameTerms(ch.state.swaps[id], after.state.swaps[id])
    ensures ch.state.swaps[id].status == COMPLETED ==> after.state.swaps[id] == ch.state.swaps[id]
  {
    match e
    case Block(ctx) =>
      BeginBlockDone(c, ctx, ch.state);
      assert after.state.swaps[id] == Aged(ch.state.swaps[id], Unix(ctx.time));
    case Message(tx) =>
      if Handle(c, ch.ctx, ch.state, tx).Ok? {
        HandleEffect(c, ch.ctx, ch.state, tx);
        EffectKeepsTerms(c, ch.ctx, ch.state, tx, after.state, id);
      }
  }

  /** Over a whole run in which it is not created anew, a swap keeps the terms it had: amount, hash, timestamps,
      both parties on both chains, direction. */
  lemma {:induction false} RunKeepsTerms(c: Config, ch: Chain, es: seq<Event>, id: SwapID)
    requires ParamsOk(c) && Inv(c, ch.state) && RunOk(c, ch, es)
    requires Creates(c, ch, es, id) == 0 && id in Run(c, ch, es).state.swaps
    ensures id in ch.state.swaps && SameTerms(ch.state.swaps[id], Run(c, ch, es).state.swaps[id])
  {
    if es != [] {
      var init := es[..|es| - 1];
      RunKeepsInv(c, ch, init);
      StepKeepsTerms(c, Run(c, ch, init), es[|es| - 1], Run(c, ch, es), id);
      RunKeepsTerms(c, ch, init, id);
    }
  }

  // ---------- Retention ----------

  lemma RetentionOf(closedBlock: int64, height: int64)
    requires closedBlock >= 0 && height >= 0
    ensures DeletionHeight(closedBlock) <= ToUint64(height) <==> closedBlock + 604800 <= height
  {
    DeletionHeightExact(closedBlock);
  }

  /** A completed swap outlives a block exactly when fewer than 604800 blocks have gone by since it was closed. */
  lemma RetentionExact(c: Config, ctx: Context, s: State, s': State, id: SwapID)
    requires ParamsOk(c) && Inv(c, s) && s' == BeginBlock(c, ctx, s)
    requires id in s.swaps && s.swaps[id].status == 2 && s.swaps[id].closedBlock >= 0 && ctx.height >= 0
    ensures id in s'.swaps <==> ctx.height < s.swaps[id].closedBlock + 604800
    ensures id in s'.swaps ==> s'.swaps[id] == s.swaps[id]
  {
    BeginBlockDone(c, ctx, s);
    RetentionOf(s.swaps[id].closedBlock, ctx.height);
    if id in s'.swaps {
      assert s'.swaps[id] == Aged(s.swaps[id], Unix(ctx.time));
    }
  }

  /** Heights of the blocks of a run, all below `limit`. */
  predicate HeightsBelow(es: seq<Event>, limit: int) {
    forall i | 0 <= i < |es| :: es[i].Block? ==> 0 <= es[i].ctx.height < limit
  }

  lemma StepRetains(c: Config, ch: Chain, e: Event, after: Chain, id: SwapID)
    requires ParamsOk(c) && Inv(c, ch.state) && EventOk(c, ch, e) && after == Step(c, ch, e)
    requires id in ch.state.swaps && ch.state.swaps[id].status == 2 && ch.state.swaps[id].closedBlock >= 0
    requires e.Block? ==> 0 <= e.ctx.height < ch.state.swaps[id].closedBlock + 604800
    ensures id in after.state.swaps && after.state.swaps[id] == ch.state.swaps[id]
  {
    match e
    case Block(ctx) =>
      RetentionExact(c, ctx, ch.state, after.state, id);
    case Message(tx) =>
      if Handle(c, ch.ctx, ch.state, tx).Ok? {
        HandleEffect(c, ch.ctx, ch.state, tx);
        EffectKeepsStored(c, ch.ctx, ch.state, tx, after.state, id);
        EffectKeepsTerms(c, ch.ctx, ch.state, tx, after.state, id);
      }
  }

  /** Over runs: a closed swap stays stored, unchanged, for as long as all blocks are less than 604800 blocks
      above the one that closed it. */
  lemma {:induction false} ClosedStays(c: Config, ch: Chain, es: seq<Event>, id: SwapID)
    requires ParamsOk(c) && Inv(c, ch.state) && RunOk(c, ch, es)
    requires id in ch.state.swaps && ch.state.swaps[id].status == 2 && ch.state.swaps[id].closedBlock >= 0
    requires HeightsBelow(es, ch.state.swaps[id].closedBlock + 604800)
    ensures id in Run(c, ch, es).state.swaps && Run(c, ch, es).state.swaps[id] == ch.state.swaps[id]
  {
    if es != [] {
      var init := es[..|es| - 1];
      assert HeightsBelow(init, ch.state.swaps[id].closedBlock + 604800);
      RunKeepsInv(c, ch, init);
      ClosedStays(c, ch, init, id);
      StepRetains(c, Run(c, ch, init), es[|es| - 1], Run(c, ch, es), id);
    }
  }

  /** And it is gone after the first block that is not. */
  lemma ClosedGoes(c: Config, ch: Chain, es: seq<Event>, end: Chain, ctx: Context, id: SwapID)
    requires ParamsOk(c) && Inv(c, ch.state) && RunOk(c, ch, es) && end == Run(c, ch, es)
    requires id in ch.state.swaps && ch.state.swaps[id].status == 2 && ch.state.swaps[id].closedBlock >= 0
    requires HeightsBelow(es, ch.state.swaps[id].closedBlock + 604800)
    requires ctx.height >= ch.state.swaps[id].closedBlock + 604800
    ensures id !in Step(c, end, Block(ctx)).state.swaps
  {
    RunKeepsInv(c, ch, es);
    ClosedStays(c, ch, es, id);
    RetentionExact(c, ctx, end.state, BeginBlock(c, ctx, end.state), id);
  }
}
