/** What every reachable state satisfies. */
module Invariants {
  import opened Bytes
  import opened Types
  import opened Keys
  import opened Hashes
  import opened Banking
  import opened Supply
  import opened Machine
  import opened Sums

  function ExpiryKey(swap: AtomicSwap, id: SwapID): Bytes {
    ByTimestampKey(swap.expireTimestamp, id)
  }

  function DeletionKey(swap: AtomicSwap, id: SwapID): Bytes {
    ByHeightKey(DeletionHeight(swap.closedBlock), id)
  }

  ghost predicate OwnIDs(c: Config, swaps: map<SwapID, AtomicSwap>) {
    forall id | id in swaps :: GetSwapID(c.hash, swaps[id]) == id
  }

  /** The expiry index lists exactly the open swaps. */
  ghost predicate ExpiryIndexExact(swaps: map<SwapID, AtomicSwap>, index: map<Bytes, SwapID>) {
    && (forall id | id in swaps && swaps[id].status == OPEN :: ExpiryKey(swaps[id], id) in index)
    && (forall k | k in index ::
          index[k] in swaps && swaps[index[k]].status == OPEN && k == ExpiryKey(swaps[index[k]], index[k]))
  }

  /** The deletion index lists exactly the completed swaps. */
  ghost predicate DeletionIndexExact(swaps: map<SwapID, AtomicSwap>, index: map<Bytes, SwapID>) {
    && (forall id | id in swaps && swaps[id].status == COMPLETED :: DeletionKey(swaps[id], id) in index)
    && (forall k | k in index ::
          index[k] in swaps && swaps[index[k]].status == COMPLETED && k == DeletionKey(swaps[index[k]], index[k]))
  }

  /** Exact indexes have the key layout that the order of a scan relies on. */
  lemma ExactIndexesWellKeyed(swaps: map<SwapID, AtomicSwap>, index: map<Bytes, SwapID>)
    requires ExpiryIndexExact(swaps, index) || DeletionIndexExact(swaps, index)
    ensures WellKeyed(index)
  {
    forall k | k in index ensures |k| >= 8 && k == ByHeightKey(HeightOf(k), index[k]) {
      var swap := swaps[index[k]];
      if ExpiryIndexExact(swaps, index) {
        HeightOfKey(TimestampRank(swap.expireTimestamp), index[k]);
      } else {
        HeightOfKey(DeletionHeight(swap.closedBlock), index[k]);
      }
    }
  }

  ghost predicate SwapOk(c: Config, supplies: Supplies, swap: AtomicSwap) {
    && (swap.status == OPEN || swap.status == COMPLETED || swap.status == EXPIRED)
    && (swap.direction == INCOMING || swap.direction == OUTGOING)
    && |swap.amount| == 1 && swap.amount[0].amount > 0
    && FindAsset(c.assets, swap.amount[0].denom).Some?
    && (IsLive(swap) ==> swap.amount[0].denom in supplies)
    && |swap.randomNumberHash| == RANDOM_NUMBER_HASH_LENGTH
    && |swap.sender| == |swap.recipient| == ADDR_BYTE_COUNT
    && swap.sender != c.moduleAddress && swap.recipient != c.moduleAddress
  }

  ghost predicate SwapsOk(c: Config, supplies: Supplies, swaps: map<SwapID, AtomicSwap>) {
    forall id | id in swaps :: SwapOk(c, supplies, swaps[id])
  }

  /** The limits of one denomination. */
  predicate WithinLimits(limit: SupplyLimit, p: AssetSupply) {
    && 0 <= p.incoming && 0 <= p.outgoing <= p.current && 0 <= p.timeLimitedCurrent
    && p.current + p.incoming <= limit.limit
    && (limit.timeLimited ==> p.timeLimitedCurrent + p.incoming <= limit.timeBasedLimit)
  }

  ghost predicate SupplyOk(c: Config, s: State, d: Denom)
    requires d in s.supplies
  {
    var p := s.supplies[d];
    && p.denom == d
    && FindAsset(c.assets, d).Some?
    && WithinLimits(FindAsset(c.assets, d).value.supplyLimit, p)
    && p.incoming == SumLive(s.swaps, INCOMING, d)
    && p.outgoing == SumLive(s.swaps, OUTGOING, d)
    && p.outgoing <= Balance(s.bank, c.moduleAddress, d)
  }

  /** Escrow accounts never go below zero, whatever the denomination. */
  ghost predicate EscrowOk(c: Config, s: State) {
    forall d: Denom :: Balance(s.bank, c.moduleAddress, d) >= 0
  }

  ghost predicate Inv(c: Config, s: State) {
    && OwnIDs(c, s.swaps)
    && ExpiryIndexExact(s.swaps, s.byTimestamp)
    && DeletionIndexExact(s.swaps, s.longterm)
    && SwapsOk(c, s.supplies, s.swaps)
    && (forall d | d in s.supplies :: SupplyOk(c, s, d))
    && EscrowOk(c, s)
  }

  /** Validated parameters (module/types/params.go), and an application that registers the module's own
      account among its module accounts. */
  ghost predicate ParamsOk(c: Config) {
    && DistinctDenoms(c.assets)
    && (forall a | a in c.assets :: ParamOk(c, a))
    && c.moduleAddress in c.moduleAccounts
  }

  predicate ParamOk(c: Config, a: AssetParam) {
    && c.validDenom(a.denom)
    && a.coinID >= 0
    && a.supplyLimit.limit >= 0
    && 0 <= a.supplyLimit.timeBasedLimit <= a.supplyLimit.limit
    && |a.deputyAddress| == ADDR_BYTE_COUNT
    && a.fixedFee >= 0
    && 1 <= a.swapTimeSpanMin <= THREE_DAY_MINUTES
    && 0 < a.minSwapAmount <= a.maxSwapAmount
  }

  /** The stateless checks a message passes before it reaches the keeper. */
  ghost predicate MsgOk(c: Config, m: CreateMsg) {
    && |m.randomNumberHash| == RANDOM_NUMBER_HASH_LENGTH
    && |m.sender| == |m.recipient| == ADDR_BYTE_COUNT
    && m.timestamp > 0 && m.timeSpanMin > 0
    && m.sender != c.moduleAddress
  }

  ghost predicate TxOk(c: Config, tx: Tx) {
    match tx
    case CreateTx(m) => MsgOk(c, m)
    case ClaimTx(id, number) => |number| == RANDOM_NUMBER_LENGTH
    case RefundTx(id) => true
    case TransferTx(from, to, coins) => |coins| == 1 && from != c.moduleAddress && to != c.moduleAddress
  }

  // ---------- Index bookkeeping ----------

  lemma ExpiryIndexInsert(swaps: map<SwapID, AtomicSwap>, index: map<Bytes, SwapID>, id: SwapID, swap: AtomicSwap)
    requires ExpiryIndexExact(swaps, index) && id !in swaps && swap.status == OPEN
    ensures ExpiryIndexExact(swaps[id := swap], index[ExpiryKey(swap, id) := id])
  {
    forall j | j in swaps && swaps[j].status == OPEN
      ensures ExpiryKey(swaps[j], j) in index && ExpiryKey(swaps[j], j) != ExpiryKey(swap, id)
    {
      ByHeightKeyInjective(TimestampRank(swaps[j].expireTimestamp), j, TimestampRank(swap.expireTimestamp), id);
    }
  }

  lemma ExpiryIndexRemove(swaps: map<SwapID, AtomicSwap>, index: map<Bytes, SwapID>, id: SwapID, swap: AtomicSwap)
    requires ExpiryIndexExact(swaps, index) && id in swaps
    requires swap.status != OPEN && swap.expireTimestamp == swaps[id].expireTimestamp
    ensures ExpiryIndexExact(swaps[id := swap], index - {ExpiryKey(swap, id)})
  {
    forall j | j in swaps && j != id
      ensures ExpiryKey(swaps[j], j) != ExpiryKey(swap, id)
    {
      ByHeightKeyInjective(TimestampRank(swaps[j].expireTimestamp), j, TimestampRank(swap.expireTimestamp), id);
    }
  }

  lemma ExpiryIndexOther(swaps: map<SwapID, AtomicSwap>, index: map<Bytes, SwapID>, id: SwapID, swap: AtomicSwap)
    requires ExpiryIndexExact(swaps, index)
    requires swap.status != OPEN && (id in swaps ==> swaps[id].status != OPEN)
    ensures ExpiryIndexExact(swaps[id := swap], index)
  {
  }

  lemma DeletionIndexOther(swaps: map<SwapID, AtomicSwap>, index: map<Bytes, SwapID>, id: SwapID, swap: AtomicSwap)
    requires DeletionIndexExact(swaps, index)
    requires swap.status != COMPLETED && id !in swaps
    ensures DeletionIndexExact(swaps[id := swap], index)
  {
  }

  lemma DeletionIndexInsert(swaps: map<SwapID, AtomicSwap>, index: map<Bytes, SwapID>, id: SwapID, swap: AtomicSwap)
    requires DeletionIndexExact(swaps, index)
    requires swap.status == COMPLETED && (id in swaps ==> swaps[id].status != COMPLETED)
    ensures DeletionIndexExact(swaps[id := swap], index[DeletionKey(swap, id) := id])
  {
    forall k | k in index
      ensures k != DeletionKey(swap, id) && index[k] != id
    {
      ByHeightKeyInjective(DeletionHeight(swaps[index[k]].closedBlock), index[k], DeletionHeight(swap.closedBlock), id);
    }
  }

  // ---------- One swap changes ----------

  function OldPart(swaps: map<SwapID, AtomicSwap>, id: SwapID, dir: SwapDirection, d: Denom): int {
    if id in swaps then Part(swaps[id], dir, d) else 0
  }

  /** The shape of every message's effect: one swap, the counters of its denomination and the
      escrow move together. */
  ghost predicate SwapMoves(c: Config, s: State, s': State, id: SwapID, swap: AtomicSwap, p: AssetSupply) {
    && p.denom in s.supplies && |swap.amount| == 1 && swap.amount[0].denom == p.denom
    && s'.swaps == s.swaps[id := swap]
    && s'.supplies == s.supplies[p.denom := p]
    && (id in s.swaps ==> s.swaps[id].amount == swap.amount)
    && p.incoming - s.supplies[p.denom].incoming == Part(swap, INCOMING, p.denom) - OldPart(s.swaps, id, INCOMING, p.denom)
    && p.outgoing - s.supplies[p.denom].outgoing == Part(swap, OUTGOING, p.denom) - OldPart(s.swaps, id, OUTGOING, p.denom)
    && (forall d: Denom ::
          Balance(s'.bank, c.moduleAddress, d) - Balance(s.bank, c.moduleAddress, d)
          == if d == p.denom then p.outgoing - s.supplies[p.denom].outgoing else 0)
  }

  lemma SwapMovesKeepsSupply(c: Config, s: State, s': State, id: SwapID, swap: AtomicSwap, p: AssetSupply, d: Denom)
    requires Inv(c, s) && SwapMoves(c, s, s', id, swap, p)
    requires FindAsset(c.assets, p.denom).Some? && WithinLimits(FindAsset(c.assets, p.denom).value.supplyLimit, p)
    requires d in s.supplies
    ensures SupplyOk(c, s', d)
  {
    assert SupplyOk(c, s, d);
    SumInsert(s.swaps, id, swap, INCOMING, d);
    SumInsert(s.swaps, id, swap, OUTGOING, d);
  }

  lemma SwapMovesKeepsAccounts(c: Config, s: State, s': State, id: SwapID, swap: AtomicSwap, p: AssetSupply)
    requires Inv(c, s) && SwapMoves(c, s, s', id, swap, p)
    requires FindAsset(c.assets, p.denom).Some? && WithinLimits(FindAsset(c.assets, p.denom).value.supplyLimit, p)
    ensures forall d | d in s'.supplies :: SupplyOk(c, s', d)
    ensures EscrowOk(c, s')
  {
    forall d | d in s'.supplies ensures SupplyOk(c, s', d) {
      SwapMovesKeepsSupply(c, s, s', id, swap, p, d);
    }
    assert SupplyOk(c, s', p.denom) && p.outgoing >= 0;
  }

  lemma SwapMovesKeepsSwaps(c: Config, s: State, s': State, id: SwapID, swap: AtomicSwap)
    requires OwnIDs(c, s.swaps) && SwapsOk(c, s.supplies, s.swaps)
    requires s'.swaps == s.swaps[id := swap] && s.supplies.Keys <= s'.supplies.Keys
    requires SwapOk(c, s.supplies, swap) && GetSwapID(c.hash, swap) == id
    ensures OwnIDs(c, s'.swaps) && SwapsOk(c, s'.supplies, s'.swaps)
  {
    forall j | j in s'.swaps ensures SwapOk(c, s'.supplies, s'.swaps[j]) {
      assert j != id ==> SwapOk(c, s.supplies, s.swaps[j]);
    }
  }

  lemma SwapMovesKeepsInv(c: Config, s: State, s': State, id: SwapID, swap: AtomicSwap, p: AssetSupply)
    requires Inv(c, s) && SwapMoves(c, s, s', id, swap, p)
    requires FindAsset(c.assets, p.denom).Some? && WithinLimits(FindAsset(c.assets, p.denom).value.supplyLimit, p)
    requires SwapOk(c, s.supplies, swap) && GetSwapID(c.hash, swap) == id
    requires ExpiryIndexExact(s'.swaps, s'.byTimestamp) && DeletionIndexExact(s'.swaps, s'.longterm)
    ensures Inv(c, s')
  {
    SwapMovesKeepsAccounts(c, s, s', id, swap, p);
    SwapMovesKeepsSwaps(c, s, s', id, swap);
  }

  // ---------- Create ----------

  /** The direction is decided by who the sender is. */
  function DirectionOf(c: Config, m: CreateMsg): SwapDirection
    requires |m.amount| == 1 && FindAsset(c.assets, m.amount[0].denom).Some?
  {
    if m.sender == FindAsset(c.assets, m.amount[0].denom).value.deputyAddress then INCOMING else OUTGOING
  }

  /** What a successful create did: one new open swap under a fresh identifier, listed in the expiry
      index, its amount added to the counter of its direction and, when outgoing, moved into escrow. */
  ghost predicate Created(c: Config, ctx: Context, s: State, m: CreateMsg, s': State) {
    && |m.amount| == 1 && FindAsset(c.assets, m.amount[0].denom).Some? && m.amount[0].denom in s.supplies
    && var coin, asset := m.amount[0], FindAsset(c.assets, m.amount[0].denom).value;
    && coin.denom in s'.supplies
    && var dir, p, p' := DirectionOf(c, m), s.supplies[coin.denom], s'.supplies[coin.denom];
    && var swap := NewSwap(ctx, m, dir);
    && var id := GetSwapID(c.hash, swap);
    && id !in s.swaps && m.recipient !in c.moduleAccounts
    && asset.active && asset.minSwapAmount <= coin.amount <= asset.maxSwapAmount
    && s'.swaps == s.swaps[id := swap]
    && s'.byTimestamp == s.byTimestamp[ExpiryKey(swap, id) := id]
    && s'.longterm == s.longterm && s'.prevBlockTime == s.prevBlockTime
    && s'.supplies == s.supplies[coin.denom := p']
    && s'.bank.totals == s.bank.totals
    && (dir == INCOMING ==>
          && m.recipient != asset.deputyAddress
          && p' == p.(incoming := p.incoming + coin.amount)
          && p'.current + p'.incoming <= asset.supplyLimit.limit
          && (asset.supplyLimit.timeLimited ==> p'.timeLimitedCurrent + p'.incoming <= asset.supplyLimit.timeBasedLimit)
          && s'.bank == s.bank)
    && (dir == OUTGOING ==>
          && m.recipient == asset.deputyAddress
          && 1 <= m.timeSpanMin <= THREE_DAY_MINUTES
          && coin.amount > asset.fixedFee + asset.minSwapAmount
          && p' == p.(outgoing := p.outgoing + coin.amount)
          && p'.outgoing <= p'.current
          && (forall a: Address, d: Denom ::
                Balance(s'.bank, a, d) == Balance(s.bank, a, d) - Moved(a, m.sender, d, coin) + Moved(a, c.moduleAddress, d, coin)))
  }

  lemma CreateEffect(c: Config, ctx: Context, s: State, m: CreateMsg)
    requires Create(c, ctx, s, m).Ok?
    ensures Created(c, ctx, s, m, Create(c, ctx, s, m).value)
  {
    if DirectionOf(c, m) == INCOMING {
      CreateIncomingEffect(c, ctx, s, m);
    } else {
      CreateOutgoingEffect(c, ctx, s, m);
    }
  }

  lemma CreateIncomingEffect(c: Config, ctx: Context, s: State, m: CreateMsg)
    requires Create(c, ctx, s, m).Ok? && DirectionOf(c, m) == INCOMING
    ensures Created(c, ctx, s, m, Create(c, ctx, s, m).value)
  {
  }

  lemma CreateOutgoingEffect(c: Config, ctx: Context, s: State, m: CreateMsg)
    requires Create(c, ctx, s, m).Ok? && DirectionOf(c, m) == OUTGOING
    ensures Created(c, ctx, s, m, Create(c, ctx, s, m).value)
  {
    assert m.amount == [m.amount[0]];
    SendOne(s.bank, m.sender, c.moduleAddress, m.amount[0]);
  }

  /** Which requests the keeper admits: a fresh identifier, one coin of an active asset within its bounds,
      a recent timestamp, exactly one party the deputy, and room in the counter of the direction. */
  ghost predicate Admissible(c: Config, ctx: Context, s: State, m: CreateMsg) {
    && CalculateSwapID(c.hash, m.randomNumberHash, m.sender, m.senderOtherChain) !in s.swaps
    && m.recipient !in c.moduleAccounts
    && |m.amount| == 1 && FindAsset(c.assets, m.amount[0].denom).Some? && m.amount[0].denom in s.supplies
    && var coin, asset, p := m.amount[0], FindAsset(c.assets, m.amount[0].denom).value, s.supplies[m.amount[0].denom];
    && asset.active && asset.minSwapAmount <= coin.amount <= asset.maxSwapAmount
    && ctx.time - 15 * MINUTE < (m.timestamp + 1) * SECOND <= ctx.time + 30 * MINUTE
    && (m.sender == asset.deputyAddress <==> m.recipient != asset.deputyAddress)
    && (m.sender == asset.deputyAddress ==> Fits(asset.supplyLimit, p, coin.amount))
    && (m.sender != asset.deputyAddress ==>
          && 1 <= m.timeSpanMin <= 4320
          && coin.amount > asset.fixedFee + asset.minSwapAmount
          && p.outgoing + coin.amount <= p.current
          && coin.amount <= Balance(s.bank, m.sender, coin.denom))
  }

  /** The limits have room for `amount` more incoming coins. */
  predicate Fits(limit: SupplyLimit, p: AssetSupply, amount: int) {
    && p.current + p.incoming + amount <= limit.limit
    && (limit.timeLimited ==> p.timeLimitedCurrent + p.incoming + amount <= limit.timeBasedLimit)
  }

  lemma TimestampWindow(ctx: Context, timestamp: int64)
    ensures TimestampInRange(ctx, timestamp) <==> ctx.time - 15 * MINUTE < (timestamp + 1) * SECOND <= ctx.time + 30 * MINUTE
  {
  }

  /** A create is accepted exactly when it is admissible. */
  lemma CreateAcceptedExact(c: Config, ctx: Context, s: State, m: CreateMsg)
    ensures Create(c, ctx, s, m).Ok? <==> Admissible(c, ctx, s, m)
  {
    TimestampWindow(ctx, m.timestamp);
    if |m.amount| == 1 {
      assert m.amount == [m.amount[0]];
      SendOne(s.bank, m.sender, c.moduleAddress, m.amount[0]);
    }
  }

  lemma CreatedMoves(c: Config, ctx: Context, s: State, m: CreateMsg, s': State)
    requires Created(c, ctx, s, m, s') && m.sender != c.moduleAddress
    requires s.supplies[m.amount[0].denom].denom == m.amount[0].denom
    ensures var swap := NewSwap(ctx, m, DirectionOf(c, m));
            SwapMoves(c, s, s', GetSwapID(c.hash, swap), swap, s'.supplies[m.amount[0].denom])
  {
  }

  lemma CreatedSwapOk(c: Config, ctx: Context, s: State, m: CreateMsg, s': State)
    requires ParamsOk(c) && MsgOk(c, m) && Created(c, ctx, s, m, s')
    ensures SwapOk(c, s.supplies, NewSwap(ctx, m, DirectionOf(c, m)))
  {
    assert ParamOk(c, FindAsset(c.assets, m.amount[0].denom).value);
  }

  lemma CreatedIndexes(c: Config, ctx: Context, s: State, m: CreateMsg, s': State)
    requires Created(c, ctx, s, m, s')
    requires ExpiryIndexExact(s.swaps, s.byTimestamp) && DeletionIndexExact(s.swaps, s.longterm)
    ensures ExpiryIndexExact(s'.swaps, s'.byTimestamp) && DeletionIndexExact(s'.swaps, s'.longterm)
  {
    var swap := NewSwap(ctx, m, DirectionOf(c, m));
    ExpiryIndexInsert(s.swaps, s.byTimestamp, GetSwapID(c.hash, swap), swap);
    DeletionIndexOther(s.swaps, s.longterm, GetSwapID(c.hash, swap), swap);
  }

  lemma CreatedKeepsInv(c: Config, ctx: Context, s: State, m: CreateMsg, s': State)
    requires ParamsOk(c) && Inv(c, s) && MsgOk(c, m) && Created(c, ctx, s, m, s')
    ensures Inv(c, s')
  {
    var swap := NewSwap(ctx, m, DirectionOf(c, m));
    CreatedMoves(c, ctx, s, m, s');
    CreatedSwapOk(c, ctx, s, m, s');
    CreatedIndexes(c, ctx, s, m, s');
    assert SupplyOk(c, s, m.amount[0].denom);
    SwapMovesKeepsInv(c, s, s', GetSwapID(c.hash, swap), swap, s'.supplies[m.amount[0].denom]);
  }

  // ---------- Claim ----------

  /** What a successful claim did: the swap is closed and moved from the expiry index to the deletion
      index; an incoming amount is minted to the recipient, an outgoing one is burned from escrow. */
  ghost predicate Claimed(c: Config, ctx: Context, s: State, id: SwapID, s': State) {
    && id in s.swaps && s.swaps[id].status == OPEN && |s.swaps[id].amount| == 1
    && var swap, coin := s.swaps[id], s.swaps[id].amount[0];
    && coin.denom in s.supplies && coin.denom in s'.supplies
    && var p, p' := s.supplies[coin.denom], s'.supplies[coin.denom];
    && s'.swaps == s.swaps[id := swap.(status := COMPLETED, closedBlock := ctx.height)]
    && s'.byTimestamp == s.byTimestamp - {ExpiryKey(swap, id)}
    && s'.longterm == s.longterm[DeletionKey(swap.(closedBlock := ctx.height), id) := id]
    && s'.prevBlockTime == s.prevBlockTime
    && s'.supplies == s.supplies[coin.denom := p']
    && (swap.direction == INCOMING || swap.direction == OUTGOING)
    && (swap.direction == INCOMING ==>
          && p' == p.(incoming := p.incoming - coin.amount,
                      current := p.current + coin.amount,
                      timeLimitedCurrent := p'.timeLimitedCurrent)
          && FindAsset(c.assets, coin.denom).Some?
          && p'.timeLimitedCurrent - p.timeLimitedCurrent
             == (if FindAsset(c.assets, coin.denom).value.supplyLimit.timeLimited then coin.amount else 0)
          && (forall d: Denom :: Total(s'.bank, d) == Total(s.bank, d) + if d == coin.denom then coin.amount else 0)
          && (forall a: Address, d: Denom :: Balance(s'.bank, a, d) == Balance(s.bank, a, d) + Moved(a, swap.recipient, d, coin)))
    && (swap.direction == OUTGOING ==>
          && p' == p.(outgoing := p.outgoing - coin.amount, current := p.current - coin.amount)
          && (forall d: Denom :: Total(s'.bank, d) == Total(s.bank, d) - if d == coin.denom then coin.amount else 0)
          && (forall a: Address, d: Denom :: Balance(s'.bank, a, d) == Balance(s.bank, a, d) - Moved(a, c.moduleAddress, d, coin)))
  }

  /** A claim of an open swap with a fitting secret cannot fail: no counter, limit, rate limit or
      bank check can stop it. */
  lemma ClaimNeverBlocked(c: Config, ctx: Context, s: State, id: SwapID, number: Bytes)
    requires Inv(c, s)
    ensures Claim(c, ctx, s, id, number).Ok?
            <==> id in s.swaps && s.swaps[id].status == OPEN && SecretUnlocks(c.hash, s.swaps[id], number)
  {
    ClaimGuards(c, ctx, s, id, number);
    if id in s.swaps && s.swaps[id].status == OPEN {
      PayClaimSucceeds(c, s, id);
    }
  }

  lemma ClaimGuards(c: Config, ctx: Context, s: State, id: SwapID, number: Bytes)
    ensures Claim(c, ctx, s, id, number).Ok?
            <==> && id in s.swaps && s.swaps[id].status == OPEN && SecretUnlocks(c.hash, s.swaps[id], number)
                 && PayClaim(c, s, s.swaps[id]).Ok?
  {
  }

  /** The errors a claim can end in, each with its cause. */
  lemma ClaimErrors(c: Config, ctx: Context, s: State, id: SwapID, number: Bytes)
    requires Inv(c, s) && Claim(c, ctx, s, id, number).Err?
    ensures Claim(c, ctx, s, id, number).error
            == if id !in s.swaps then AtomicSwapNotFound
               else if s.swaps[id].status != OPEN then SwapNotClaimable
               else InvalidClaimSecret
  {
    ClaimNeverBlocked(c, ctx, s, id, number);
  }

  lemma LiveAmountCovered(c: Config, s: State, id: SwapID)
    requires Inv(c, s) && id in s.swaps && IsLive(s.swaps[id])
    ensures |s.swaps[id].amount| == 1 && s.swaps[id].amount[0].denom in s.supplies
    ensures var coin := s.swaps[id].amount[0];
            var p := s.supplies[coin.denom];
            && SupplyOk(c, s, coin.denom)
            && 0 < coin.amount
            && (s.swaps[id].direction == INCOMING ==> coin.amount <= p.incoming)
            && (s.swaps[id].direction == OUTGOING ==> coin.amount <= p.outgoing)
  {
    assert SwapOk(c, s.supplies, s.swaps[id]);
    var d := s.swaps[id].amount[0].denom;
    forall j | j in s.swaps ensures Part(s.swaps[j], INCOMING, d) >= 0 && Part(s.swaps[j], OUTGOING, d) >= 0 {
      assert SwapOk(c, s.supplies, s.swaps[j]);
    }
    SumCovers(s.swaps, id, INCOMING, d);
    SumCovers(s.swaps, id, OUTGOING, d);
  }

  lemma PayIncomingSucceeds(c: Config, s: State, swap: AtomicSwap)
    requires SwapOk(c, s.supplies, swap) && IsLive(swap) && swap.direction == INCOMING
    requires var d := swap.amount[0].denom;
             && WithinLimits(FindAsset(c.assets, d).value.supplyLimit, s.supplies[d])
             && swap.amount[0].amount <= s.supplies[d].incoming
             && Balance(s.bank, c.moduleAddress, d) >= 0
    ensures PayClaim(c, s, swap).Ok?
  {
    assert swap.amount == [swap.amount[0]];
    MintSendOne(s.bank, c.moduleAddress, swap.recipient, swap.amount[0]);
  }

  lemma PayOutgoingSucceeds(c: Config, s: State, swap: AtomicSwap)
    requires SwapOk(c, s.supplies, swap) && IsLive(swap) && swap.direction == OUTGOING
    requires var d := swap.amount[0].denom;
             && swap.amount[0].amount <= s.supplies[d].outgoing <= s.supplies[d].current
             && s.supplies[d].outgoing <= Balance(s.bank, c.moduleAddress, d)
    ensures PayClaim(c, s, swap).Ok?
  {
    assert swap.amount == [swap.amount[0]];
    BurnOne(s.bank, c.moduleAddress, swap.amount[0]);
  }

  lemma PayClaimSucceeds(c: Config, s: State, id: SwapID)
    requires Inv(c, s) && id in s.swaps && s.swaps[id].status == OPEN
    ensures PayClaim(c, s, s.swaps[id]).Ok?
  {
    LiveAmountCovered(c, s, id);
    assert SwapOk(c, s.supplies, s.swaps[id]);
    if s.swaps[id].direction == INCOMING {
      PayIncomingSucceeds(c, s, s.swaps[id]);
    } else {
      PayOutgoingSucceeds(c, s, s.swaps[id]);
    }
  }

  /** The counters and the bank after an incoming amount is paid out. */
  lemma PaidIncoming(c: Config, s: State, swap: AtomicSwap)
    requires SwapOk(c, s.supplies, swap) && swap.direction == INCOMING && PayClaim(c, s, swap).Ok?
    requires Balance(s.bank, c.moduleAddress, swap.amount[0].denom) >= 0
    ensures var coin, s' := swap.amount[0], PayClaim(c, s, swap).value;
            && coin.denom in s.supplies && coin.denom in s'.supplies
            && var p, limited := s.supplies[coin.denom], FindAsset(c.assets, coin.denom).value.supplyLimit.timeLimited;
            && s' == s.(supplies := s'.supplies, bank := s'.bank)
            && s'.supplies == s.supplies[coin.denom := p.(incoming := p.incoming - coin.amount,
                                                          current := p.current + coin.amount,
                                                          timeLimitedCurrent := p.timeLimitedCurrent + if limited then coin.amount else 0)]
            && (forall d: Denom :: Total(s'.bank, d) == Total(s.bank, d) + if d == coin.denom then coin.amount else 0)
            && (forall a: Address, d: Denom :: Balance(s'.bank, a, d) == Balance(s.bank, a, d) + Moved(a, swap.recipient, d, coin))
  {
    assert swap.amount == [swap.amount[0]];
    MintSendOne(s.bank, c.moduleAddress, swap.recipient, swap.amount[0]);
  }

  /** The counters and the bank after an outgoing amount is burned. */
  lemma PaidOutgoing(c: Config, s: State, swap: AtomicSwap)
    requires SwapOk(c, s.supplies, swap) && swap.direction == OUTGOING && PayClaim(c, s, swap).Ok?
    ensures var coin, s' := swap.amount[0], PayClaim(c, s, swap).value;
            && coin.denom in s.supplies && coin.denom in s'.supplies
            && var p := s.supplies[coin.denom];
            && s' == s.(supplies := s'.supplies, bank := s'.bank)
            && s'.supplies == s.supplies[coin.denom := p.(outgoing := p.outgoing - coin.amount, current := p.current - coin.amount)]
            && (forall d: Denom :: Total(s'.bank, d) == Total(s.bank, d) - if d == coin.denom then coin.amount else 0)
            && (forall a: Address, d: Denom :: Balance(s'.bank, a, d) == Balance(s.bank, a, d) - Moved(a, c.moduleAddress, d, coin))
  {
    assert swap.amount == [swap.amount[0]];
    BurnOne(s.bank, c.moduleAddress, swap.amount[0]);
  }

  lemma ClaimEffect(c: Config, ctx: Context, s: State, id: SwapID, number: Bytes)
    requires Claim(c, ctx, s, id, number).Ok?
    requires GetSwapID(c.hash, s.swaps[id]) == id && SwapOk(c, s.supplies, s.swaps[id])
    requires Balance(s.bank, c.moduleAddress, s.swaps[id].amount[0].denom) >= 0
    ensures Claimed(c, ctx, s, id, Claim(c, ctx, s, id, number).value)
  {
    var swap := s.swaps[id];
    var paid := PayClaim(c, s, swap);
    if swap.direction == INCOMING {
      PaidIncoming(c, s, swap);
    } else {
      PaidOutgoing(c, s, swap);
    }
    var key := ExpiryKey(swap, id);
    assert Claim(c, ctx, s, id, number).value
           == StoreClosed(c, paid.value.(byTimestamp := paid.value.byTimestamp - {key}), Close(swap, ctx));
  }

  lemma ClosedMoves(c: Config, ctx: Context, s: State, id: SwapID, s': State)
    requires Claimed(c, ctx, s, id, s') || Refunded(c, ctx, s, id, s')
    requires SwapOk(c, s.supplies, s.swaps[id])
    requires s.supplies[s.swaps[id].amount[0].denom].denom == s.swaps[id].amount[0].denom
    ensures SwapMoves(c, s, s', id, Close(s.swaps[id], ctx), s'.supplies[s.swaps[id].amount[0].denom])
  {
  }

  lemma ClosedIndexes(c: Config, ctx: Context, s: State, id: SwapID, s': State)
    requires Claimed(c, ctx, s, id, s') || Refunded(c, ctx, s, id, s')
    requires ExpiryIndexExact(s.swaps, s.byTimestamp) && DeletionIndexExact(s.swaps, s.longterm)
    ensures ExpiryIndexExact(s'.swaps, s'.byTimestamp) && DeletionIndexExact(s'.swaps, s'.longterm)
  {
    var closed := Close(s.swaps[id], ctx);
    DeletionIndexInsert(s.swaps, s.longterm, id, closed);
    if s.swaps[id].status == OPEN {
      ExpiryIndexRemove(s.swaps, s.byTimestamp, id, closed);
    } else {
      ExpiryIndexOther(s.swaps, s.byTimestamp, id, closed);
    }
  }

  lemma ClosedLimits(c: Config, ctx: Context, s: State, id: SwapID, s': State)
    requires Claimed(c, ctx, s, id, s') || Refunded(c, ctx, s, id, s')
    requires Inv(c, s)
    ensures var d := s.swaps[id].amount[0].denom;
            FindAsset(c.assets, d).Some? && WithinLimits(FindAsset(c.assets, d).value.supplyLimit, s'.supplies[d])
  {
    LiveAmountCovered(c, s, id);
    assert WithinLimits(FindAsset(c.assets, s.swaps[id].amount[0].denom).value.supplyLimit, s.supplies[s.swaps[id].amount[0].denom]);
  }

  /** Claims and refunds keep the invariants. */
  lemma ClosedKeepsInv(c: Config, ctx: Context, s: State, id: SwapID, s': State)
    requires Inv(c, s) && (Claimed(c, ctx, s, id, s') || Refunded(c, ctx, s, id, s'))
    ensures Inv(c, s')
  {
    var d := s.swaps[id].amount[0].denom;
    assert SwapOk(c, s.supplies, s.swaps[id]) && SupplyOk(c, s, d);
    ClosedMoves(c, ctx, s, id, s');
    ClosedIndexes(c, ctx, s, id, s');
    ClosedLimits(c, ctx, s, id, s');
    SwapMovesKeepsInv(c, s, s', id, Close(s.swaps[id], ctx), s'.supplies[d]);
  }

  // ---------- Refund ----------

  /** What a successful refund did: the swap is closed and scheduled for deletion, and an outgoing
      amount goes back from escrow to its sender. */
  ghost predicate Refunded(c: Config, ctx: Context, s: State, id: SwapID, s': State) {
    && id in s.swaps && s.swaps[id].status == EXPIRED && |s.swaps[id].amount| == 1
    && var swap, coin := s.swaps[id], s.swaps[id].amount[0];
    && coin.denom in s.supplies && coin.denom in s'.supplies
    && var p, p' := s.supplies[coin.denom], s'.supplies[coin.denom];
    && s'.swaps == s.swaps[id := swap.(status := COMPLETED, closedBlock := ctx.height)]
    && s'.byTimestamp == s.byTimestamp
    && s'.longterm == s.longterm[DeletionKey(swap.(closedBlock := ctx.height), id) := id]
    && s'.prevBlockTime == s.prevBlockTime
    && s'.supplies == s.supplies[coin.denom := p']
    && s'.bank.totals == s.bank.totals
    && (swap.direction == INCOMING || swap.direction == OUTGOING)
    && (swap.direction == INCOMING ==>
          && p' == p.(incoming := p.incoming - coin.amount)
          && s'.bank == s.bank)
    && (swap.direction == OUTGOING ==>
          && p' == p.(outgoing := p.outgoing - coin.amount)
          && (forall a: Address, d: Denom ::
                Balance(s'.bank, a, d) == Balance(s.bank, a, d) - Moved(a, c.moduleAddress, d, coin) + Moved(a, swap.sender, d, coin)))
  }

  /** A refund of an expired swap cannot fail: its counter and the escrow both cover the amount. */
  lemma RefundNeverBlocked(c: Config, ctx: Context, s: State, id: SwapID)
    requires Inv(c, s)
    ensures Refund(c, ctx, s, id).Ok? <==> id in s.swaps && s.swaps[id].status == EXPIRED
  {
    if id in s.swaps && s.swaps[id].status == EXPIRED {
      LiveAmountCovered(c, s, id);
      assert SwapOk(c, s.supplies, s.swaps[id]);
      assert s.swaps[id].amount == [s.swaps[id].amount[0]];
      SendOne(s.bank, c.moduleAddress, s.swaps[id].sender, s.swaps[id].amount[0]);
    }
  }

  /** The errors a refund can end in, each with its cause. */
  lemma RefundErrors(c: Config, ctx: Context, s: State, id: SwapID)
    requires Inv(c, s) && Refund(c, ctx, s, id).Err?
    ensures Refund(c, ctx, s, id).error == if id !in s.swaps then AtomicSwapNotFound else SwapNotRefundable
  {
    RefundNeverBlocked(c, ctx, s, id);
  }

  lemma RefundEffect(c: Config, ctx: Context, s: State, id: SwapID)
    requires Refund(c, ctx, s, id).Ok?
    requires GetSwapID(c.hash, s.swaps[id]) == id && SwapOk(c, s.supplies, s.swaps[id])
    ensures Refunded(c, ctx, s, id, Refund(c, ctx, s, id).value)
  {
    var swap := s.swaps[id];
    assert swap.amount == [swap.amount[0]];
    SendOne(s.bank, c.moduleAddress, swap.sender, swap.amount[0]);
  }

  // ---------- Every transaction ----------

  ghost predicate Transferred(c: Config, s: State, from: Address, to: Address, coins: seq<Coin>, s': State) {
    && |coins| == 1
    && s' == s.(bank := s'.bank)
    && s'.bank.totals == s.bank.totals
    && (forall a: Address, d: Denom ::
          Balance(s'.bank, a, d) == Balance(s.bank, a, d) - Moved(a, from, d, coins[0]) + Moved(a, to, d, coins[0]))
  }

  /** The effect of a successful transaction, whatever its kind. */
  ghost predicate Effect(c: Config, ctx: Context, s: State, tx: Tx, s': State) {
    match tx
    case CreateTx(m) => Created(c, ctx, s, m, s')
    case ClaimTx(id, number) => Claimed(c, ctx, s, id, s') && SwapOk(c, s.supplies, s.swaps[id])
    case RefundTx(id) => Refunded(c, ctx, s, id, s') && SwapOk(c, s.supplies, s.swaps[id])
    case TransferTx(from, to, coins) => Transferred(c, s, from, to, coins, s')
  }

  lemma HandleEffect(c: Config, ctx: Context, s: State, tx: Tx)
    requires Inv(c, s) && TxOk(c, tx) && Handle(c, ctx, s, tx).Ok?
    ensures Effect(c, ctx, s, tx, Handle(c, ctx, s, tx).value)
  {
    match tx
    case CreateTx(m) =>
      CreateEffect(c, ctx, s, m);
    case ClaimTx(id, number) =>
      assert SwapOk(c, s.supplies, s.swaps[id]);
      ClaimEffect(c, ctx, s, id, number);
    case RefundTx(id) =>
      assert SwapOk(c, s.supplies, s.swaps[id]);
      RefundEffect(c, ctx, s, id);
    case TransferTx(from, to, coins) =>
      assert coins == [coins[0]];
      SendOne(s.bank, from, to, coins[0]);
  }

  lemma EffectKeepsInv(c: Config, ctx: Context, s: State, tx: Tx, s': State)
    requires ParamsOk(c) && Inv(c, s) && TxOk(c, tx) && Effect(c, ctx, s, tx, s')
    ensures Inv(c, s')
  {
    match tx
    case CreateTx(m) => CreatedKeepsInv(c, ctx, s, m, s');
    case ClaimTx(id, number) => ClosedKeepsInv(c, ctx, s, id, s');
    case RefundTx(id) => ClosedKeepsInv(c, ctx, s, id, s');
    case TransferTx(from, to, coins) => TransferredKeepsInv(c, s, from, to, coins, s');
  }

  lemma TransferredKeepsInv(c: Config, s: State, from: Address, to: Address, coins: seq<Coin>, s': State)
    requires Inv(c, s) && from != c.moduleAddress && to != c.moduleAddress
    requires Transferred(c, s, from, to, coins, s')
    ensures Inv(c, s')
  {
    forall d | d in s'.supplies ensures SupplyOk(c, s', d) {
      assert SupplyOk(c, s, d);
    }
  }

  /** Every message, accepted or rejected, keeps the invariants. */
  lemma DeliverKeepsInv(c: Config, ctx: Context, s: State, tx: Tx)
    requires ParamsOk(c) && Inv(c, s) && TxOk(c, tx)
    ensures Inv(c, Deliver(c, ctx, s, tx))
  {
    var r := Handle(c, ctx, s, tx);
    if r.Ok? {
      HandleEffect(c, ctx, s, tx);
      EffectKeepsInv(c, ctx, s, tx, r.value);
    }
  }
}
