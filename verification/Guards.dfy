/** What the handlers check, in any state: no invariant is assumed here. */
module Guards {
  import opened Bytes
  import opened Types
  import opened Hashes
  import opened Banking
  import opened Supply
  import opened Machine
  import opened Invariants

  // ---------- Claims ----------

  /** The record of the coin exists, its incoming counter covers the coin and its limits admit it. */
  predicate CounterCovers(c: Config, supplies: Supplies, coin: Coin) {
    && coin.denom in supplies && FindAsset(c.assets, coin.denom).Some?
    && var p, limit := supplies[coin.denom], FindAsset(c.assets, coin.denom).value.supplyLimit;
    && coin.amount <= p.incoming
    && p.current + coin.amount <= limit.limit
    && (limit.timeLimited ==> p.timeLimitedCurrent + coin.amount <= limit.timeBasedLimit)
  }

  lemma PayIncomingExact(c: Config, s: State, swap: AtomicSwap)
    requires |swap.amount| == 1 && swap.direction == INCOMING
    requires Balance(s.bank, c.moduleAddress, swap.amount[0].denom) >= 0
    ensures PayClaim(c, s, swap).Ok? <==> CounterCovers(c, s.supplies, swap.amount[0])
  {
    assert swap.amount == [swap.amount[0]];
    MintSendOne(s.bank, c.moduleAddress, swap.recipient, swap.amount[0]);
  }

  /** In any state, the claim of an open incoming swap succeeds exactly when the secret fits and the counter of
      its denomination covers it. */
  lemma ClaimIncomingExact(c: Config, ctx: Context, s: State, id: SwapID, number: Bytes)
    requires id in s.swaps && s.swaps[id].status == OPEN && s.swaps[id].direction == INCOMING && |s.swaps[id].amount| == 1
    requires Balance(s.bank, c.moduleAddress, s.swaps[id].amount[0].denom) >= 0
    ensures Claim(c, ctx, s, id, number).Ok?
            <==> SecretUnlocks(c.hash, s.swaps[id], number) && CounterCovers(c, s.supplies, s.swaps[id].amount[0])
  {
    ClaimGuards(c, ctx, s, id, number);
    PayIncomingExact(c, s, s.swaps[id]);
  }

  /** An outgoing claim needs both counters and the escrow to cover the amount. */
  lemma ClaimOutgoingExact(c: Config, ctx: Context, s: State, id: SwapID, number: Bytes)
    requires id in s.swaps && s.swaps[id].status == OPEN && s.swaps[id].direction == OUTGOING && |s.swaps[id].amount| == 1
    ensures var coin := s.swaps[id].amount[0];
            Claim(c, ctx, s, id, number).Ok?
            <==> && SecretUnlocks(c.hash, s.swaps[id], number)
                 && coin.denom in s.supplies
                 && coin.amount <= s.supplies[coin.denom].outgoing && coin.amount <= s.supplies[coin.denom].current
                 && coin.amount <= Balance(s.bank, c.moduleAddress, coin.denom)
  {
    ClaimGuards(c, ctx, s, id, number);
    assert s.swaps[id].amount == [s.swaps[id].amount[0]];
    BurnOne(s.bank, c.moduleAddress, s.swaps[id].amount[0]);
  }

  // ---------- Refunds ----------

  /** An incoming refund needs its counter, an outgoing one its counter and the escrow. */
  lemma RefundExact(c: Config, ctx: Context, s: State, id: SwapID)
    requires id in s.swaps && s.swaps[id].status == EXPIRED && |s.swaps[id].amount| == 1
    ensures var coin, direction := s.swaps[id].amount[0], s.swaps[id].direction;
            Refund(c, ctx, s, id).Ok?
            <==> && coin.denom in s.supplies
                 && ((direction == 1 && coin.amount <= s.supplies[coin.denom].incoming)
                     || (direction == 2 && coin.amount <= s.supplies[coin.denom].outgoing
                         && coin.amount <= Balance(s.bank, c.moduleAddress, coin.denom)))
  {
    assert s.swaps[id].amount == [s.swaps[id].amount[0]];
    SendOne(s.bank, c.moduleAddress, s.swaps[id].sender, s.swaps[id].amount[0]);
  }

  // ---------- Creates ----------

  /** The errors of the first guards, each with its cause in the message and the state. */
  predicate MessageErrorCause(c: Config, ctx: Context, s: State, m: CreateMsg, e: Error) {
    || (e == AtomicSwapAlreadyExists && CalculateSwapID(c.hash, m.randomNumberHash, m.sender, m.senderOtherChain) in s.swaps)
    || (e == Unauthorized && m.recipient in c.moduleAccounts)
    || (e == NotSingleCoin && |m.amount| != 1)
    || (e == InvalidTimestamp
        && !(ctx.time - 15 * MINUTE < (m.timestamp + 1) * SECOND <= ctx.time + 30 * MINUTE))
    || (e == AssetNotSupported && |m.amount| == 1
        && (FindAsset(c.assets, m.amount[0].denom).None? || m.amount[0].denom !in s.supplies))
  }

  /** The errors that depend on the parameters of the asset. */
  predicate AssetErrorCause(m: CreateMsg, coin: Coin, asset: AssetParam, e: Error) {
    || (e == AssetNotActive && !asset.active)
    || (e == InvalidAmount && (coin.amount < asset.minSwapAmount || coin.amount > asset.maxSwapAmount))
    || (e == InvalidSwapAccount && (m.sender == asset.deputyAddress) == (m.recipient == asset.deputyAddress))
    || (e == InvalidTimeSpan && m.sender != asset.deputyAddress && !(1 <= m.timeSpanMin <= 4320))
    || (e == InsufficientAmount && m.sender != asset.deputyAddress && coin.amount <= asset.fixedFee + asset.minSwapAmount)
  }

  /** The errors that depend on the counters and the funds of the sender. */
  predicate CounterErrorCause(s: State, m: CreateMsg, coin: Coin, asset: AssetParam, p: AssetSupply, e: Error) {
    || (e == ExceedsSupplyLimit && m.sender == asset.deputyAddress
        && p.current + p.incoming + coin.amount > asset.supplyLimit.limit)
    || (e == ExceedsTimeBasedSupplyLimit && m.sender == asset.deputyAddress && asset.supplyLimit.timeLimited
        && p.timeLimitedCurrent + p.incoming + coin.amount > asset.supplyLimit.timeBasedLimit)
    || (e == ExceedsAvailableSupply && m.sender != asset.deputyAddress && p.outgoing + coin.amount > p.current)
    || (e == InsufficientFunds && m.sender != asset.deputyAddress && coin.amount > Balance(s.bank, m.sender, coin.denom))
  }

  predicate ErrorCause(c: Config, ctx: Context, s: State, m: CreateMsg, e: Error) {
    || MessageErrorCause(c, ctx, s, m, e)
    || (|m.amount| == 1 && FindAsset(c.assets, m.amount[0].denom).Some?
        && var coin, asset := m.amount[0], FindAsset(c.assets, m.amount[0].denom).value;
        || AssetErrorCause(m, coin, asset, e)
        || (coin.denom in s.supplies && CounterErrorCause(s, m, coin, asset, s.supplies[coin.denom], e)))
  }

  /** A create fails for one of these causes and no other. */
  lemma CreateErrors(c: Config, ctx: Context, s: State, m: CreateMsg)
    requires Create(c, ctx, s, m).Err?
    ensures ErrorCause(c, ctx, s, m, Create(c, ctx, s, m).error)
  {
    var checked := CheckCreate(c, ctx, s, m);
    TimestampWindow(ctx, m.timestamp);
    if checked.Ok? {
      assert m.amount == [m.amount[0]];
      SendOne(s.bank, m.sender, c.moduleAddress, m.amount[0]);
    }
  }

  // ---------- Several coins ----------

  lemma {:induction false} AddCoinsExact(b: Bank, to: Address, coins: seq<Coin>, a: Address, d: Denom)
    ensures Balance(AddCoins(b, to, coins), a, d) == Balance(b, a, d) + if a == to then AmountIn(coins, d) else 0
    ensures Total(AddCoins(b, to, coins), d) == Total(b, d)
    decreases coins
  {
    if coins != [] {
      AddCoinsExact(Add(b, to, coins[0]), to, coins[1..], a, d);
    }
  }

  lemma {:induction false} SubCoinsExact(b: Bank, from: Address, coins: seq<Coin>, a: Address, d: Denom)
    requires SubCoins(b, from, coins).Ok?
    ensures Balance(SubCoins(b, from, coins).value, a, d) == Balance(b, a, d) - if a == from then AmountIn(coins, d) else 0
    ensures Total(SubCoins(b, from, coins).value, d) == Total(b, d)
    decreases coins
  {
    if coins != [] {
      SubCoinsExact(Add(b, from, Coin(coins[0].denom, -coins[0].amount)), from, coins[1..], a, d);
    }
  }

  /** A list of coins of different denominations can be taken exactly when each of them is there. */
  lemma {:induction false} SubCoinsOk(b: Bank, from: Address, coins: seq<Coin>)
    requires forall i, j | 0 <= i < j < |coins| :: coins[i].denom != coins[j].denom
    ensures SubCoins(b, from, coins).Ok? <==> forall i | 0 <= i < |coins| :: coins[i].amount <= Balance(b, from, coins[i].denom)
    decreases coins
  {
    if coins != [] && coins[0].amount <= Balance(b, from, coins[0].denom) {
      var taken := Add(b, from, Coin(coins[0].denom, -coins[0].amount));
      SubCoinsOk(taken, from, coins[1..]);
      forall i | 1 <= i < |coins| ensures Balance(taken, from, coins[i].denom) == Balance(b, from, coins[i].denom) {
        assert coins[0].denom != coins[i].denom;
      }
      assert forall i | 0 <= i < |coins| - 1 :: coins[1..][i] == coins[i + 1];
      assert forall i | 1 <= i < |coins| :: coins[i] == coins[1..][i - 1];
    }
  }

  /** A send of several coins moves each of them from one account to the other. */
  lemma SendExact(b: Bank, from: Address, to: Address, coins: seq<Coin>, a: Address, d: Denom)
    requires Send(b, from, to, coins).Ok?
    ensures Balance(Send(b, from, to, coins).value, a, d)
            == Balance(b, a, d) - (if a == from then AmountIn(coins, d) else 0) + if a == to then AmountIn(coins, d) else 0
    ensures Total(Send(b, from, to, coins).value, d) == Total(b, d)
  {
    SubCoinsExact(b, from, coins, a, d);
    AddCoinsExact(SubCoins(b, from, coins).value, to, coins, a, d);
  }
}
