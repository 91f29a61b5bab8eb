/** The keeper: the store fields its methods read and write in place. */
module SwapKeeper {
  import opened Wrappers
  import opened Bytes
  import opened Types
  import opened Keys
  import opened Hashes
  import opened Banking
  import opened Supply
  import opened Machine
  import opened Invariants
  import opened Blocks
  import opened Genesis

  /** A supply method applies its specification or fails without writing. */
  ghost predicate Applied(r: Outcome<Error>, spec: Result<Supplies, Error>, before: Supplies, after: Supplies) {
    match spec
    case Ok(value) => r == Pass && after == value
    case Err(error) => r == Fail(error) && after == before
  }

  /** A handler reaches the specified state or fails with the specified error. */
  ghost predicate Reaches(r: Outcome<Error>, spec: Result<State, Error>, after: State) {
    match spec
    case Ok(value) => r == Pass && after == value
    case Err(error) => r == Fail(error)
  }

  ghost predicate ReachesImport(r: Outcome<Error>, spec: Result<Import, Error>, after: Import) {
    match spec
    case Ok(value) => r == Pass && after == value
    case Err(error) => r == Fail(error)
  }

  // ---------- One more turn of each loop ----------

  lemma RollAllStep(assets: seq<AssetParam>, elapsed: int64, supplies: Supplies, i: nat)
    requires i < |assets|
    ensures var before := RollAll(assets[..i], elapsed, supplies);
            RollAll(assets[..i + 1], elapsed, supplies)
            == before[assets[i].denom := Roll(assets[i], elapsed, SupplyOrNew(before, assets[i].denom))]
  {
    assert assets[..i + 1][..i] == assets[..i];
  }

  lemma ExpireAllStep(c: Config, s: State, ids: seq<SwapID>, i: nat)
    requires i < |ids|
    ensures ExpireAll(c, s, ids[..i + 1]) == ExpireOne(c, ExpireAll(c, s, ids[..i]), ids[i])
  {
    assert ids[..i + 1][..i] == ids[..i];
  }

  lemma DeleteAllStep(c: Config, s: State, ids: seq<SwapID>, i: nat)
    requires i < |ids|
    ensures DeleteAll(c, s, ids[..i + 1]) == DeleteOne(c, DeleteAll(c, s, ids[..i]), ids[i])
  {
    assert ids[..i + 1][..i] == ids[..i];
  }

  lemma ImportSwapsStep(c: Config, now: int, start: Import, list: seq<AtomicSwap>, i: nat)
    requires i < |list| && ImportSwaps(c, now, start, list[..i]).Ok?
    ensures ImportSwaps(c, now, start, list[..i + 1]) == ImportSwap(c, now, ImportSwaps(c, now, start, list[..i]).value, list[i])
  {
    assert list[..i + 1][..i] == list[..i];
  }

  /** Once the import loop has failed it stays failed. */
  lemma {:induction false} ImportSwapsFail(c: Config, now: int, start: Import, list: seq<AtomicSwap>, i: nat)
    requires i <= |list| && ImportSwaps(c, now, start, list[..i]).Err?
    ensures ImportSwaps(c, now, start, list) == Err(ImportSwaps(c, now, start, list[..i]).error)
    decreases |list| - i
  {
    if i == |list| {
      assert list[..i] == list;
    } else {
      assert list[..i + 1][..i] == list[..i];
      ImportSwapsFail(c, now, start, list, i + 1);
    }
  }

  // ---------- Stateless validation of a genesis file ----------

  method ValidateParams(c: Config, assets: seq<AssetParam>) returns (ok: bool)
    ensures ok <==> DistinctDenoms(assets) && forall a | a in assets :: ParamOk(c, a)
  {
    var coinDenoms := {};
    var i := 0;
    while i < |assets|
      invariant 0 <= i <= |assets|
      invariant coinDenoms == set j | 0 <= j < i :: assets[j].denom
      invariant DistinctDenoms(assets[..i])
      invariant forall j | 0 <= j < i :: ParamOk(c, assets[j])
    {
      if !ParamOk(c, assets[i]) || assets[i].denom in coinDenoms {
        assert assets[i] in assets;
        return false;
      }
      coinDenoms := coinDenoms + {assets[i].denom};
      i := i + 1;
    }
    assert assets[..i] == assets;
    ok := true;
  }

  method ValidateSwaps(c: Config, now: int, list: seq<AtomicSwap>) returns (ok: bool)
    ensures ok <==> DistinctIDs(c, list) && forall w | w in list :: SwapValid(c, now, w)
  {
    var ids := {};
    var i := 0;
    while i < |list|
      invariant 0 <= i <= |list|
      invariant ids == set j | 0 <= j < i :: GetSwapID(c.hash, list[j])
      invariant DistinctIDs(c, list[..i])
      invariant forall j | 0 <= j < i :: SwapValid(c, now, list[j])
    {
      var id := GetSwapID(c.hash, list[i]);
      if id in ids || !SwapValid(c, now, list[i]) {
        assert list[i] in list;
        return false;
      }
      ids := ids + {id};
      i := i + 1;
    }
    assert list[..i] == list;
    ok := true;
  }

  method ValidateSupplies(c: Config, list: seq<AssetSupply>) returns (ok: bool)
    ensures ok <==> DistinctSupplies(list) && forall p | p in list :: SupplyValid(c, p)
  {
    var supplyDenoms := {};
    var i := 0;
    while i < |list|
      invariant 0 <= i <= |list|
      invariant supplyDenoms == set j | 0 <= j < i :: list[j].denom
      invariant DistinctSupplies(list[..i])
      invariant forall j | 0 <= j < i :: SupplyValid(c, list[j])
    {
      if !SupplyValid(c, list[i]) || list[i].denom in supplyDenoms {
        assert list[i] in list;
        return false;
      }
      supplyDenoms := supplyDenoms + {list[i].denom};
      i := i + 1;
    }
    assert list[..i] == list;
    ok := true;
  }

  method ValidateGenesis(c: Config, now: int, gs: GenesisState) returns (ok: bool)
    ensures ok <==> GenesisValid(c, now, gs)
  {
    ok := ValidateParams(c, gs.params);
    if ok {
      ok := ValidateSwaps(c, now, gs.swaps);
    }
    if ok {
      ok := ValidateSupplies(c, gs.supplies);
    }
  }

  lemma DeliverKeepsValid(c: Config, ctx: Context, s: State, tx: Tx)
    ensures ParamsOk(c) && Inv(c, s) && TxOk(c, tx) ==> Inv(c, Deliver(c, ctx, s, tx))
  {
    if ParamsOk(c) && Inv(c, s) && TxOk(c, tx) {
      DeliverKeepsInv(c, ctx, s, tx);
    }
  }

  /** An import into an unused store makes the keeper valid exactly when it leaves no gap. */
  lemma ImportedValid(c: Config, now: int, store: State, gs: GenesisState)
    requires Unused(store) && InitInto(c, now, store, gs).Ok?
    ensures InitGenesis(c, now, store.bank, gs) == InitInto(c, now, store, gs)
    ensures c.moduleAddress in c.moduleAccounts ==>
              (ParamsOk(Installed(c, gs)) && Inv(Installed(c, gs), InitInto(c, now, store, gs).value) <==> NoGaps(c, store.bank, gs))
  {
    UnusedLoads(store, gs);
    AcceptedGenesisInv(c, now, store.bank, gs);
  }

  class Keeper {
    var config: Config
    var swaps: map<SwapID, AtomicSwap>
    var byTimestamp: map<Bytes, SwapID>
    var longterm: map<Bytes, SwapID>
    var supplies: Supplies
    var prevBlockTime: Option<Time>
    var bank: Bank

    /** A keeper over whatever the store holds. */
    constructor (config: Config, store: State)
      ensures this.config == config && Snapshot() == store
      ensures ParamsOk(config) && Inv(config, store) ==> Valid()
    {
      this.config := config;
      swaps, byTimestamp, longterm := store.swaps, store.byTimestamp, store.longterm;
      supplies, prevBlockTime, bank := store.supplies, store.prevBlockTime, store.bank;
    }

    /** The stored values as one state of the transition system. */
    function Snapshot(): State
      reads this
    {
      State(swaps, byTimestamp, longterm, supplies, prevBlockTime, bank)
    }

    ghost predicate Valid()
      reads this
    {
      ParamsOk(config) && Inv(config, Snapshot())
    }

    // ---------- Parameters ----------

    method GetAsset(denom: Denom) returns (r: Option<AssetParam>)
      ensures r == FindAsset(config.assets, denom)
    {
      var i := 0;
      while i < |config.assets|
        invariant 0 <= i <= |config.assets|
        invariant FindAsset(config.assets, denom) == FindAsset(config.assets[i..], denom)
      {
        if denom == config.assets[i].denom {
          return Some(config.assets[i]);
        }
        assert config.assets[i..][1..] == config.assets[i + 1..];
        i := i + 1;
      }
      r := None;
    }

    // ---------- Supplies ----------

    method IncrementCurrentAssetSupply(coin: Coin) returns (r: Outcome<Error>)
      modifies this`supplies
      ensures Applied(r, IncrementCurrent(config, old(supplies), coin), old(supplies), supplies)
    {
      if coin.denom !in supplies { return Fail(AssetNotSupported); }
      var supply := supplies[coin.denom];
      var asset := GetAsset(coin.denom);
      if asset.None? { return Fail(AssetNotSupported); }
      var limit := asset.value.supplyLimit;
      if limit.limit < supply.current + coin.amount { return Fail(ExceedsSupplyLimit); }
      if limit.timeLimited {
        if limit.timeBasedLimit < supply.timeLimitedCurrent + coin.amount { return Fail(ExceedsTimeBasedSupplyLimit); }
        supply := supply.(timeLimitedCurrent := supply.timeLimitedCurrent + coin.amount);
      }
      supply := supply.(current := supply.current + coin.amount);
      supplies := supplies[coin.denom := supply];
      r := Pass;
    }

    method DecrementCurrentAssetSupply(coin: Coin) returns (r: Outcome<Error>)
      modifies this`supplies
      ensures Applied(r, DecrementCurrent(old(supplies), coin), old(supplies), supplies)
    {
      if coin.denom !in supplies { return Fail(AssetNotSupported); }
      var supply := supplies[coin.denom];
      if supply.current - coin.amount < 0 { return Fail(InvalidCurrentSupply); }
      supply := supply.(current := supply.current - coin.amount);
      supplies := supplies[coin.denom := supply];
      r := Pass;
    }

    method IncrementIncomingAssetSupply(coin: Coin) returns (r: Outcome<Error>)
      modifies this`supplies
      ensures Applied(r, IncrementIncoming(config, old(supplies), coin), old(supplies), supplies)
    {
      if coin.denom !in supplies { return Fail(AssetNotSupported); }
      var supply := supplies[coin.denom];
      var totalSupply := supply.current + supply.incoming;
      var asset := GetAsset(coin.denom);
      if asset.None? { return Fail(AssetNotSupported); }
      var limit := asset.value.supplyLimit;
      if limit.limit < totalSupply + coin.amount { return Fail(ExceedsSupplyLimit); }
      if limit.timeLimited {
        var timeLimitedTotal := supply.timeLimitedCurrent + supply.incoming;
        if limit.timeBasedLimit < timeLimitedTotal + coin.amount { return Fail(ExceedsTimeBasedSupplyLimit); }
      }
      supply := supply.(incoming := supply.incoming + coin.amount);
      supplies := supplies[coin.denom := supply];
      r := Pass;
    }

    method DecrementIncomingAssetSupply(coin: Coin) returns (r: Outcome<Error>)
      modifies this`supplies
      ensures Applied(r, DecrementIncoming(old(supplies), coin), old(supplies), supplies)
    {
      if coin.denom !in supplies { return Fail(AssetNotSupported); }
      var supply := supplies[coin.denom];
      if supply.incoming - coin.amount < 0 { return Fail(InvalidIncomingSupply); }
      supply := supply.(incoming := supply.incoming - coin.amount);
      supplies := supplies[coin.denom := supply];
      r := Pass;
    }

    method IncrementOutgoingAssetSupply(coin: Coin) returns (r: Outcome<Error>)
      modifies this`supplies
      ensures Applied(r, IncrementOutgoing(old(supplies), coin), old(supplies), supplies)
    {
      if coin.denom !in supplies { return Fail(AssetNotSupported); }
      var supply := supplies[coin.denom];
      if supply.current < supply.outgoing + coin.amount { return Fail(ExceedsAvailableSupply); }
      supply := supply.(outgoing := supply.outgoing + coin.amount);
      supplies := supplies[coin.denom := supply];
      r := Pass;
    }

    method DecrementOutgoingAssetSupply(coin: Coin) returns (r: Outcome<Error>)
      modifies this`supplies
      ensures Applied(r, DecrementOutgoing(old(supplies), coin), old(supplies), supplies)
    {
      if coin.denom !in supplies { return Fail(AssetNotSupported); }
      var supply := supplies[coin.denom];
      if supply.outgoing - coin.amount < 0 { return Fail(InvalidOutgoingSupply); }
      supply := supply.(outgoing := supply.outgoing - coin.amount);
      supplies := supplies[coin.denom := supply];
      r := Pass;
    }

    method CreateNewAssetSupply(denom: Denom) returns (supply: AssetSupply)
      modifies this`supplies
      ensures supply == NewSupply(denom) && supplies == old(supplies)[denom := supply]
    {
      supply := AssetSupply(denom, 0, 0, 0, 0, 0);
      supplies := supplies[denom := supply];
    }

    /** The loop body: accumulate block time, or close the window. */
    method RollAssetSupply(asset: AssetParam, timeElapsed: int64)
      modifies this`supplies
      ensures supplies == old(supplies)[asset.denom := Roll(asset, timeElapsed, SupplyOrNew(old(supplies), asset.denom))]
    {
      var supply;
      if asset.denom in supplies {
        supply := supplies[asset.denom];
      } else {
        supply := CreateNewAssetSupply(asset.denom);
      }
      var newTimeElapsed := Wrap64(supply.timeElapsed + timeElapsed);
      if asset.supplyLimit.timeLimited && newTimeElapsed < asset.supplyLimit.timePeriod {
        supply := supply.(timeElapsed := newTimeElapsed);
      } else {
        supply := supply.(timeElapsed := 0, timeLimitedCurrent := 0);
      }
      supplies := supplies[asset.denom := supply];
    }

    /** One pass over the assets: accumulate block time, or close the window. */
    method UpdateTimeBasedSupplyLimits(ctx: Context)
      modifies this`supplies, this`prevBlockTime
      ensures Snapshot() == RollWindows(config, ctx, old(Snapshot()))
    {
      if config.assets == [] {
        return;
      }
      if prevBlockTime.None? {
        prevBlockTime := Some(ctx.time);
      }
      var timeElapsed := Sub(ctx.time, prevBlockTime.value);
      var i := 0;
      while i < |config.assets|
        invariant 0 <= i <= |config.assets|
        invariant supplies == RollAll(config.assets[..i], timeElapsed, old(supplies))
      {
        RollAllStep(config.assets, timeElapsed, old(supplies), i);
        RollAssetSupply(config.assets[i], timeElapsed);
        i := i + 1;
      }
      assert config.assets[..i] == config.assets;
      prevBlockTime := Some(ctx.time);
    }

    // ---------- Messages ----------

    /** The guards of a create, before it writes anything. */
    method CheckRequest(ctx: Context, m: CreateMsg) returns (r: Result<(AssetParam, SwapDirection), Error>)
      ensures r == CheckCreate(config, ctx, Snapshot(), m)
    {
      var swapID := CalculateSwapID(config.hash, m.randomNumberHash, m.sender, m.senderOtherChain);
      if swapID in swaps { return Err(AtomicSwapAlreadyExists); }
      if m.recipient in config.moduleAccounts { return Err(Unauthorized); }
      if |m.amount| != 1 { return Err(NotSingleCoin); }
      var found := GetAsset(m.amount[0].denom);
      if found.None? { return Err(AssetNotSupported); }
      var asset := found.value;
      if !asset.active { return Err(AssetNotActive); }
      if m.amount[0].amount < asset.minSwapAmount || m.amount[0].amount > asset.maxSwapAmount { return Err(InvalidAmount); }
      if m.timestamp < Unix(ctx.time - 15 * MINUTE) || m.timestamp >= Unix(ctx.time + 30 * MINUTE) { return Err(InvalidTimestamp); }

      var direction := OUTGOING;
      if m.sender == asset.deputyAddress {
        if m.recipient == asset.deputyAddress { return Err(InvalidSwapAccount); }
        direction := INCOMING;
      } else if m.recipient != asset.deputyAddress {
        return Err(InvalidSwapAccount);
      }
      r := Ok((asset, direction));
    }

    /** Insert an open swap under both keys. */
    method StoreOpen(swap: AtomicSwap)
      modifies this`swaps, this`byTimestamp
      ensures Snapshot() == Store(config, old(Snapshot()), swap)
    {
      var swapID := GetSwapID(config.hash, swap);
      swaps := swaps[swapID := swap];
      byTimestamp := byTimestamp[ByTimestampKey(swap.expireTimestamp, swapID) := swapID];
    }

    /** A failed create may have advanced a counter; the transaction layer discards that. */
    method CreateAtomicSwapState(ctx: Context, m: CreateMsg) returns (r: Outcome<Error>)
      modifies this`swaps, this`byTimestamp, this`supplies, this`bank
      ensures Reaches(r, Create(config, ctx, old(Snapshot()), m), Snapshot())
      ensures r.Fail? ==> Snapshot() == old(Snapshot()).(supplies := supplies)
    {
      var checked := CheckRequest(ctx, m);
      if checked.Err? { return Fail(checked.error); }
      var (asset, direction) := checked.value;
      if direction == INCOMING {
        :- IncrementIncomingAssetSupply(m.amount[0]);
      } else {
        if m.timeSpanMin < 1 || m.timeSpanMin > THREE_DAY_MINUTES { return Fail(InvalidTimeSpan); }
        if m.amount[0].amount <= asset.fixedFee + asset.minSwapAmount { return Fail(InsufficientAmount); }
        :- IncrementOutgoingAssetSupply(m.amount[0]);
        var sent := Send(bank, m.sender, config.moduleAddress, m.amount);
        if sent.Err? { return Fail(sent.error); }
        bank := sent.value;
      }

      StoreOpen(NewSwap(ctx, m, direction));
      r := Pass;
    }

    /** The coins of a claim: incoming ones are minted and sent, outgoing ones are burned. */
    method PayOutClaim(swap: AtomicSwap) returns (r: Outcome<Error>)
      modifies this`supplies, this`bank
      ensures Reaches(r, PayClaim(config, old(Snapshot()), swap), Snapshot())
    {
      if swap.direction != INCOMING && swap.direction != OUTGOING { return Fail(InvalidSwapDirection); }
      if |swap.amount| == 0 { return Fail(Panicked); }
      if swap.direction == INCOMING {
        :- DecrementIncomingAssetSupply(swap.amount[0]);
        :- IncrementCurrentAssetSupply(swap.amount[0]);
        bank := Mint(bank, config.moduleAddress, swap.amount);
        var sent := Send(bank, config.moduleAddress, swap.recipient, swap.amount);
        if sent.Err? { return Fail(sent.error); }
        bank := sent.value;
      } else {
        :- DecrementOutgoingAssetSupply(swap.amount[0]);
        :- DecrementCurrentAssetSupply(swap.amount[0]);
        var burned := Burn(bank, config.moduleAddress, swap.amount);
        if burned.Err? { return Fail(burned.error); }
        bank := burned.value;
      }
      r := Pass;
    }

    /** The identifier is calculated again from the submitted number and compared. */
    method CheckSecret(swap: AtomicSwap, number: Bytes) returns (ok: bool)
      ensures ok == SecretUnlocks(config.hash, swap, number)
    {
      var randomNumberHash := CalculateRandomHash(config.hash, number, swap.timestamp);
      var recreated := CalculateSwapID(config.hash, randomNumberHash, swap.sender, swap.senderOtherChain);
      ok := recreated == GetSwapID(config.hash, swap);
    }

    method ClaimAtomicSwapState(ctx: Context, swapID: SwapID, number: Bytes) returns (r: Outcome<Error>)
      modifies this`swaps, this`byTimestamp, this`longterm, this`supplies, this`bank
      ensures Reaches(r, Claim(config, ctx, old(Snapshot()), swapID, number), Snapshot())
      ensures r.Fail? ==> Snapshot() == old(Snapshot()).(supplies := supplies, bank := bank)
    {
      if swapID !in swaps { return Fail(AtomicSwapNotFound); }
      var swap := swaps[swapID];
      if swap.status != OPEN { return Fail(SwapNotClaimable); }
      var fits := CheckSecret(swap, number);
      if !fits { return Fail(InvalidClaimSecret); }
      var own := GetSwapID(config.hash, swap);

      :- PayOutClaim(swap);

      swap := swap.(status := COMPLETED, closedBlock := ctx.height);
      swaps := swaps[own := swap];
      byTimestamp := byTimestamp - {ByTimestampKey(swap.expireTimestamp, own)};
      longterm := longterm[ByHeightKey(DeletionHeight(swap.closedBlock), own) := own];
      r := Pass;
    }

    method RefundAtomicSwapState(ctx: Context, swapID: SwapID) returns (r: Outcome<Error>)
      modifies this`swaps, this`longterm, this`supplies, this`bank
      ensures Reaches(r, Refund(config, ctx, old(Snapshot()), swapID), Snapshot())
      ensures r.Fail? ==> Snapshot() == old(Snapshot()).(supplies := supplies)
    {
      if swapID !in swaps { return Fail(AtomicSwapNotFound); }
      var swap := swaps[swapID];
      if swap.status != EXPIRED { return Fail(SwapNotRefundable); }

      if swap.direction != INCOMING && swap.direction != OUTGOING { return Fail(InvalidSwapDirection); }
      if |swap.amount| == 0 { return Fail(Panicked); }
      if swap.direction == INCOMING {
        :- DecrementIncomingAssetSupply(swap.amount[0]);
      } else {
        :- DecrementOutgoingAssetSupply(swap.amount[0]);
        var sent := Send(bank, config.moduleAddress, swap.sender, swap.amount);
        if sent.Err? { return Fail(sent.error); }
        bank := sent.value;
      }

      swap := swap.(status := COMPLETED, closedBlock := ctx.height);
      var own := GetSwapID(config.hash, swap);
      swaps := swaps[own := swap];
      longterm := longterm[ByHeightKey(DeletionHeight(swap.closedBlock), own) := own];
      r := Pass;
    }

    /** Dispatch of a transaction to its handler. */
    method RunTx(ctx: Context, tx: Tx) returns (r: Outcome<Error>)
      modifies this`swaps, this`byTimestamp, this`longterm, this`supplies, this`bank
      ensures Reaches(r, Handle(config, ctx, old(Snapshot()), tx), Snapshot())
      ensures r.Fail? ==> Snapshot() == old(Snapshot()).(supplies := supplies, bank := bank)
    {
      match tx
      case CreateTx(m) =>
        r := CreateAtomicSwapState(ctx, m);
      case ClaimTx(id, number) =>
        r := ClaimAtomicSwapState(ctx, id, number);
      case RefundTx(id) =>
        r := RefundAtomicSwapState(ctx, id);
      case TransferTx(from, to, coins) =>
        var sent := Send(bank, from, to, coins);
        if sent.Ok? {
          bank := sent.value;
          r := Pass;
        } else {
          r := Fail(sent.error);
        }
    }

    /** The transaction layer runs a handler and restores the store when it fails. */
    method DeliverTx(ctx: Context, tx: Tx) returns (r: Outcome<Error>)
      modifies this`swaps, this`byTimestamp, this`longterm, this`supplies, this`bank
      ensures r.Pass? <==> Handle(config, ctx, old(Snapshot()), tx).Ok?
      ensures Snapshot() == Deliver(config, ctx, old(Snapshot()), tx)
      ensures old(Valid()) && TxOk(config, tx) ==> Valid()
    {
      var cachedSupplies, cachedBank := supplies, bank;
      r := RunTx(ctx, tx);
      if r.Fail? {
        supplies, bank := cachedSupplies, cachedBank;
        assert Snapshot() == old(Snapshot());
      }
      DeliverKeepsValid(config, ctx, old(Snapshot()), tx);
    }

    // ---------- Begin block ----------

    /** The iterator callback of the expiry pass; it overwrites the status without looking at it. */
    method ExpireSwap(id: SwapID)
      modifies this`swaps, this`byTimestamp
      ensures Snapshot() == ExpireOne(config, old(Snapshot()), id)
    {
      if id in swaps {
        var swap := swaps[id].(status := EXPIRED);
        var own := GetSwapID(config.hash, swap);
        byTimestamp := byTimestamp - {ByTimestampKey(swap.expireTimestamp, own)};
        swaps := swaps[own := swap];
      }
    }

    /** Walks a snapshot of the expiry index while deleting from it. */
    method UpdateExpiredAtomicSwaps(ctx: Context)
      modifies this`swaps, this`byTimestamp
      ensures Snapshot() == UpdateExpired(config, ctx, old(Snapshot()))
    {
      var ids := Scan(byTimestamp, PrefixEnd(HeightKey(TimestampRank(Unix(ctx.time)))));
      var i := 0;
      while i < |ids|
        invariant 0 <= i <= |ids|
        invariant Snapshot() == ExpireAll(config, old(Snapshot()), ids[..i])
      {
        ExpireAllStep(config, old(Snapshot()), ids, i);
        ExpireSwap(ids[i]);
        i := i + 1;
      }
      assert ids[..i] == ids;
    }

    /** The iterator callback of the deletion pass. */
    method DeleteSwap(id: SwapID)
      modifies this`swaps, this`longterm
      ensures Snapshot() == DeleteOne(config, old(Snapshot()), id)
    {
      if id in swaps {
        var swap := swaps[id];
        var own := GetSwapID(config.hash, swap);
        swaps := swaps - {own};
        longterm := longterm - {ByHeightKey(DeletionHeight(swap.closedBlock), own)};
      }
    }

    /** Walks a snapshot of the deletion index while deleting from it. */
    method DeleteClosedAtomicSwapsFromLongtermStorage(ctx: Context)
      modifies this`swaps, this`longterm
      ensures Snapshot() == DeleteClosed(config, ctx, old(Snapshot()))
    {
      var ids := Scan(longterm, PrefixEnd(HeightKey(ToUint64(ctx.height))));
      var i := 0;
      while i < |ids|
        invariant 0 <= i <= |ids|
        invariant Snapshot() == DeleteAll(config, old(Snapshot()), ids[..i])
      {
        DeleteAllStep(config, old(Snapshot()), ids, i);
        DeleteSwap(ids[i]);
        i := i + 1;
      }
      assert ids[..i] == ids;
    }

    method BeginBlocker(ctx: Context)
      modifies this
      ensures config == old(config)
      ensures Snapshot() == BeginBlock(config, ctx, old(Snapshot()))
      ensures old(Valid()) ==> Valid() && BlockDone(config, ctx, old(Snapshot()), Snapshot())
    {
      ghost var start := Snapshot();
      UpdateTimeBasedSupplyLimits(ctx);
      UpdateExpiredAtomicSwaps(ctx);
      DeleteClosedAtomicSwapsFromLongtermStorage(ctx);
      if ParamsOk(config) && Inv(config, start) {
        BeginBlockDone(config, ctx, start);
      }
    }

    // ---------- Import and export ----------

    /** Import into whatever the store holds; a failure stops the chain from starting. */
    method ImportGenesis(now: int, gs: GenesisState) returns (r: Outcome<Error>)
      modifies this
      ensures Reaches(r, InitInto(old(config), now, old(Snapshot()), gs), Snapshot())
      ensures r.Pass? ==> config == Installed(old(config), gs)
      ensures r.Pass? && old(Unused(Snapshot())) ==>
                InitGenesis(old(config), now, old(bank), gs) == Ok(Snapshot())
                && (config.moduleAddress in config.moduleAccounts ==> (Valid() <==> NoGaps(old(config), old(bank), gs)))
    {
      ghost var store := Snapshot();
      var valid := ValidateGenesis(config, now, gs);
      if !valid { return Fail(InvalidGenesis); }
      prevBlockTime := Some(gs.previousBlockTime);
      config := config.(assets := gs.params);
      SetSupplies(gs.supplies);

      var incoming, outgoing;
      r, incoming, outgoing := ImportAll(now, gs);
      if r.Pass? {
        var matching := SuppliesMatch(incoming, outgoing);
        if !matching { r := Fail(InvalidGenesis); }
      }
      if r.Pass? && Unused(store) {
        ImportedValid(old(config), now, store, gs);
      }
    }

    /** The loop over the swaps of a genesis file, with the running totals of live amounts. */
    method ImportAll(now: int, gs: GenesisState) returns (r: Outcome<Error>, incoming: Totals, outgoing: Totals)
      modifies this`swaps, this`byTimestamp, this`longterm
      ensures ReachesImport(r, ImportSwaps(config, now, Import(old(Snapshot()), map[], map[]), gs.swaps),
                            Import(Snapshot(), incoming, outgoing))
    {
      ghost var start := Import(Snapshot(), map[], map[]);
      incoming, outgoing := map[], map[];
      var i := 0;
      while i < |gs.swaps|
        invariant 0 <= i <= |gs.swaps|
        invariant ImportSwaps(config, now, start, gs.swaps[..i]) == Ok(Import(Snapshot(), incoming, outgoing))
      {
        ImportSwapsStep(config, now, start, gs.swaps, i);
        r, incoming, outgoing := ImportAtomicSwap(now, gs.swaps[i], incoming, outgoing);
        if r.Fail? {
          ImportSwapsFail(config, now, start, gs.swaps, i + 1);
          return;
        }
        i := i + 1;
      }
      assert gs.swaps[..i] == gs.swaps;
      r := Pass;
    }

    /** Store one swap, list it in the index of its status and count its amount when it is live. */
    method ImportAtomicSwap(now: int, swap: AtomicSwap, incomingBefore: Totals, outgoingBefore: Totals)
      returns (r: Outcome<Error>, incoming: Totals, outgoing: Totals)
      modifies this`swaps, this`byTimestamp, this`longterm
      ensures ReachesImport(r, ImportSwap(config, now, Import(old(Snapshot()), incomingBefore, outgoingBefore), swap),
                            Import(Snapshot(), incoming, outgoing))
    {
      incoming, outgoing := incomingBefore, outgoingBefore;
      if !SwapValid(config, now, swap) { return Fail(InvalidGenesis), incoming, outgoing; }
      var asset := GetAsset(swap.amount[0].denom);
      if asset.None? || !asset.value.active { return Fail(AssetNotActive), incoming, outgoing; }
      var id := GetSwapID(config.hash, swap);
      swaps := swaps[id := swap];
      if swap.status == OPEN {
        byTimestamp := byTimestamp[ByTimestampKey(swap.expireTimestamp, id) := id];
      } else if swap.status == COMPLETED {
        longterm := longterm[ByHeightKey(DeletionHeight(swap.closedBlock), id) := id];
      } else if swap.status != EXPIRED {
        return Fail(InvalidGenesis), incoming, outgoing;
      }
      if swap.direction == INCOMING {
        if swap.status != COMPLETED { incoming := AddTotals(incoming, swap.amount); }
      } else if swap.direction == OUTGOING {
        if swap.status != COMPLETED { outgoing := AddTotals(outgoing, swap.amount); }
      } else {
        return Fail(InvalidSwapDirection), incoming, outgoing;
      }
      r := Pass;
    }

    /** Compares every stored counter with the totals and the limit. */
    method SuppliesMatch(incoming: Totals, outgoing: Totals) returns (ok: bool)
      ensures ok <==> forall d | d in supplies :: SupplyAccepted(config, Import(Snapshot(), incoming, outgoing), supplies[d])
    {
      var denoms := Sorted(supplies.Keys);
      var i := 0;
      while i < |denoms|
        invariant 0 <= i <= |denoms|
        invariant forall j | 0 <= j < i :: denoms[j] in supplies && SupplyAccepted(config, Import(Snapshot(), incoming, outgoing), supplies[denoms[j]])
      {
        assert denoms[i] in denoms;
        if !SupplyAccepted(config, Import(Snapshot(), incoming, outgoing), supplies[denoms[i]]) {
          return false;
        }
        i := i + 1;
      }
      forall d | d in supplies ensures SupplyAccepted(config, Import(Snapshot(), incoming, outgoing), supplies[d]) {
        assert d in denoms;
      }
      ok := true;
    }

    method SetSupplies(list: seq<AssetSupply>)
      modifies this`supplies
      ensures supplies == old(supplies) + StoreSupplies(list)
    {
      var i := 0;
      while i < |list|
        invariant 0 <= i <= |list|
        invariant supplies == old(supplies) + StoreSupplies(list[..i])
      {
        assert list[..i + 1][..i] == list[..i];
        supplies := supplies[list[i].denom := list[i]];
        i := i + 1;
      }
      assert list[..i] == list;
    }

    method ExportGenesis() returns (gs: GenesisState)
      ensures gs == Export(config, Snapshot())
    {
      var exportedSwaps := ExportSwaps(Snapshot());
      var exportedSupplies := ExportSupplies(Snapshot());
      var previous := DEFAULT_PREVIOUS_BLOCK_TIME;
      if prevBlockTime.Some? {
        previous := prevBlockTime.value;
      }
      gs := GenesisState(config.assets, exportedSwaps, exportedSupplies, previous);
    }
  }
}
