/** Import and export of the whole state. */
module Genesis {
  import opened Wrappers
  import opened Bytes
  import opened Types
  import opened Keys
  import opened Hashes
  import opened Banking
  import opened Supply
  import opened Machine
  import opened Sums
  import opened Invariants

  datatype GenesisState = GenesisState(
    params: seq<AssetParam>,
    swaps: seq<AtomicSwap>,
    supplies: seq<AssetSupply>,
    previousBlockTime: Time)

  /** The export of a store that has never seen a block. */
  const DEFAULT_PREVIOUS_BLOCK_TIME: Time := 0

  // ---------- Stateless validation ----------

  predicate IsSpace(b: byte) {
    9 <= b <= 13 || b == 32
  }

  /** strings.TrimSpace leaves nothing, for ASCII text. */
  predicate Blank(s: Bytes) {
    forall i | 0 <= i < |s| :: IsSpace(s[i])
  }

  /** Coins.IsValid and IsAllPositive together: non-empty, sorted, positive. */
  predicate CoinsPositive(c: Config, coins: seq<Coin>) {
    && coins != []
    && (forall i | 0 <= i < |coins| :: c.validDenom(coins[i].denom) && coins[i].amount > 0)
    && (forall i | 1 <= i < |coins| :: Less(coins[i - 1].denom, coins[i].denom))
  }

  /** The timestamp is at most one day behind the wall clock `now`. */
  predicate Fresh(swap: AtomicSwap, now: int) {
    swap.timestamp * SECOND + 24 * HOUR >= now
  }

  predicate SwapValid(c: Config, now: int, swap: AtomicSwap) {
    && CoinsPositive(c, swap.amount)
    && |swap.randomNumberHash| == RANDOM_NUMBER_HASH_LENGTH
    && swap.expireTimestamp != 0
    && swap.timestamp != 0
    && Fresh(swap, now)
    && |swap.sender| == ADDR_BYTE_COUNT
    && |swap.recipient| == ADDR_BYTE_COUNT
    && !Blank(swap.senderOtherChain)
    && !Blank(swap.recipientOtherChain)
    && !(swap.status == COMPLETED && swap.closedBlock == 0)
    && !(swap.status == NULL || swap.status > 3)
    && !(swap.direction == INVALID || swap.direction > 2)
  }

  predicate SupplyValid(c: Config, p: AssetSupply) {
    c.validDenom(p.denom) && p.incoming >= 0 && p.outgoing >= 0 && p.current >= 0 && p.timeLimitedCurrent >= 0
  }

  ghost predicate DistinctIDs(c: Config, swaps: seq<AtomicSwap>) {
    forall i, j | 0 <= i < j < |swaps| :: GetSwapID(c.hash, swaps[i]) != GetSwapID(c.hash, swaps[j])
  }

  ghost predicate DistinctSupplies(supplies: seq<AssetSupply>) {
    forall i, j | 0 <= i < j < |supplies| :: supplies[i].denom != supplies[j].denom
  }

  ghost predicate GenesisValid(c: Config, now: int, gs: GenesisState) {
    && DistinctDenoms(gs.params) && (forall a | a in gs.params :: ParamOk(c, a))
    && DistinctIDs(c, gs.swaps) && (forall w | w in gs.swaps :: SwapValid(c, now, w))
    && DistinctSupplies(gs.supplies) && (forall p | p in gs.supplies :: SupplyValid(c, p))
  }

  // ---------- Import ----------

  type Totals = map<Denom, int>

  function AmountOf(t: Totals, d: Denom): int {
    if d in t then t[d] else 0
  }

  function AddTotals(t: Totals, coins: seq<Coin>): Totals
    decreases coins
  {
    if coins == [] then t else AddTotals(t[coins[0].denom := AmountOf(t, coins[0].denom) + coins[0].amount], coins[1..])
  }

  function StoreSupplies(supplies: seq<AssetSupply>): Supplies {
    if supplies == [] then map[]
    else StoreSupplies(supplies[..|supplies| - 1])[supplies[|supplies| - 1].denom := supplies[|supplies| - 1]]
  }

  /** The state under construction and the running totals of live amounts. */
  datatype Import = Import(state: State, incoming: Totals, outgoing: Totals)

  predicate LiveAsset(c: Config, denom: Denom) {
    FindAsset(c.assets, denom).Some? && FindAsset(c.assets, denom).value.active
  }

  function ImportSwap(c: Config, now: int, acc: Import, swap: AtomicSwap): Result<Import, Error> {
    if !SwapValid(c, now, swap) then Err(InvalidGenesis)
    else if !LiveAsset(c, swap.amount[0].denom) then Err(AssetNotActive)
    else
      var id := GetSwapID(c.hash, swap);
      var stored := acc.state.(swaps := acc.state.swaps[id := swap]);
      var indexed :=
        if swap.status == OPEN then stored.(byTimestamp := stored.byTimestamp[ByTimestampKey(swap.expireTimestamp, id) := id])
        else if swap.status == COMPLETED then stored.(longterm := stored.longterm[ByHeightKey(DeletionHeight(swap.closedBlock), id) := id])
        else stored;
      if swap.status != OPEN && swap.status != EXPIRED && swap.status != COMPLETED then Err(InvalidGenesis)
      else if swap.direction == INCOMING then
        Ok(Import(indexed, if IsLive(swap) then AddTotals(acc.incoming, swap.amount) else acc.incoming, acc.outgoing))
      else if swap.direction == OUTGOING then
        Ok(Import(indexed, acc.incoming, if IsLive(swap) then AddTotals(acc.outgoing, swap.amount) else acc.outgoing))
      else Err(InvalidSwapDirection)
  }

  function ImportSwaps(c: Config, now: int, start: Import, swaps: seq<AtomicSwap>): Result<Import, Error> {
    if swaps == [] then Ok(start)
    else
      var acc :- ImportSwaps(c, now, start, swaps[..|swaps| - 1]);
      ImportSwap(c, now, acc, swaps[|swaps| - 1])
  }

  predicate SupplyAccepted(c: Config, acc: Import, p: AssetSupply) {
    && p.incoming == AmountOf(acc.incoming, p.denom)
    && p.outgoing == AmountOf(acc.outgoing, p.denom)
    && FindAsset(c.assets, p.denom).Some?
    && var limit := FindAsset(c.assets, p.denom).value.supplyLimit.limit;
    && p.current <= limit && p.incoming <= limit && p.incoming + p.current <= limit && p.outgoing <= limit
  }

  /** The store before the loop over the swaps: records and block time are written. */
  function Loaded(store: State, gs: GenesisState): Import {
    Import(store.(supplies := store.supplies + StoreSupplies(gs.supplies), prevBlockTime := Some(gs.previousBlockTime)), map[], map[])
  }

  /** A store that the module has not written to. */
  predicate Unused(store: State) {
    store.swaps == map[] && store.byTimestamp == map[] && store.longterm == map[] && store.supplies == map[]
  }

  function Empty(bank: Bank, gs: GenesisState): Import {
    Import(State(map[], map[], map[], StoreSupplies(gs.supplies), Some(gs.previousBlockTime), bank), map[], map[])
  }

  lemma UnusedLoads(store: State, gs: GenesisState)
    requires Unused(store)
    ensures Loaded(store, gs) == Empty(store.bank, gs)
  {
    assert map[] + StoreSupplies(gs.supplies) == StoreSupplies(gs.supplies);
  }

  /** In a used store the listed records replace those of their denominations; everything else stays. */
  lemma LoadedRecords(store: State, gs: GenesisState, d: Denom)
    requires DistinctSupplies(gs.supplies)
    ensures forall p | p in gs.supplies :: p.denom in Loaded(store, gs).state.supplies && Loaded(store, gs).state.supplies[p.denom] == p
    ensures (forall p | p in gs.supplies :: p.denom != d) ==>
              (d in Loaded(store, gs).state.supplies <==> d in store.supplies)
              && (d in store.supplies ==> Loaded(store, gs).state.supplies[d] == store.supplies[d])
    ensures Loaded(store, gs).state.swaps == store.swaps && Loaded(store, gs).state.bank == store.bank
    ensures Loaded(store, gs).state.prevBlockTime == Some(gs.previousBlockTime)
  {
    StoreSuppliesExact(gs.supplies);
  }

  /** The configuration an import installs. */
  function Installed(c: Config, gs: GenesisState): Config {
    c.(assets := gs.params)
  }

  /** The counters of every stored record must match the imported swaps and respect the limit. */
  function CheckSupplies(c: Config, r: Result<Import, Error>): Result<State, Error> {
    var acc :- r;
    if forall d | d in acc.state.supplies :: SupplyAccepted(c, acc, acc.state.supplies[d])
    then Ok(acc.state) else Err(InvalidGenesis)
  }

  /** Import into a store that may already hold something. */
  ghost function InitInto(c: Config, now: int, store: State, gs: GenesisState): Result<State, Error> {
    if !GenesisValid(c, now, gs) then Err(InvalidGenesis)
    else CheckSupplies(Installed(c, gs), ImportSwaps(Installed(c, gs), now, Loaded(store, gs), gs.swaps))
  }

  /** Import at the start of a chain. */
  ghost function InitGenesis(c: Config, now: int, bank: Bank, gs: GenesisState): Result<State, Error> {
    if !GenesisValid(c, now, gs) then Err(InvalidGenesis)
    else CheckSupplies(Installed(c, gs), ImportSwaps(Installed(c, gs), now, Empty(bank, gs), gs.swaps))
  }

  // ---------- What the import loop builds ----------

  function SwapMap(c: Config, swaps: seq<AtomicSwap>): map<SwapID, AtomicSwap> {
    if swaps == [] then map[]
    else SwapMap(c, swaps[..|swaps| - 1])[GetSwapID(c.hash, swaps[|swaps| - 1]) := swaps[|swaps| - 1]]
  }

  lemma {:induction false} SwapMapExact(c: Config, swaps: seq<AtomicSwap>)
    requires DistinctIDs(c, swaps)
    ensures OwnIDs(c, SwapMap(c, swaps))
    ensures forall id | id in SwapMap(c, swaps) :: SwapMap(c, swaps)[id] in swaps
    ensures forall w | w in swaps :: GetSwapID(c.hash, w) in SwapMap(c, swaps) && SwapMap(c, swaps)[GetSwapID(c.hash, w)] == w
  {
    if swaps != [] {
      var init, last := swaps[..|swaps| - 1], swaps[|swaps| - 1];
      assert swaps == init + [last];
      SwapMapExact(c, init);
      forall w | w in init ensures GetSwapID(c.hash, w) != GetSwapID(c.hash, last) {
        var i :| 0 <= i < |init| && init[i] == w;
        assert swaps[i] == w;
      }
    }
  }

  ghost predicate SingleCoins(swaps: seq<AtomicSwap>) {
    forall w | w in swaps :: |w.amount| == 1
  }

  /** All coins of denomination `d` in the live swaps of one direction of a file. */
  function FileTotal(swaps: seq<AtomicSwap>, dir: SwapDirection, d: Denom): int {
    if swaps == [] then 0
    else
      var last := swaps[|swaps| - 1];
      FileTotal(swaps[..|swaps| - 1], dir, d) + if IsLive(last) && last.direction == dir then AmountIn(last.amount, d) else 0
  }

  lemma {:induction false} AddTotalsExact(t: Totals, coins: seq<Coin>, d: Denom)
    ensures AmountOf(AddTotals(t, coins), d) == AmountOf(t, d) + AmountIn(coins, d)
    decreases coins
  {
    if coins != [] {
      AddTotalsExact(t[coins[0].denom := AmountOf(t, coins[0].denom) + coins[0].amount], coins[1..], d);
    }
  }

  /** Swaps, both indexes and the totals agree; with one coin a swap the totals are the live sums. */
  ghost predicate ImportExact(c: Config, start: Import, acc: Import, swaps: seq<AtomicSwap>) {
    && acc.state == start.state.(swaps := SwapMap(c, swaps), byTimestamp := acc.state.byTimestamp, longterm := acc.state.longterm)
    && ExpiryIndexExact(acc.state.swaps, acc.state.byTimestamp)
    && DeletionIndexExact(acc.state.swaps, acc.state.longterm)
    && (forall d ::
          && AmountOf(acc.incoming, d) == FileTotal(swaps, INCOMING, d)
          && AmountOf(acc.outgoing, d) == FileTotal(swaps, OUTGOING, d))
    && (SingleCoins(swaps) ==>
          forall d :: AmountOf(acc.incoming, d) == SumLive(acc.state.swaps, INCOMING, d)
                   && AmountOf(acc.outgoing, d) == SumLive(acc.state.swaps, OUTGOING, d))
  }

  predicate Accepted(c: Config, now: int, w: AtomicSwap) {
    SwapValid(c, now, w) && LiveAsset(c, w.amount[0].denom)
  }

  function IndexExpiry(index: map<Bytes, SwapID>, w: AtomicSwap, id: SwapID): map<Bytes, SwapID> {
    if w.status == OPEN then index[ExpiryKey(w, id) := id] else index
  }

  function IndexDeletion(index: map<Bytes, SwapID>, w: AtomicSwap, id: SwapID): map<Bytes, SwapID> {
    if w.status == COMPLETED then index[DeletionKey(w, id) := id] else index
  }

  lemma IndexedExactly(swaps: map<SwapID, AtomicSwap>, b: map<Bytes, SwapID>, l: map<Bytes, SwapID>, w: AtomicSwap, id: SwapID)
    requires ExpiryIndexExact(swaps, b) && DeletionIndexExact(swaps, l) && id !in swaps
    ensures ExpiryIndexExact(swaps[id := w], IndexExpiry(b, w, id))
    ensures DeletionIndexExact(swaps[id := w], IndexDeletion(l, w, id))
  {
    if w.status == OPEN {
      ExpiryIndexInsert(swaps, b, id, w);
    } else {
      ExpiryIndexOther(swaps, b, id, w);
    }
    if w.status == COMPLETED {
      DeletionIndexInsert(swaps, l, id, w);
    } else {
      DeletionIndexOther(swaps, l, id, w);
    }
  }

  lemma ImportSwapState(c: Config, now: int, acc: Import, w: AtomicSwap)
    requires Accepted(c, now, w)
    ensures ImportSwap(c, now, acc, w).Ok?
    ensures var id := GetSwapID(c.hash, w);
            ImportSwap(c, now, acc, w).value.state
            == acc.state.(swaps := acc.state.swaps[id := w],
                          byTimestamp := IndexExpiry(acc.state.byTimestamp, w, id),
                          longterm := IndexDeletion(acc.state.longterm, w, id))
    ensures ImportSwap(c, now, acc, w).value.incoming == Counted(acc.incoming, w, INCOMING)
    ensures ImportSwap(c, now, acc, w).value.outgoing == Counted(acc.outgoing, w, OUTGOING)
  {
  }

  lemma AddOne(t: Totals, coin: Coin)
    ensures AddTotals(t, [coin]) == t[coin.denom := AmountOf(t, coin.denom) + coin.amount]
  {
    assert [coin][1..] == [];
  }

  function Counted(t: Totals, w: AtomicSwap, dir: SwapDirection): Totals {
    if IsLive(w) && w.direction == dir then AddTotals(t, w.amount) else t
  }

  lemma CountedExactly(t: Totals, swaps: map<SwapID, AtomicSwap>, id: SwapID, w: AtomicSwap, dir: SwapDirection, d: Denom)
    requires id !in swaps && |w.amount| == 1 && AmountOf(t, d) == SumLive(swaps, dir, d)
    ensures AmountOf(Counted(t, w, dir), d) == SumLive(swaps[id := w], dir, d)
  {
    assert w.amount == [w.amount[0]];
    AddOne(t, w.amount[0]);
    SumInsert(swaps, id, w, dir, d);
  }

  /** The import loop accepts exactly the valid swaps of active assets; its branches for invalid
      statuses and directions are never taken. */
  lemma {:induction false} ImportSwapsExact(c: Config, now: int, start: Import, swaps: seq<AtomicSwap>)
    requires DistinctIDs(c, swaps)
    requires start.state.swaps == map[] && start.state.byTimestamp == map[] && start.state.longterm == map[]
    requires start.incoming == map[] && start.outgoing == map[]
    ensures ImportSwaps(c, now, start, swaps).Ok? <==> forall w | w in swaps :: Accepted(c, now, w)
    ensures ImportSwaps(c, now, start, swaps).Ok? ==> ImportExact(c, start, ImportSwaps(c, now, start, swaps).value, swaps)
  {
    if swaps != [] {
      var init, last := swaps[..|swaps| - 1], swaps[|swaps| - 1];
      assert swaps == init + [last];
      ImportSwapsExact(c, now, start, init);
      var r := ImportSwaps(c, now, start, init);
      if r.Ok? && Accepted(c, now, last) {
        ImportStepExact(c, now, start, r.value, init, last);
      }
    }
  }

  lemma FreshID(c: Config, init: seq<AtomicSwap>, last: AtomicSwap)
    requires DistinctIDs(c, init + [last])
    ensures GetSwapID(c.hash, last) !in SwapMap(c, init)
  {
    var swaps, id := init + [last], GetSwapID(c.hash, last);
    assert DistinctIDs(c, init) by {
      assert forall i | 0 <= i < |init| :: init[i] == swaps[i];
    }
    SwapMapExact(c, init);
    forall i | 0 <= i < |init| ensures GetSwapID(c.hash, init[i]) != id {
      assert init[i] == swaps[i] && last == swaps[|init|];
    }
  }

  lemma ImportStepExact(c: Config, now: int, start: Import, acc: Import, init: seq<AtomicSwap>, last: AtomicSwap)
    requires DistinctIDs(c, init + [last]) && ImportExact(c, start, acc, init) && Accepted(c, now, last)
    ensures ImportSwap(c, now, acc, last).Ok?
    ensures ImportExact(c, start, ImportSwap(c, now, acc, last).value, init + [last])
  {
    var swaps, id := init + [last], GetSwapID(c.hash, last);
    assert swaps[..|swaps| - 1] == init;
    FreshID(c, init, last);
    ImportSwapState(c, now, acc, last);
    IndexedExactly(acc.state.swaps, acc.state.byTimestamp, acc.state.longterm, last, id);
    forall d
      ensures AmountOf(ImportSwap(c, now, acc, last).value.incoming, d) == FileTotal(swaps, INCOMING, d)
      ensures AmountOf(ImportSwap(c, now, acc, last).value.outgoing, d) == FileTotal(swaps, OUTGOING, d)
    {
      AddTotalsExact(acc.incoming, last.amount, d);
      AddTotalsExact(acc.outgoing, last.amount, d);
    }
    if SingleCoins(swaps) {
      assert SingleCoins(init) && last in swaps by {
        assert forall w | w in init :: w in swaps;
      }
      var acc' := ImportSwap(c, now, acc, last).value;
      forall d
        ensures AmountOf(acc'.incoming, d) == SumLive(acc'.state.swaps, INCOMING, d)
        ensures AmountOf(acc'.outgoing, d) == SumLive(acc'.state.swaps, OUTGOING, d)
      {
        CountedExactly(acc.incoming, acc.state.swaps, id, last, INCOMING, d);
        CountedExactly(acc.outgoing, acc.state.swaps, id, last, OUTGOING, d);
      }
    }
  }

  // ---------- An accepted genesis ----------

  /** What import does not check. */
  ghost predicate NoGaps(c: Config, bank: Bank, gs: GenesisState) {
    && (forall w | w in gs.swaps ::
          && |w.amount| == 1
          && (IsLive(w) ==> w.amount[0].denom in StoreSupplies(gs.supplies))
          && w.sender != c.moduleAddress && w.recipient != c.moduleAddress)
    && (forall p | p in gs.supplies ::
          && p.outgoing <= p.current
          && (TimeLimitOf(gs, p.denom).timeLimited ==> p.timeLimitedCurrent + p.incoming <= TimeLimitOf(gs, p.denom).timeBasedLimit)
          && p.outgoing <= Balance(bank, c.moduleAddress, p.denom))
    && (forall d: Denom :: Balance(bank, c.moduleAddress, d) >= 0)
  }

  function TimeLimitOf(gs: GenesisState, d: Denom): SupplyLimit {
    if FindAsset(gs.params, d).Some? then FindAsset(gs.params, d).value.supplyLimit else SupplyLimit(0, false, 0, 0)
  }

  lemma {:induction false} StoreSuppliesExact(supplies: seq<AssetSupply>)
    requires DistinctSupplies(supplies)
    ensures forall d | d in StoreSupplies(supplies) :: StoreSupplies(supplies)[d] in supplies && StoreSupplies(supplies)[d].denom == d
    ensures forall p | p in supplies :: p.denom in StoreSupplies(supplies) && StoreSupplies(supplies)[p.denom] == p
  {
    if supplies != [] {
      var init, last := supplies[..|supplies| - 1], supplies[|supplies| - 1];
      assert supplies == init + [last];
      StoreSuppliesExact(init);
      forall p | p in init ensures p.denom != last.denom {
        var i :| 0 <= i < |init| && init[i] == p;
        assert supplies[i] == p;
      }
    }
  }

  lemma GenesisShape(c: Config, now: int, bank: Bank, gs: GenesisState)
    requires InitGenesis(c, now, bank, gs).Ok?
    ensures var s, c' := InitGenesis(c, now, bank, gs).value, Installed(c, gs);
            && s.swaps == SwapMap(c', gs.swaps) && s.supplies == StoreSupplies(gs.supplies)
            && s.bank == bank && s.prevBlockTime == Some(gs.previousBlockTime)
            && ExpiryIndexExact(s.swaps, s.byTimestamp) && DeletionIndexExact(s.swaps, s.longterm)
            && DistinctIDs(c', gs.swaps) && DistinctSupplies(gs.supplies)
            && (forall w | w in gs.swaps :: Accepted(c', now, w))
            && (forall p | p in gs.supplies :: SupplyValid(c', p))
            && (forall d | d in s.supplies ::
                  && FindAsset(c'.assets, d).Some?
                  && s.supplies[d].current + s.supplies[d].incoming <= FindAsset(c'.assets, d).value.supplyLimit.limit
                  && (SingleCoins(gs.swaps) ==>
                        && s.supplies[d].incoming == SumLive(s.swaps, INCOMING, d)
                        && s.supplies[d].outgoing == SumLive(s.swaps, OUTGOING, d)))
  {
    var c' := Installed(c, gs);
    ImportSwapsExact(c', now, Empty(bank, gs), gs.swaps);
    StoreSuppliesExact(gs.supplies);
    var acc := ImportSwaps(c', now, Empty(bank, gs), gs.swaps).value;
    forall d | d in acc.state.supplies ensures SupplyAccepted(c', acc, acc.state.supplies[d]) && acc.state.supplies[d].denom == d {
    }
  }

  lemma GenesisSwaps(c: Config, now: int, gs: GenesisState, supplies: Supplies)
    requires DistinctIDs(c, gs.swaps) && forall w | w in gs.swaps :: Accepted(c, now, w)
    requires supplies == StoreSupplies(gs.supplies)
    ensures OwnIDs(c, SwapMap(c, gs.swaps))
    ensures SwapsOk(c, supplies, SwapMap(c, gs.swaps))
            <==> forall w | w in gs.swaps ::
                   && |w.amount| == 1
                   && (IsLive(w) ==> w.amount[0].denom in supplies)
                   && w.sender != c.moduleAddress && w.recipient != c.moduleAddress
  {
    SwapMapExact(c, gs.swaps);
    forall w | w in gs.swaps
      ensures SwapOk(c, supplies, w)
              <==> && |w.amount| == 1
                   && (IsLive(w) ==> w.amount[0].denom in supplies)
                   && w.sender != c.moduleAddress && w.recipient != c.moduleAddress
    {
      assert Accepted(c, now, w);
    }
    forall id | id in SwapMap(c, gs.swaps) ensures SwapMap(c, gs.swaps)[id] in gs.swaps {
    }
    if SwapsOk(c, supplies, SwapMap(c, gs.swaps)) {
      forall w | w in gs.swaps ensures SwapOk(c, supplies, w) {
        assert SwapMap(c, gs.swaps)[GetSwapID(c.hash, w)] == w;
      }
    }
  }

  ghost predicate SupplyGapsClosed(c: Config, bank: Bank, gs: GenesisState) {
    forall p | p in gs.supplies ::
      && p.outgoing <= p.current
      && (TimeLimitOf(gs, p.denom).timeLimited ==> p.timeLimitedCurrent + p.incoming <= TimeLimitOf(gs, p.denom).timeBasedLimit)
      && p.outgoing <= Balance(bank, c.moduleAddress, p.denom)
  }

  lemma GenesisSupplies(c: Config, now: int, bank: Bank, gs: GenesisState)
    requires InitGenesis(c, now, bank, gs).Ok? && SingleCoins(gs.swaps)
    ensures var s := InitGenesis(c, now, bank, gs).value;
            (forall d | d in s.supplies :: SupplyOk(Installed(c, gs), s, d)) <==> SupplyGapsClosed(c, bank, gs)
  {
    GenesisShape(c, now, bank, gs);
    StoreSuppliesExact(gs.supplies);
    var s, c' := InitGenesis(c, now, bank, gs).value, Installed(c, gs);
    if forall d | d in s.supplies :: SupplyOk(c', s, d) {
      forall p | p in gs.supplies
        ensures && p.outgoing <= p.current
                && (TimeLimitOf(gs, p.denom).timeLimited ==> p.timeLimitedCurrent + p.incoming <= TimeLimitOf(gs, p.denom).timeBasedLimit)
                && p.outgoing <= Balance(bank, c.moduleAddress, p.denom)
      {
        assert SupplyOk(c', s, p.denom);
      }
    }
    if SupplyGapsClosed(c, bank, gs) {
      forall d | d in s.supplies ensures SupplyOk(c', s, d) {
        assert s.supplies[d] in gs.supplies && SupplyValid(c', s.supplies[d]);
      }
    }
  }

  /** An accepted genesis satisfies the run invariants exactly when the conditions that import does
      not check hold as well. */
  lemma AcceptedGenesisInv(c: Config, now: int, bank: Bank, gs: GenesisState)
    requires InitGenesis(c, now, bank, gs).Ok?
    ensures Inv(Installed(c, gs), InitGenesis(c, now, bank, gs).value) <==> NoGaps(c, bank, gs)
    ensures c.moduleAddress in c.moduleAccounts ==> ParamsOk(Installed(c, gs))
  {
    var s, c' := InitGenesis(c, now, bank, gs).value, Installed(c, gs);
    GenesisShape(c, now, bank, gs);
    GenesisSwaps(c', now, gs, s.supplies);
    if SingleCoins(gs.swaps) {
      GenesisSupplies(c, now, bank, gs);
    }
    assert NoGaps(c, bank, gs) ==> SingleCoins(gs.swaps) && SupplyGapsClosed(c, bank, gs);
  }

  /** A store that the module has not written to satisfies the invariants. */
  lemma UnusedInv(c: Config, store: State)
    requires Unused(store)
    ensures Inv(c, store) <==> EscrowOk(c, store)
  {
  }

  // ---------- Export ----------

  function ExportSwaps(s: State): (r: seq<AtomicSwap>)
    ensures |r| == |s.swaps|
  {
    var keys := Sorted(s.swaps.Keys);
    assert forall i | 0 <= i < |keys| :: keys[i] in keys;
    seq(|keys|, i requires 0 <= i < |keys| => s.swaps[keys[i]])
  }

  function ExportSupplies(s: State): (r: seq<AssetSupply>)
    ensures |r| == |s.supplies|
  {
    var keys := Sorted(s.supplies.Keys);
    assert forall i | 0 <= i < |keys| :: keys[i] in keys;
    seq(|keys|, i requires 0 <= i < |keys| => s.supplies[keys[i]])
  }

  function Export(c: Config, s: State): GenesisState {
    GenesisState(c.assets, ExportSwaps(s), ExportSupplies(s),
                 if s.prevBlockTime.Some? then s.prevBlockTime.value else DEFAULT_PREVIOUS_BLOCK_TIME)
  }

  lemma ExportedSwaps(s: State, w: AtomicSwap)
    ensures w in ExportSwaps(s) <==> exists id :: id in s.swaps && s.swaps[id] == w
  {
    var keys, r := Sorted(s.swaps.Keys), ExportSwaps(s);
    if w in r {
      var i :| 0 <= i < |r| && r[i] == w;
      assert keys[i] in keys;
    }
    if id :| id in s.swaps && s.swaps[id] == w {
      assert id in keys;
      var i :| 0 <= i < |keys| && keys[i] == id;
      assert r[i] == w;
    }
  }

  /** The export lists the swaps by increasing identifier and the supplies by increasing denomination. */
  lemma ExportOrder(c: Config, s: State)
    requires OwnIDs(c, s.swaps) && forall d | d in s.supplies :: s.supplies[d].denom == d
    ensures forall i, j | 0 <= i < j < |ExportSwaps(s)| :: Less(GetSwapID(c.hash, ExportSwaps(s)[i]), GetSwapID(c.hash, ExportSwaps(s)[j]))
    ensures forall i, j | 0 <= i < j < |ExportSupplies(s)| :: Less(ExportSupplies(s)[i].denom, ExportSupplies(s)[j].denom)
  {
    var ids, denoms := Sorted(s.swaps.Keys), Sorted(s.supplies.Keys);
    assert forall i | 0 <= i < |ids| :: ids[i] in ids;
    assert forall i | 0 <= i < |denoms| :: denoms[i] in denoms;
  }

  lemma ExportedSupplies(s: State, p: AssetSupply)
    ensures p in ExportSupplies(s) <==> exists d :: d in s.supplies && s.supplies[d] == p
  {
    var keys, r := Sorted(s.supplies.Keys), ExportSupplies(s);
    if p in r {
      var i :| 0 <= i < |r| && r[i] == p;
      assert keys[i] in keys;
    }
    if d :| d in s.supplies && s.supplies[d] == p {
      assert d in keys;
      var i :| 0 <= i < |keys| && keys[i] == d;
      assert r[i] == p;
    }
  }

  lemma ExportDistinct(c: Config, s: State)
    requires OwnIDs(c, s.swaps) && forall d | d in s.supplies :: s.supplies[d].denom == d
    ensures DistinctIDs(c, ExportSwaps(s)) && DistinctSupplies(ExportSupplies(s))
  {
    var ids, denoms := Sorted(s.swaps.Keys), Sorted(s.supplies.Keys);
    forall i, j | 0 <= i < j < |ids|
      ensures GetSwapID(c.hash, ExportSwaps(s)[i]) != GetSwapID(c.hash, ExportSwaps(s)[j])
    {
      assert ids[i] in ids && ids[j] in ids;
      LessAsymmetric(ids[i], ids[j]);
    }
    forall i, j | 0 <= i < j < |denoms|
      ensures ExportSupplies(s)[i].denom != ExportSupplies(s)[j].denom
    {
      assert denoms[i] in denoms && denoms[j] in denoms;
      LessAsymmetric(denoms[i], denoms[j]);
    }
  }

  /** Exporting and rebuilding gives the same maps. */
  lemma ExportRebuildsSwaps(c: Config, s: State)
    requires OwnIDs(c, s.swaps) && DistinctIDs(c, ExportSwaps(s))
    ensures SwapMap(c, ExportSwaps(s)) == s.swaps
  {
    var list := ExportSwaps(s);
    var swaps := SwapMap(c, list);
    SwapMapExact(c, list);
    forall id | id in s.swaps ensures id in swaps && swaps[id] == s.swaps[id] {
      ExportedSwaps(s, s.swaps[id]);
    }
    forall id | id in swaps ensures id in s.swaps {
      ExportedSwaps(s, swaps[id]);
    }
  }

  lemma ExportRebuildsSupplies(s: State)
    requires DistinctSupplies(ExportSupplies(s)) && forall d | d in s.supplies :: s.supplies[d].denom == d
    ensures StoreSupplies(ExportSupplies(s)) == s.supplies
  {
    var list := ExportSupplies(s);
    forall d | d in s.supplies ensures s.supplies[d] in list {
      ExportedSupplies(s, s.supplies[d]);
    }
    forall p | p in list ensures p.denom in s.supplies && s.supplies[p.denom] == p {
      ExportedSupplies(s, p);
    }
    StoredOnce(s.supplies, list);
  }

  /** A list that holds exactly the records of a map stores that map. */
  lemma StoredOnce(supplies: Supplies, list: seq<AssetSupply>)
    requires DistinctSupplies(list)
    requires forall d | d in supplies :: supplies[d].denom == d && supplies[d] in list
    requires forall p | p in list :: p.denom in supplies && supplies[p.denom] == p
    ensures StoreSupplies(list) == supplies
  {
    StoreSuppliesExact(list);
    var stored := StoreSupplies(list);
    assert forall d | d in supplies :: d in stored && stored[d] == supplies[d];
    assert forall d | d in stored :: stored[d] in list && stored[d].denom == d;
  }

  /** Exact indexes are determined by the swaps. */
  lemma ExactIndexesUnique(swaps: map<SwapID, AtomicSwap>, b1: map<Bytes, SwapID>, b2: map<Bytes, SwapID>,
                           l1: map<Bytes, SwapID>, l2: map<Bytes, SwapID>)
    requires ExpiryIndexExact(swaps, b1) && ExpiryIndexExact(swaps, b2)
    requires DeletionIndexExact(swaps, l1) && DeletionIndexExact(swaps, l2)
    ensures b1 == b2 && l1 == l2
  {
    forall k | k in b1 && k in b2 ensures b1[k] == b2[k] {
      ByHeightKeyInjective(TimestampRank(swaps[b1[k]].expireTimestamp), b1[k], TimestampRank(swaps[b2[k]].expireTimestamp), b2[k]);
    }
    forall k | k in l1 && k in l2 ensures l1[k] == l2[k] {
      ByHeightKeyInjective(DeletionHeight(swaps[l1[k]].closedBlock), l1[k], DeletionHeight(swaps[l2[k]].closedBlock), l2[k]);
    }
  }

  /** What a stored swap needs, beyond the invariants, to be accepted again. */
  predicate Importable(c: Config, now: int, w: AtomicSwap) {
    && w.expireTimestamp != 0 && w.timestamp != 0
    && Fresh(w, now)
    && !Blank(w.senderOtherChain) && !Blank(w.recipientOtherChain)
    && (w.status == COMPLETED ==> w.closedBlock != 0)
    && |w.amount| > 0 && LiveAsset(c, w.amount[0].denom)
  }

  lemma AcceptedAgain(c: Config, now: int, s: State, w: AtomicSwap)
    requires ParamsOk(c) && SwapOk(c, s.supplies, w)
    ensures Accepted(c, now, w) <==> Importable(c, now, w)
  {
    assert ParamOk(c, FindAsset(c.assets, w.amount[0].denom).value);
  }

  ghost predicate AllImportable(c: Config, now: int, s: State) {
    forall id | id in s.swaps :: Importable(c, now, s.swaps[id])
  }

  lemma ExportAccepted(c: Config, now: int, s: State)
    requires ParamsOk(c) && SwapsOk(c, s.supplies, s.swaps)
    ensures (forall w | w in ExportSwaps(s) :: Accepted(c, now, w)) <==> AllImportable(c, now, s)
    ensures SingleCoins(ExportSwaps(s))
  {
    forall w | w in ExportSwaps(s)
      ensures exists id :: id in s.swaps && s.swaps[id] == w
      ensures |w.amount| == 1 && (Accepted(c, now, w) <==> Importable(c, now, w))
    {
      ExportedSwaps(s, w);
      AcceptedAgain(c, now, s, w);
    }
    forall id | id in s.swaps ensures s.swaps[id] in ExportSwaps(s) {
      ExportedSwaps(s, s.swaps[id]);
    }
  }

  lemma ExportSuppliesValid(c: Config, s: State)
    requires ParamsOk(c) && forall d | d in s.supplies :: SupplyOk(c, s, d)
    ensures forall p | p in ExportSupplies(s) :: SupplyValid(c, p)
  {
    forall p | p in ExportSupplies(s) ensures SupplyValid(c, p) {
      ExportedSupplies(s, p);
      var d :| d in s.supplies && s.supplies[d] == p;
      assert SupplyOk(c, s, d);
      assert ParamOk(c, FindAsset(c.assets, d).value);
    }
  }

  lemma ExportSuppliesAccepted(c: Config, s: State, acc: Import)
    requires ParamsOk(c) && forall d | d in s.supplies :: SupplyOk(c, s, d)
    requires acc.state.supplies == s.supplies && acc.state.swaps == s.swaps
    requires forall d :: AmountOf(acc.incoming, d) == SumLive(s.swaps, INCOMING, d) && AmountOf(acc.outgoing, d) == SumLive(s.swaps, OUTGOING, d)
    ensures forall d | d in s.supplies :: SupplyAccepted(c, acc, s.supplies[d])
  {
    forall d | d in s.supplies ensures SupplyAccepted(c, acc, s.supplies[d]) {
      assert SupplyOk(c, s, d);
    }
  }

  /** Everything import checks or builds, for an exported state. */
  lemma ExportFacts(c: Config, now: int, s: State)
    requires ParamsOk(c) && Inv(c, s)
    ensures var gs := Export(c, s);
            && DistinctIDs(c, gs.swaps) && DistinctSupplies(gs.supplies) && SingleCoins(gs.swaps)
            && SwapMap(c, gs.swaps) == s.swaps && StoreSupplies(gs.supplies) == s.supplies
            && (forall p | p in gs.supplies :: SupplyValid(c, p))
            && ((forall w | w in gs.swaps :: Accepted(c, now, w)) <==> AllImportable(c, now, s))
  {
    assert forall d | d in s.supplies :: SupplyOk(c, s, d);
    ExportDistinct(c, s);
    ExportRebuildsSwaps(c, s);
    ExportRebuildsSupplies(s);
    ExportAccepted(c, now, s);
    ExportSuppliesValid(c, s);
  }

  lemma ExportGenesisValid(c: Config, now: int, s: State)
    requires ParamsOk(c) && Inv(c, s) && AllImportable(c, now, s)
    ensures GenesisValid(c, now, Export(c, s))
  {
    ExportFacts(c, now, s);
    assert forall w | w in ExportSwaps(s) :: Accepted(c, now, w);
  }

  /** Import loop and final checks on an export: they fail exactly when a swap is not importable. */
  ghost predicate RestoredUnless(r: Result<State, Error>, s: State, importable: bool) {
    r.Ok? == importable && (r.Ok? ==> r.value == s)
  }

  ghost predicate LoopRestores(c: Config, s: State, r: Result<Import, Error>, importable: bool) {
    && r.Ok? == importable
    && (r.Ok? ==> r.value.state == s && forall d | d in s.supplies :: SupplyAccepted(c, r.value, s.supplies[d]))
  }

  /** The state an import of the export builds: a missing block time comes back as the default. */
  function Restored(c: Config, s: State): (r: State)
    ensures s.prevBlockTime.Some? ==> r == s
    ensures s.prevBlockTime.None? ==> r == s.(prevBlockTime := Some(0))
  {
    s.(prevBlockTime := Some(Export(c, s).previousBlockTime))
  }

  lemma ExportLoop(c: Config, now: int, s: State)
    requires ParamsOk(c) && Inv(c, s)
    ensures LoopRestores(c, Restored(c, s), ImportSwaps(c, now, Empty(s.bank, Export(c, s)), ExportSwaps(s)), AllImportable(c, now, s))
  {
    var gs := Export(c, s);
    ExportFacts(c, now, s);
    ImportSwapsExact(c, now, Empty(s.bank, gs), gs.swaps);
    var r := ImportSwaps(c, now, Empty(s.bank, gs), gs.swaps);
    if r.Ok? {
      ExactIndexesUnique(s.swaps, s.byTimestamp, r.value.state.byTimestamp, s.longterm, r.value.state.longterm);
      ExportSuppliesAccepted(c, s, r.value);
    }
  }

  lemma ChecksRestore(c: Config, s: State, r: Result<Import, Error>, importable: bool)
    requires LoopRestores(c, s, r, importable)
    ensures RestoredUnless(CheckSupplies(c, r), s, importable)
  {
  }

  /** Export followed by import into an empty store: accepted exactly when every stored swap is
      importable, and then the identity on swaps, both indexes, supplies, block time and bank; the
      parameters are reinstalled as they were. */
  lemma ExportThenImport(c: Config, now: int, s: State)
    requires ParamsOk(c) && Inv(c, s)
    ensures Installed(c, Export(c, s)) == c
    ensures RestoredUnless(InitGenesis(c, now, s.bank, Export(c, s)), Restored(c, s), AllImportable(c, now, s))
    ensures s.prevBlockTime.Some? ==> Restored(c, s) == s
  {
    assert Installed(c, Export(c, s)) == c;
    if AllImportable(c, now, s) {
      ExportGenesisValid(c, now, s);
    }
    ExportLoop(c, now, s);
    ChecksRestore(c, Restored(c, s), ImportSwaps(c, now, Empty(s.bank, Export(c, s)), ExportSwaps(s)), AllImportable(c, now, s));
  }

  // ---------- A message whose swap can never be imported ----------

  const MAX_OTHER_CHAIN_ADDR_LENGTH: nat := 64

  /** MsgCreateAtomicSwap.ValidateBasic, which does not look at the sender's other-chain address. */
  predicate ValidateBasic(c: Config, m: CreateMsg) {
    && |m.sender| == ADDR_BYTE_COUNT && |m.recipient| == ADDR_BYTE_COUNT
    && !Blank(m.recipientOtherChain) && |m.recipientOtherChain| <= MAX_OTHER_CHAIN_ADDR_LENGTH
    && |m.senderOtherChain| <= MAX_OTHER_CHAIN_ADDR_LENGTH
    && |m.randomNumberHash| == RANDOM_NUMBER_HASH_LENGTH
    && m.timestamp > 0
    && CoinsPositive(c, m.amount)
    && m.timeSpanMin > 0
  }

  /** The stateless checks give what the run theorems ask of a message, for a sender other than the module. */
  lemma ValidateBasicSuffices(c: Config, m: CreateMsg)
    requires ValidateBasic(c, m) && m.sender != c.moduleAddress
    ensures MsgOk(c, m)
  {
  }

  /** A message with a blank sender address on the other chain passes the stateless checks and the keeper,
      and its swap is stored. */
  lemma BlankSenderIsStored(c: Config, ctx: Context, s: State, m: CreateMsg)
    requires ValidateBasic(c, m) && Blank(m.senderOtherChain) && Create(c, ctx, s, m).Ok?
    ensures var s', id := Create(c, ctx, s, m).value, CalculateSwapID(c.hash, m.randomNumberHash, m.sender, m.senderOtherChain);
            id in s'.swaps && Blank(s'.swaps[id].senderOtherChain)
  {
    CreateEffect(c, ctx, s, m);
  }

  /** As long as a store holds such a swap, whatever its status, its export is rejected at any time. */
  lemma BlankSenderBlocksImport(c: Config, s: State, id: SwapID, now: int, bank: Bank)
    requires id in s.swaps && Blank(s.swaps[id].senderOtherChain)
    ensures InitGenesis(c, now, bank, Export(c, s)).Err?
  {
    ExportedSwaps(s, s.swaps[id]);
    assert !SwapValid(c, now, s.swaps[id]);
  }
}
