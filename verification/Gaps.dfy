/** A gap of import seen through: an accepted live swap whose denomination has no supply record. */
module Gaps {
  import opened Wrappers
  import opened Bytes
  import opened Types
  import opened Hashes
  import opened Banking
  import opened Supply
  import opened Machine
  import opened Sums
  import opened Invariants
  import opened Blocks
  import opened Genesis
  import opened Guards

  // ---------- Claims without the invariants ----------

  /** A claim takes its amount out of the counter and leaves every other swap as it is. */
  lemma ClaimTakes(c: Config, ctx: Context, s: State, id: SwapID, number: Bytes)
    requires Claim(c, ctx, s, id, number).Ok? && s.swaps[id].direction == INCOMING && |s.swaps[id].amount| == 1
    requires GetSwapID(c.hash, s.swaps[id]) == id
    ensures var s', coin := Claim(c, ctx, s, id, number).value, s.swaps[id].amount[0];
            && coin.denom in s.supplies && coin.denom in s'.supplies
            && s'.supplies[coin.denom].incoming == s.supplies[coin.denom].incoming - coin.amount
            && s'.swaps == s.swaps[id := Close(s.swaps[id], ctx)]
  {
    var swap := s.swaps[id];
    var paid := PayClaim(c, s, swap);
    var key := ExpiryKey(swap, id);
    assert Claim(c, ctx, s, id, number).value
           == StoreClosed(c, paid.value.(byTimestamp := paid.value.byTimestamp - {key}), Close(swap, ctx));
  }

  lemma ShortCounterFails(c: Config, ctx: Context, s: State, id: SwapID, number: Bytes)
    requires id in s.swaps && s.swaps[id].direction == INCOMING && |s.swaps[id].amount| == 1
    requires s.swaps[id].amount[0].denom in s.supplies ==>
               s.supplies[s.swaps[id].amount[0].denom].incoming < s.swaps[id].amount[0].amount
    ensures Claim(c, ctx, s, id, number).Err?
  {
  }

  // ---------- The file ----------

  ghost predicate Unrecorded(c: Config, now: int, a: AssetParam, w: AtomicSwap) {
    && ParamOk(c, a) && a.active && SwapValid(c, now, w)
    && |w.amount| == 1 && w.amount[0].denom == a.denom && w.status == OPEN && w.direction == INCOMING
  }

  function UnrecordedFile(a: AssetParam, w: AtomicSwap): GenesisState {
    GenesisState([a], [w], [], DEFAULT_PREVIOUS_BLOCK_TIME)
  }

  /** Import accepts the file, and the state it builds breaks the invariants. */
  lemma UnrecordedSwapAccepted(c: Config, now: int, bank: Bank, a: AssetParam, w: AtomicSwap)
    requires Unrecorded(c, now, a, w)
    ensures var gs := UnrecordedFile(a, w);
            && InitGenesis(c, now, bank, gs).Ok? && !NoGaps(c, bank, gs)
            && !Inv(Installed(c, gs), InitGenesis(c, now, bank, gs).value)
  {
    var gs := UnrecordedFile(a, w);
    ImportSwapsExact(Installed(c, gs), now, Empty(bank, gs), gs.swaps);
    assert w in gs.swaps && IsLive(w);
    AcceptedGenesisInv(c, now, bank, gs);
  }

  lemma UnrecordedState(c: Config, now: int, bank: Bank, a: AssetParam, w: AtomicSwap, s: State)
    requires Unrecorded(c, now, a, w) && InitGenesis(c, now, bank, UnrecordedFile(a, w)) == Ok(s)
    ensures s.swaps == map[GetSwapID(c.hash, w) := w] && s.supplies == map[] && s.bank == bank
    ensures OwnIDs(Installed(c, UnrecordedFile(a, w)), s.swaps)
    ensures ExpiryIndexExact(s.swaps, s.byTimestamp) && DeletionIndexExact(s.swaps, s.longterm)
  {
    var gs := UnrecordedFile(a, w);
    GenesisShape(c, now, bank, gs);
    assert gs.swaps[..0] == [];
    assert SwapMap(Installed(c, gs), gs.swaps) == map[][GetSwapID(c.hash, w) := w];
  }

  lemma QuietPasses(s: State, now: int, height: int64)
    requires forall id | id in s.swaps :: !Due(s.swaps[id], now) && !Deletable(s.swaps[id], height)
    ensures AfterDeletion(AfterExpiry(s, now), height).swaps == s.swaps
  {
    assert MarkDue(s.swaps, now) == s.swaps;
    assert KeepRecent(s.swaps, height) == s.swaps;
  }

  /** A block in which nothing is due and nothing is deleted only rolls the windows. */
  lemma QuietBlock(c: Config, ctx: Context, s: State, rolled: State, s1: State)
    requires OwnIDs(c, s.swaps) && ExpiryIndexExact(s.swaps, s.byTimestamp) && DeletionIndexExact(s.swaps, s.longterm)
    requires forall id | id in s.swaps :: !Due(s.swaps[id], Unix(ctx.time)) && !Deletable(s.swaps[id], ctx.height)
    requires rolled == RollWindows(c, ctx, s) && s1 == BeginBlock(c, ctx, s)
    ensures s1.swaps == s.swaps && s1.bank == s.bank && s1.supplies == rolled.supplies
  {
    BeginBlockClosed(c, ctx, s);
    QuietPasses(rolled, Unix(ctx.time), ctx.height);
  }

  /** A missing record is created empty. */
  lemma CreatedEmpty(c: Config, ctx: Context, s: State, a: AssetParam)
    requires c.assets == [a] && s.supplies == map[]
    ensures var supplies := RollWindows(c, ctx, s).supplies;
            a.denom in supplies && supplies[a.denom].incoming == 0 && supplies[a.denom].current == 0
  {
    RollAllExact(c.assets, Elapsed(ctx, s), s.supplies, a.denom);
  }

  lemma FirstBlockOf(c: Config, a: AssetParam, w: AtomicSwap, id: SwapID, s: State, ctx: Context, s1: State)
    requires c.assets == [a] && s.swaps == map[id := w] && s.supplies == map[]
    requires OwnIDs(c, s.swaps) && ExpiryIndexExact(s.swaps, s.byTimestamp) && DeletionIndexExact(s.swaps, s.longterm)
    requires w.status == OPEN && w.direction == INCOMING && |w.amount| == 1 && w.amount[0].denom == a.denom && w.amount[0].amount > 0
    requires s1 == BeginBlock(c, ctx, s) && Unix(ctx.time) < w.expireTimestamp
    ensures s1.swaps == s.swaps && s1.bank == s.bank
    ensures a.denom in s1.supplies && s1.supplies[a.denom].incoming == 0 && s1.supplies[a.denom].current == 0
    ensures SumLive(s1.swaps, INCOMING, a.denom) == w.amount[0].amount
    ensures forall number :: Claim(c, ctx, s1, id, number).Err?
  {
    QuietBlock(c, ctx, s, RollWindows(c, ctx, s), s1);
    CreatedEmpty(c, ctx, s, a);
    OneSum(id, w, a.denom);
    NeverClaimed(c, ctx, s1, id);
  }

  /** The first block creates the missing record with an empty counter, short of the live swap: with no
      number does its claim succeed then. */
  lemma FirstBlock(c: Config, now: int, bank: Bank, a: AssetParam, w: AtomicSwap, s: State, ctx: Context, s1: State)
    requires Unrecorded(c, now, a, w) && InitGenesis(c, now, bank, UnrecordedFile(a, w)) == Ok(s)
    requires s1 == BeginBlock(Installed(c, UnrecordedFile(a, w)), ctx, s) && Unix(ctx.time) < w.expireTimestamp
    ensures s1.swaps == map[GetSwapID(c.hash, w) := w] && s1.bank == bank
    ensures a.denom in s1.supplies && s1.supplies[a.denom].incoming == 0 && s1.supplies[a.denom].current == 0
    ensures SumLive(s1.swaps, INCOMING, a.denom) == w.amount[0].amount > 0
    ensures forall number :: Claim(Installed(c, UnrecordedFile(a, w)), ctx, s1, GetSwapID(c.hash, w), number).Err?
  {
    UnrecordedState(c, now, bank, a, w, s);
    FirstBlockOf(Installed(c, UnrecordedFile(a, w)), a, w, GetSwapID(c.hash, w), s, ctx, s1);
  }

  lemma OneSum(id: SwapID, w: AtomicSwap, d: Denom)
    requires IsLive(w) && w.direction == INCOMING && |w.amount| == 1 && w.amount[0].denom == d
    ensures SumLive(map[id := w], INCOMING, d) == w.amount[0].amount
  {
    SumInsert(map[], id, w, INCOMING, d);
    assert map[][id := w] == map[id := w];
  }

  lemma NeverClaimed(c: Config, ctx: Context, s: State, id: SwapID)
    requires id in s.swaps && s.swaps[id].direction == INCOMING && |s.swaps[id].amount| == 1
    requires s.swaps[id].amount[0].denom in s.supplies ==>
               s.supplies[s.swaps[id].amount[0].denom].incoming < s.swaps[id].amount[0].amount
    ensures forall number :: Claim(c, ctx, s, id, number).Err?
  {
    forall number ensures Claim(c, ctx, s, id, number).Err? {
      ShortCounterFails(c, ctx, s, id, number);
    }
  }

  // ---------- Borrowing ----------

  /** An incoming create that covers the amount fills the empty counter. The unrecorded swap then is claimable,
      at the expense of the new one: with no number can that one be claimed any more. */
  lemma BorrowedCounter(c: Config, ctx: Context, s: State, id: SwapID, number: Bytes, m: CreateMsg, s2: State, s3: State)
    requires id in s.swaps && s.swaps[id].status == OPEN && s.swaps[id].direction == INCOMING && |s.swaps[id].amount| == 1
    requires GetSwapID(c.hash, s.swaps[id]) == id && SecretUnlocks(c.hash, s.swaps[id], number)
    requires var coin := s.swaps[id].amount[0];
             && coin.amount > 0 && Balance(s.bank, c.moduleAddress, coin.denom) >= 0
             && coin.denom in s.supplies && s.supplies[coin.denom].incoming == 0
    requires Create(c, ctx, s, m) == Ok(s2) && DirectionOf(c, m) == INCOMING
    requires m.amount[0].denom == s.swaps[id].amount[0].denom && m.amount[0].amount >= s.swaps[id].amount[0].amount
    ensures Claim(c, ctx, s, id, number).Err?
    ensures Claim(c, ctx, s2, id, number).Ok?
    ensures Claim(c, ctx, s2, id, number) == Ok(s3) ==>
              var other := CalculateSwapID(c.hash, m.randomNumberHash, m.sender, m.senderOtherChain);
              other in s3.swaps && s3.swaps[other].status == OPEN && forall n :: Claim(c, ctx, s3, other, n).Err?
  {
    var other := CalculateSwapID(c.hash, m.randomNumberHash, m.sender, m.senderOtherChain);
    ShortCounterFails(c, ctx, s, id, number);
    CreateEffect(c, ctx, s, m);
    ClaimIncomingExact(c, ctx, s2, id, number);
    if Claim(c, ctx, s2, id, number) == Ok(s3) {
      ClaimTakes(c, ctx, s2, id, number);
      NeverClaimed(c, ctx, s3, other);
    }
  }

  /** Import, first block, create, claim: the whole run from the accepted file. */
  lemma UnrecordedRun(c: Config, now: int, bank: Bank, a: AssetParam, w: AtomicSwap, s: State, ctx: Context, s1: State,
                      number: Bytes, m: CreateMsg, s2: State, s3: State)
    requires Unrecorded(c, now, a, w) && InitGenesis(c, now, bank, UnrecordedFile(a, w)) == Ok(s)
    requires Balance(bank, c.moduleAddress, a.denom) >= 0 && SecretUnlocks(c.hash, w, number)
    requires s1 == BeginBlock(Installed(c, UnrecordedFile(a, w)), ctx, s) && Unix(ctx.time) < w.expireTimestamp
    requires Create(Installed(c, UnrecordedFile(a, w)), ctx, s1, m) == Ok(s2) && m.sender == a.deputyAddress
    requires m.amount[0].amount >= w.amount[0].amount
    ensures var c', id := Installed(c, UnrecordedFile(a, w)), GetSwapID(c.hash, w);
            && Claim(c', ctx, s1, id, number).Err?
            && Claim(c', ctx, s2, id, number).Ok?
            && (Claim(c', ctx, s2, id, number) == Ok(s3) ==>
                  var other := CalculateSwapID(c.hash, m.randomNumberHash, m.sender, m.senderOtherChain);
                  other in s3.swaps && s3.swaps[other].status == OPEN && forall n :: Claim(c', ctx, s3, other, n).Err?)
  {
    var c' := Installed(c, UnrecordedFile(a, w));
    FirstBlock(c, now, bank, a, w, s, ctx, s1);
    CreateEffect(c', ctx, s1, m);
    assert FindAsset(c'.assets, m.amount[0].denom).value in c'.assets;
    BorrowedCounter(c', ctx, s1, GetSwapID(c.hash, w), number, m, s2, s3);
  }

  // ---------- A concrete file ----------

  /** A file with this gap and no other: its parties are not the module account, and it lists no supplies. */
  lemma UnrecordedSwapExists(hash: Bytes -> Bytes) returns (c: Config, a: AssetParam, w: AtomicSwap)
    ensures c.hash == hash && Unrecorded(c, 0, a, w) && c.moduleAddress in c.moduleAccounts
    ensures w.sender != c.moduleAddress && w.recipient != c.moduleAddress
    ensures w.amount[0].denom !in StoreSupplies(UnrecordedFile(a, w).supplies)
  {
    var party, account := seq(20, i => 0), seq(20, i => 1);
    c := Config(hash, d => true, [], account, {account});
    a := AssetParam([1], 0, SupplyLimit(10, false, 0, 0), true, party, 0, 1, 10, 1);
    w := AtomicSwap([Coin([1], 5)], seq(32, i => 0), 1, 1, party, party, [65], [65], 0, OPEN, false, INCOMING);
    assert !IsSpace(w.senderOtherChain[0]) && !IsSpace(w.recipientOtherChain[0]);
    assert party[0] != account[0];
  }
}
