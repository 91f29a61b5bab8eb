/** The three per-block passes: what the loops over the indexes amount to. */
module Blocks {
  import opened Wrappers
  import opened Bytes
  import opened Types
  import opened Keys
  import opened Hashes
  import opened Supply
  import opened Machine
  import opened Sums
  import opened Invariants

  // ---------- Rate-limit windows ----------

  lemma NoRecordNoLiveSwaps(c: Config, s: State, d: Denom, dir: SwapDirection)
    requires SwapsOk(c, s.supplies, s.swaps) && d !in s.supplies
    ensures SumLive(s.swaps, dir, d) == 0
  {
    forall id | id in s.swaps ensures Part(s.swaps[id], dir, d) == 0 {
      assert SwapOk(c, s.supplies, s.swaps[id]);
    }
    SumSame(s.swaps, map[], dir, d);
  }

  function Elapsed(ctx: Context, s: State): int64 {
    Sub(ctx.time, if s.prevBlockTime.Some? then s.prevBlockTime.value else ctx.time)
  }

  /** The record of one denomination after the windows have rolled. */
  lemma RollWindowsRecord(c: Config, ctx: Context, s: State, d: Denom)
    requires ParamsOk(c)
    ensures SupplyOrNew(RollWindows(c, ctx, s).supplies, d) == RolledRecord(c, ctx, s, d)
  {
    if c.assets != [] {
      RollAllExact(c.assets, Elapsed(ctx, s), s.supplies, d);
    }
  }

  lemma RollWindowsKeepsSupply(c: Config, ctx: Context, s: State, d: Denom)
    requires ParamsOk(c) && Inv(c, s) && d in RollWindows(c, ctx, s).supplies
    ensures SupplyOk(c, RollWindows(c, ctx, s), d)
  {
    if c.assets == [] {
      assert SupplyOk(c, s, d);
    } else {
      RollAllExact(c.assets, Elapsed(ctx, s), s.supplies, d);
      if d in s.supplies {
        assert SupplyOk(c, s, d);
      } else {
        assert ParamOk(c, FindAsset(c.assets, d).value);
        NoRecordNoLiveSwaps(c, s, d, INCOMING);
        NoRecordNoLiveSwaps(c, s, d, OUTGOING);
      }
    }
  }

  lemma RollWindowsKeepsInv(c: Config, ctx: Context, s: State)
    requires ParamsOk(c) && Inv(c, s)
    ensures Inv(c, RollWindows(c, ctx, s))
    ensures RollWindows(c, ctx, s).swaps == s.swaps && RollWindows(c, ctx, s).bank == s.bank
  {
    var s' := RollWindows(c, ctx, s);
    forall d | d in s'.supplies ensures SupplyOk(c, s', d) {
      RollWindowsKeepsSupply(c, ctx, s, d);
    }
    RollWindowsKeepsSwaps(c, ctx, s);
  }

  lemma RollWindowsKeepsSwaps(c: Config, ctx: Context, s: State)
    requires ParamsOk(c) && SwapsOk(c, s.supplies, s.swaps)
    ensures SwapsOk(c, RollWindows(c, ctx, s).supplies, s.swaps)
  {
    forall id | id in s.swaps ensures SwapOk(c, RollWindows(c, ctx, s).supplies, s.swaps[id]) {
      assert SwapOk(c, s.supplies, s.swaps[id]);
      if c.assets != [] {
        RollAllExact(c.assets, Elapsed(ctx, s), s.supplies, s.swaps[id].amount[0].denom);
      }
    }
  }

  // ---------- Expiry ----------

  predicate Due(swap: AtomicSwap, now: int) {
    swap.status == OPEN && swap.expireTimestamp <= now
  }

  function MarkDue(swaps: map<SwapID, AtomicSwap>, now: int): map<SwapID, AtomicSwap> {
    map id | id in swaps :: if Due(swaps[id], now) then swaps[id].(status := EXPIRED) else swaps[id]
  }

  function KeepPending(swaps: map<SwapID, AtomicSwap>, index: map<Bytes, SwapID>, now: int): map<Bytes, SwapID> {
    map k | k in index && !(index[k] in swaps && Due(swaps[index[k]], now)) :: index[k]
  }

  /** Exactly the due swaps become expired and leave the expiry index. */
  function AfterExpiry(s: State, now: int): State {
    s.(swaps := MarkDue(s.swaps, now), byTimestamp := KeepPending(s.swaps, s.byTimestamp, now))
  }

  function MarkExpired(swaps: map<SwapID, AtomicSwap>, ids: seq<SwapID>): map<SwapID, AtomicSwap> {
    map id | id in swaps :: if id in ids then swaps[id].(status := EXPIRED) else swaps[id]
  }

  function Without(index: map<Bytes, SwapID>, ids: seq<SwapID>): map<Bytes, SwapID> {
    map k | k in index && index[k] !in ids :: index[k]
  }

  lemma MarkOne(swaps: map<SwapID, AtomicSwap>, ids: seq<SwapID>, id: SwapID)
    requires id in swaps
    ensures MarkExpired(swaps, ids)[id := swaps[id].(status := EXPIRED)] == MarkExpired(swaps, ids + [id])
  {
  }

  lemma WithoutOne(index: map<Bytes, SwapID>, ids: seq<SwapID>, id: SwapID, key: Bytes)
    requires forall k | k in index :: k == key <==> index[k] == id
    ensures Without(index, ids) - {key} == Without(index, ids + [id])
  {
  }

  lemma ExpiryKeyUnique(swaps: map<SwapID, AtomicSwap>, index: map<Bytes, SwapID>, id: SwapID)
    requires ExpiryIndexExact(swaps, index) && id in swaps && swaps[id].status == OPEN
    ensures ExpiryKey(swaps[id], id) in index && index[ExpiryKey(swaps[id], id)] == id
    ensures forall k | k in index :: k == ExpiryKey(swaps[id], id) <==> index[k] == id
  {
    forall k | k in index && k == ExpiryKey(swaps[id], id) ensures index[k] == id {
      ByHeightKeyInjective(TimestampRank(swaps[id].expireTimestamp), id,
                           TimestampRank(swaps[index[k]].expireTimestamp), index[k]);
    }
  }

  lemma {:induction false} ExpireAllProgress(c: Config, s: State, ids: seq<SwapID>)
    requires OwnIDs(c, s.swaps) && ExpiryIndexExact(s.swaps, s.byTimestamp)
    requires forall id | id in ids :: id in s.swaps && s.swaps[id].status == OPEN
    ensures ExpireAll(c, s, ids) == s.(swaps := MarkExpired(s.swaps, ids), byTimestamp := Without(s.byTimestamp, ids))
  {
    if ids == [] {
      assert MarkExpired(s.swaps, ids) == s.swaps && Without(s.byTimestamp, ids) == s.byTimestamp;
    } else {
      var init, last := ids[..|ids| - 1], ids[|ids| - 1];
      assert ids == init + [last] && last in ids;
      ExpireAllProgress(c, s, init);
      MarkOne(s.swaps, init, last);
      ExpiryKeyUnique(s.swaps, s.byTimestamp, last);
      WithoutOne(s.byTimestamp, init, last, ExpiryKey(s.swaps[last], last));
      assert GetSwapID(c.hash, s.swaps[last]) == last;
    }
  }

  /** The scan up to a time yields exactly the due swaps. */
  lemma DueScanned(s: State, ctx: Context, id: SwapID)
    requires ExpiryIndexExact(s.swaps, s.byTimestamp)
    ensures id in Scan(s.byTimestamp, ExpiryCutoff(ctx)) <==> id in s.swaps && Due(s.swaps[id], Unix(ctx.time))
  {
    ScanValues(s.byTimestamp, ExpiryCutoff(ctx), id);
    if id in s.swaps {
      CutoffBound(TimestampRank(s.swaps[id].expireTimestamp), id, TimestampRank(Unix(ctx.time)));
      if s.swaps[id].status == OPEN {
        ExpiryKeyUnique(s.swaps, s.byTimestamp, id);
      }
    }
  }

  lemma ExpireExactlyDue(c: Config, s: State, ids: seq<SwapID>, now: int)
    requires OwnIDs(c, s.swaps) && ExpiryIndexExact(s.swaps, s.byTimestamp)
    requires forall id :: id in ids <==> id in s.swaps && Due(s.swaps[id], now)
    ensures ExpireAll(c, s, ids) == AfterExpiry(s, now)
  {
    ExpireAllProgress(c, s, ids);
    assert MarkExpired(s.swaps, ids) == MarkDue(s.swaps, now);
    assert Without(s.byTimestamp, ids) == KeepPending(s.swaps, s.byTimestamp, now);
  }

  /** Every callback finds its swap, and finds it open, in the store that the callbacks before it left. */
  ghost predicate ExpiryFinds(c: Config, s: State, ids: seq<SwapID>, i: nat)
    requires i < |ids|
  {
    var mid := ExpireAll(c, s, ids[..i]);
    ids[i] in mid.swaps && mid.swaps[ids[i]].status == OPEN
  }

  lemma ExpiryFindsAll(c: Config, s: State, ids: seq<SwapID>, i: nat)
    requires OwnIDs(c, s.swaps) && ExpiryIndexExact(s.swaps, s.byTimestamp) && i < |ids|
    requires forall id | id in ids :: id in s.swaps && s.swaps[id].status == OPEN
    requires forall j, k | 0 <= j < k < |ids| :: ids[j] != ids[k]
    ensures ExpiryFinds(c, s, ids, i)
  {
    assert forall id | id in ids[..i] :: id in ids;
    ExpireAllProgress(c, s, ids[..i]);
    assert ids[i] in ids && ids[i] !in ids[..i];
  }

  /** The expiry loop refines the set specification; no callback takes its "not found" branch or
      overwrites a status other than open. */
  lemma UpdateExpiredExact(c: Config, ctx: Context, s: State)
    requires OwnIDs(c, s.swaps) && ExpiryIndexExact(s.swaps, s.byTimestamp)
    ensures UpdateExpired(c, ctx, s) == AfterExpiry(s, Unix(ctx.time))
    ensures var ids := Scan(s.byTimestamp, ExpiryCutoff(ctx));
            forall i | 0 <= i < |ids| :: ExpiryFinds(c, s, ids, i)
  {
    var ids := Scan(s.byTimestamp, ExpiryCutoff(ctx));
    forall id: SwapID {
      DueScanned(s, ctx, id);
    }
    ExpireExactlyDue(c, s, ids, Unix(ctx.time));
    ScanDistinct(s.byTimestamp, ExpiryCutoff(ctx));
    forall i | 0 <= i < |ids| ensures ExpiryFinds(c, s, ids, i) {
      ExpiryFindsAll(c, s, ids, i);
    }
  }

  lemma AfterExpiryIndexes(swaps: map<SwapID, AtomicSwap>, index: map<Bytes, SwapID>, longterm: map<Bytes, SwapID>, now: int)
    requires ExpiryIndexExact(swaps, index) && DeletionIndexExact(swaps, longterm)
    ensures ExpiryIndexExact(MarkDue(swaps, now), KeepPending(swaps, index, now))
    ensures DeletionIndexExact(MarkDue(swaps, now), longterm)
  {
    forall id | id in swaps && swaps[id].status == OPEN && !Due(swaps[id], now)
      ensures ExpiryKey(swaps[id], id) in KeepPending(swaps, index, now)
    {
      ExpiryKeyUnique(swaps, index, id);
    }
  }

  /** Passes that change no contribution and no counter keep the accounts. */
  lemma SameAccounts(c: Config, s: State, s': State)
    requires forall d | d in s.supplies :: SupplyOk(c, s, d)
    requires s'.supplies == s.supplies && s'.bank == s.bank && s'.swaps.Keys <= s.swaps.Keys
    requires forall id, dir, d | id in s.swaps ::
               Part(s.swaps[id], dir, d) == if id in s'.swaps then Part(s'.swaps[id], dir, d) else 0
    ensures forall d | d in s'.supplies :: SupplyOk(c, s', d)
  {
    forall d | d in s'.supplies ensures SupplyOk(c, s', d) {
      assert SupplyOk(c, s, d);
      SumSame(s.swaps, s'.swaps, INCOMING, d);
      SumSame(s.swaps, s'.swaps, OUTGOING, d);
    }
  }

  lemma MarkDueOwnIDs(c: Config, swaps: map<SwapID, AtomicSwap>, now: int)
    requires OwnIDs(c, swaps)
    ensures OwnIDs(c, MarkDue(swaps, now))
  {
    forall id | id in swaps ensures GetSwapID(c.hash, MarkDue(swaps, now)[id]) == id {
      assert GetSwapID(c.hash, swaps[id]) == id;
    }
  }

  lemma MarkDueSwaps(c: Config, supplies: Supplies, swaps: map<SwapID, AtomicSwap>, now: int)
    requires OwnIDs(c, swaps) && SwapsOk(c, supplies, swaps)
    ensures OwnIDs(c, MarkDue(swaps, now)) && SwapsOk(c, supplies, MarkDue(swaps, now))
  {
    forall id | id in swaps ensures SwapOk(c, supplies, MarkDue(swaps, now)[id]) {
      assert SwapOk(c, supplies, swaps[id]);
    }
    MarkDueOwnIDs(c, swaps, now);
  }

  lemma AfterExpiryKeepsInv(c: Config, s: State, now: int)
    requires Inv(c, s)
    ensures Inv(c, AfterExpiry(s, now))
  {
    AfterExpiryIndexes(s.swaps, s.byTimestamp, s.longterm, now);
    MarkDueSwaps(c, s.supplies, s.swaps, now);
    SameAccounts(c, s, AfterExpiry(s, now));
  }

  // ---------- Deletion ----------

  predicate Deletable(swap: AtomicSwap, height: int64) {
    swap.status == COMPLETED && DeletionHeight(swap.closedBlock) <= ToUint64(height)
  }

  function KeepRecent(swaps: map<SwapID, AtomicSwap>, height: int64): map<SwapID, AtomicSwap> {
    map id | id in swaps && !Deletable(swaps[id], height) :: swaps[id]
  }

  function KeepScheduled(swaps: map<SwapID, AtomicSwap>, index: map<Bytes, SwapID>, height: int64): map<Bytes, SwapID> {
    map k | k in index && !(index[k] in swaps && Deletable(swaps[index[k]], height)) :: index[k]
  }

  /** Exactly the completed swaps whose deletion height has been reached are gone, from the store and
      from the deletion index. */
  function AfterDeletion(s: State, height: int64): State {
    s.(swaps := KeepRecent(s.swaps, height), longterm := KeepScheduled(s.swaps, s.longterm, height))
  }

  function Dropped(swaps: map<SwapID, AtomicSwap>, ids: seq<SwapID>): map<SwapID, AtomicSwap> {
    map id | id in swaps && id !in ids :: swaps[id]
  }

  lemma DropOne(swaps: map<SwapID, AtomicSwap>, ids: seq<SwapID>, id: SwapID)
    ensures Dropped(swaps, ids) - {id} == Dropped(swaps, ids + [id])
  {
  }

  lemma DeletionKeyUnique(swaps: map<SwapID, AtomicSwap>, index: map<Bytes, SwapID>, id: SwapID)
    requires DeletionIndexExact(swaps, index) && id in swaps && swaps[id].status == COMPLETED
    ensures DeletionKey(swaps[id], id) in index && index[DeletionKey(swaps[id], id)] == id
    ensures forall k | k in index :: k == DeletionKey(swaps[id], id) <==> index[k] == id
  {
    forall k | k in index && k == DeletionKey(swaps[id], id) ensures index[k] == id {
      ByHeightKeyInjective(DeletionHeight(swaps[id].closedBlock), id, DeletionHeight(swaps[index[k]].closedBlock), index[k]);
    }
  }

  lemma {:induction false} DeleteAllProgress(c: Config, s: State, ids: seq<SwapID>)
    requires OwnIDs(c, s.swaps) && DeletionIndexExact(s.swaps, s.longterm)
    requires forall id | id in ids :: id in s.swaps && s.swaps[id].status == COMPLETED
    ensures DeleteAll(c, s, ids) == s.(swaps := Dropped(s.swaps, ids), longterm := Without(s.longterm, ids))
  {
    if ids == [] {
      assert Dropped(s.swaps, ids) == s.swaps && Without(s.longterm, ids) == s.longterm;
    } else {
      var init, last := ids[..|ids| - 1], ids[|ids| - 1];
      assert ids == init + [last] && last in ids;
      DeleteAllProgress(c, s, init);
      DeletionKeyUnique(s.swaps, s.longterm, last);
      DeleteProgress(c, s, s.(swaps := Dropped(s.swaps, init), longterm := Without(s.longterm, init)), init, last);
    }
  }

  /** One more deletion. */
  lemma DeleteProgress(c: Config, s: State, before: State, init: seq<SwapID>, last: SwapID)
    requires last in s.swaps && GetSwapID(c.hash, s.swaps[last]) == last
    requires before == s.(swaps := Dropped(s.swaps, init), longterm := Without(s.longterm, init))
    requires forall k | k in s.longterm :: k == DeletionKey(s.swaps[last], last) <==> s.longterm[k] == last
    ensures DeleteOne(c, before, last)
            == s.(swaps := Dropped(s.swaps, init + [last]), longterm := Without(s.longterm, init + [last]))
  {
    DropOne(s.swaps, init, last);
    WithoutOne(s.longterm, init, last, DeletionKey(s.swaps[last], last));
    if last in init {
      assert Dropped(s.swaps, init) - {last} == Dropped(s.swaps, init);
      assert Without(s.longterm, init) - {DeletionKey(s.swaps[last], last)} == Without(s.longterm, init);
    }
  }

  lemma DeletableScanned(s: State, ctx: Context, id: SwapID)
    requires DeletionIndexExact(s.swaps, s.longterm)
    ensures id in Scan(s.longterm, DeletionCutoff(ctx)) <==> id in s.swaps && Deletable(s.swaps[id], ctx.height)
  {
    ScanValues(s.longterm, DeletionCutoff(ctx), id);
    if id in s.swaps {
      CutoffBound(DeletionHeight(s.swaps[id].closedBlock), id, ToUint64(ctx.height));
      if s.swaps[id].status == COMPLETED {
        DeletionKeyUnique(s.swaps, s.longterm, id);
      }
    }
  }

  lemma DeleteExactlyDeletable(c: Config, s: State, ids: seq<SwapID>, height: int64)
    requires OwnIDs(c, s.swaps) && DeletionIndexExact(s.swaps, s.longterm)
    requires forall id :: id in ids <==> id in s.swaps && Deletable(s.swaps[id], height)
    ensures DeleteAll(c, s, ids) == AfterDeletion(s, height)
  {
    DeleteAllProgress(c, s, ids);
    assert Dropped(s.swaps, ids) == KeepRecent(s.swaps, height);
    assert Without(s.longterm, ids) == KeepScheduled(s.swaps, s.longterm, height);
  }

  /** Every callback finds its swap in the store that the callbacks before it left. */
  ghost predicate DeletionFinds(c: Config, s: State, ids: seq<SwapID>, i: nat)
    requires i < |ids|
  {
    var mid := DeleteAll(c, s, ids[..i]);
    ids[i] in mid.swaps && mid.swaps[ids[i]].status == COMPLETED
  }

  lemma DeletionFindsAll(c: Config, s: State, ids: seq<SwapID>, i: nat)
    requires OwnIDs(c, s.swaps) && DeletionIndexExact(s.swaps, s.longterm) && i < |ids|
    requires forall id | id in ids :: id in s.swaps && s.swaps[id].status == COMPLETED
    requires forall j, k | 0 <= j < k < |ids| :: ids[j] != ids[k]
    ensures DeletionFinds(c, s, ids, i)
  {
    assert forall id | id in ids[..i] :: id in ids;
    DeleteAllProgress(c, s, ids[..i]);
    assert ids[i] in ids && ids[i] !in ids[..i];
  }

  /** The deletion loop refines the set specification; no callback takes its "not found" branch. */
  lemma DeleteClosedExact(c: Config, ctx: Context, s: State)
    requires OwnIDs(c, s.swaps) && DeletionIndexExact(s.swaps, s.longterm)
    ensures DeleteClosed(c, ctx, s) == AfterDeletion(s, ctx.height)
    ensures var ids := Scan(s.longterm, DeletionCutoff(ctx));
            forall i | 0 <= i < |ids| :: DeletionFinds(c, s, ids, i)
  {
    var ids := Scan(s.longterm, DeletionCutoff(ctx));
    forall id: SwapID {
      DeletableScanned(s, ctx, id);
    }
    DeleteExactlyDeletable(c, s, ids, ctx.height);
    ScanDistinct(s.longterm, DeletionCutoff(ctx));
    forall i | 0 <= i < |ids| ensures DeletionFinds(c, s, ids, i) {
      DeletionFindsAll(c, s, ids, i);
    }
  }

  lemma AfterDeletionIndexes(swaps: map<SwapID, AtomicSwap>, index: map<Bytes, SwapID>, longterm: map<Bytes, SwapID>, height: int64)
    requires ExpiryIndexExact(swaps, index) && DeletionIndexExact(swaps, longterm)
    ensures ExpiryIndexExact(KeepRecent(swaps, height), index)
    ensures DeletionIndexExact(KeepRecent(swaps, height), KeepScheduled(swaps, longterm, height))
  {
    forall id | id in swaps && swaps[id].status == COMPLETED && !Deletable(swaps[id], height)
      ensures DeletionKey(swaps[id], id) in KeepScheduled(swaps, longterm, height)
    {
      DeletionKeyUnique(swaps, longterm, id);
    }
  }

  lemma AfterDeletionKeepsInv(c: Config, s: State, height: int64)
    requires Inv(c, s)
    ensures Inv(c, AfterDeletion(s, height))
  {
    AfterDeletionIndexes(s.swaps, s.byTimestamp, s.longterm, height);
    SameAccounts(c, s, AfterDeletion(s, height));
    forall id | id in AfterDeletion(s, height).swaps
      ensures SwapOk(c, s.supplies, s.swaps[id]) && GetSwapID(c.hash, s.swaps[id]) == id
    {
    }
  }

  // ---------- The whole block ----------

  /** Begin block in closed form: windows roll, then due swaps expire, then old completed swaps go. Own
      identifiers and exact indexes suffice. */
  lemma BeginBlockClosed(c: Config, ctx: Context, s: State)
    requires OwnIDs(c, s.swaps) && ExpiryIndexExact(s.swaps, s.byTimestamp) && DeletionIndexExact(s.swaps, s.longterm)
    ensures BeginBlock(c, ctx, s) == AfterDeletion(AfterExpiry(RollWindows(c, ctx, s), Unix(ctx.time)), ctx.height)
  {
    var rolled := RollWindows(c, ctx, s);
    UpdateExpiredExact(c, ctx, rolled);
    var expired := AfterExpiry(rolled, Unix(ctx.time));
    AfterExpiryIndexes(s.swaps, s.byTimestamp, s.longterm, Unix(ctx.time));
    MarkDueOwnIDs(c, s.swaps, Unix(ctx.time));
    DeleteClosedExact(c, ctx, expired);
  }

  lemma BeginBlockExact(c: Config, ctx: Context, s: State)
    requires ParamsOk(c) && Inv(c, s)
    ensures BeginBlock(c, ctx, s) == AfterDeletion(AfterExpiry(RollWindows(c, ctx, s), Unix(ctx.time)), ctx.height)
    ensures Inv(c, BeginBlock(c, ctx, s))
  {
    var rolled := RollWindows(c, ctx, s);
    RollWindowsKeepsInv(c, ctx, s);
    BeginBlockClosed(c, ctx, s);
    AfterExpiryKeepsInv(c, rolled, Unix(ctx.time));
    AfterDeletionKeepsInv(c, AfterExpiry(rolled, Unix(ctx.time)), ctx.height);
  }

  function Aged(swap: AtomicSwap, now: int): AtomicSwap {
    if Due(swap, now) then swap.(status := EXPIRED) else swap
  }

  function RolledRecord(c: Config, ctx: Context, s: State, d: Denom): AssetSupply {
    if FindAsset(c.assets, d).Some? then Roll(FindAsset(c.assets, d).value, Elapsed(ctx, s), SupplyOrNew(s.supplies, d))
    else SupplyOrNew(s.supplies, d)
  }

  /** What a block does, swap by swap and denomination by denomination: no swap expires and is deleted
      in one block, so each fate depends on the swap's own fields alone. */
  ghost predicate BlockDone(c: Config, ctx: Context, s: State, s': State) {
    && (forall id :: id in s'.swaps <==> id in s.swaps && !Deletable(s.swaps[id], ctx.height))
    && (forall id | id in s'.swaps :: s'.swaps[id] == Aged(s.swaps[id], Unix(ctx.time)))
    && (forall d: Denom :: SupplyOrNew(s'.supplies, d) == RolledRecord(c, ctx, s, d))
    && s'.prevBlockTime == (if c.assets == [] then s.prevBlockTime else Some(ctx.time))
    && s'.bank == s.bank
  }

  lemma AfterPassesDone(c: Config, ctx: Context, s: State, rolled: State)
    requires rolled == s.(supplies := rolled.supplies, prevBlockTime := rolled.prevBlockTime)
    requires rolled.prevBlockTime == if c.assets == [] then s.prevBlockTime else Some(ctx.time)
    requires forall d: Denom :: SupplyOrNew(rolled.supplies, d) == RolledRecord(c, ctx, s, d)
    ensures BlockDone(c, ctx, s, AfterDeletion(AfterExpiry(rolled, Unix(ctx.time)), ctx.height))
  {
  }

  lemma BeginBlockDone(c: Config, ctx: Context, s: State)
    requires ParamsOk(c) && Inv(c, s)
    ensures BlockDone(c, ctx, s, BeginBlock(c, ctx, s)) && Inv(c, BeginBlock(c, ctx, s))
  {
    BeginBlockExact(c, ctx, s);
    forall d: Denom {
      RollWindowsRecord(c, ctx, s, d);
    }
    AfterPassesDone(c, ctx, s, RollWindows(c, ctx, s));
  }
}
