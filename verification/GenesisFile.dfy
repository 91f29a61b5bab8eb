/** Which genesis files import accepts, spelled out. */
module GenesisFile {
  import opened Wrappers
  import opened Bytes
  import opened Types
  import opened Banking
  import opened Supply
  import opened Invariants
  import opened Genesis

  // ---------- The file, in plain terms ----------

  predicate AssetFits(c: Config, a: AssetParam) {
    && c.validDenom(a.denom) && a.coinID >= 0 && a.fixedFee >= 0 && |a.deputyAddress| == 20
    && 0 <= a.supplyLimit.timeBasedLimit <= a.supplyLimit.limit
    && 1 <= a.swapTimeSpanMin <= 4320
    && 1 <= a.minSwapAmount <= a.maxSwapAmount
  }

  /** Some byte other than tab, line feed, vertical tab, form feed, carriage return and space. */
  predicate Visible(s: Bytes) {
    exists i :: 0 <= i < |s| && s[i] !in [9, 10, 11, 12, 13, 32]
  }

  /** Status 1 is open, 2 completed, 3 expired; direction 1 is incoming, 2 outgoing. */
  predicate SwapFits(c: Config, now: int, w: AtomicSwap) {
    && |w.amount| >= 1
    && (forall i | 0 <= i < |w.amount| :: c.validDenom(w.amount[i].denom) && w.amount[i].amount >= 1)
    && (forall i | 1 <= i < |w.amount| :: Less(w.amount[i - 1].denom, w.amount[i].denom))
    && |w.randomNumberHash| == 32 && |w.sender| == 20 && |w.recipient| == 20
    && w.expireTimestamp != 0 && w.timestamp != 0
    && now <= (w.timestamp + 86400) * 1_000_000_000
    && Visible(w.senderOtherChain) && Visible(w.recipientOtherChain)
    && 1 <= w.status <= 3 && 1 <= w.direction <= 2
    && (w.status == 2 ==> w.closedBlock != 0)
  }

  /** The first coin is of a listed, active asset. */
  predicate AssetActive(assets: seq<AssetParam>, d: Denom) {
    exists a :: a in assets && a.denom == d && a.active
  }

  /** A record has no negative counter, belongs to a listed asset, matches the live swaps of the file in both
      directions, and is within the supply limit. */
  predicate RecordFits(c: Config, gs: GenesisState, p: AssetSupply) {
    && c.validDenom(p.denom)
    && p.incoming >= 0 && p.outgoing >= 0 && p.current >= 0 && p.timeLimitedCurrent >= 0
    && p.incoming == FileTotal(gs.swaps, 1, p.denom)
    && p.outgoing == FileTotal(gs.swaps, 2, p.denom)
    && exists a :: a in gs.params && a.denom == p.denom && WithinLimit(a.supplyLimit.limit, p)
  }

  predicate WithinLimit(limit: int, p: AssetSupply) {
    p.incoming + p.current <= limit && p.outgoing <= limit
  }

  ghost predicate FileFits(c: Config, now: int, gs: GenesisState) {
    && DistinctDenoms(gs.params) && DistinctIDs(c, gs.swaps) && DistinctSupplies(gs.supplies)
    && (forall a | a in gs.params :: AssetFits(c, a))
    && (forall w | w in gs.swaps :: SwapFits(c, now, w) && AssetActive(gs.params, w.amount[0].denom))
    && (forall p | p in gs.supplies :: RecordFits(c, gs, p))
  }

  // ---------- Import accepts exactly that ----------

  lemma VisibleExact(s: Bytes)
    ensures Visible(s) <==> !Blank(s)
  {
    forall i | 0 <= i < |s| ensures s[i] in [9, 10, 11, 12, 13, 32] <==> IsSpace(s[i]) {
    }
  }

  lemma SwapFitsExact(c: Config, now: int, w: AtomicSwap)
    ensures SwapFits(c, now, w) <==> SwapValid(c, now, w)
  {
    VisibleExact(w.senderOtherChain);
    VisibleExact(w.recipientOtherChain);
  }

  lemma {:induction false} FindsListed(assets: seq<AssetParam>, a: AssetParam)
    requires DistinctDenoms(assets) && a in assets
    ensures FindAsset(assets, a.denom) == Some(a)
  {
    if assets[0] != a {
      var i :| 0 <= i < |assets| && assets[i] == a;
      assert a in assets[1..] && assets[0].denom != assets[i].denom;
      FindsListed(assets[1..], a);
    }
  }

  lemma ActiveExact(c: Config, gs: GenesisState, d: Denom)
    requires DistinctDenoms(gs.params)
    ensures AssetActive(gs.params, d) <==> LiveAsset(Installed(c, gs), d)
  {
    if a :| a in gs.params && a.denom == d && a.active {
      FindsListed(gs.params, a);
    }
  }

  lemma LimitExact(c: Config, gs: GenesisState, p: AssetSupply)
    requires DistinctDenoms(gs.params)
    ensures (exists a :: a in gs.params && a.denom == p.denom && WithinLimit(a.supplyLimit.limit, p))
            <==> FindAsset(gs.params, p.denom).Some? && WithinLimit(FindAsset(gs.params, p.denom).value.supplyLimit.limit, p)
  {
    if a :| a in gs.params && a.denom == p.denom && WithinLimit(a.supplyLimit.limit, p) {
      FindsListed(gs.params, a);
    }
  }

  lemma RecordFitsExact(c: Config, gs: GenesisState, acc: Import, p: AssetSupply)
    requires DistinctDenoms(gs.params)
    requires AmountOf(acc.incoming, p.denom) == FileTotal(gs.swaps, INCOMING, p.denom)
    requires AmountOf(acc.outgoing, p.denom) == FileTotal(gs.swaps, OUTGOING, p.denom)
    ensures RecordFits(c, gs, p) <==> SupplyValid(c, p) && SupplyAccepted(Installed(c, gs), acc, p)
  {
    LimitExact(c, gs, p);
  }

  /** The records import checks at the end are exactly the listed ones. */
  lemma ChecksListed(c: Config, gs: GenesisState, acc: Import)
    requires DistinctSupplies(gs.supplies) && acc.state.supplies == StoreSupplies(gs.supplies)
    ensures CheckSupplies(c, Ok(acc)).Ok? <==> forall p | p in gs.supplies :: SupplyAccepted(c, acc, p)
  {
    StoreSuppliesExact(gs.supplies);
    if forall d | d in acc.state.supplies :: SupplyAccepted(c, acc, acc.state.supplies[d]) {
      forall p | p in gs.supplies ensures SupplyAccepted(c, acc, p) {
        assert acc.state.supplies[p.denom] == p;
      }
    }
  }

  lemma ValidExact(c: Config, now: int, gs: GenesisState)
    ensures GenesisValid(c, now, gs)
            <==> && DistinctDenoms(gs.params) && DistinctIDs(c, gs.swaps) && DistinctSupplies(gs.supplies)
                 && (forall a | a in gs.params :: AssetFits(c, a))
                 && (forall w | w in gs.swaps :: SwapFits(c, now, w))
                 && (forall p | p in gs.supplies :: SupplyValid(c, p))
  {
    forall w | w in gs.swaps ensures SwapFits(c, now, w) <==> SwapValid(c, now, w) {
      SwapFitsExact(c, now, w);
    }
    forall a | a in gs.params ensures AssetFits(c, a) <==> ParamOk(c, a) {
    }
  }

  lemma LoopExact(c: Config, now: int, bank: Bank, gs: GenesisState)
    requires GenesisValid(c, now, gs)
    ensures ImportSwaps(Installed(c, gs), now, Empty(bank, gs), gs.swaps).Ok?
            <==> forall w | w in gs.swaps :: AssetActive(gs.params, w.amount[0].denom)
  {
    ImportSwapsExact(Installed(c, gs), now, Empty(bank, gs), gs.swaps);
    forall w | w in gs.swaps
      ensures Accepted(Installed(c, gs), now, w) <==> AssetActive(gs.params, w.amount[0].denom)
    {
      ActiveExact(c, gs, w.amount[0].denom);
    }
  }

  lemma RecordsExact(c: Config, now: int, bank: Bank, gs: GenesisState, acc: Import)
    requires GenesisValid(c, now, gs) && ImportSwaps(Installed(c, gs), now, Empty(bank, gs), gs.swaps) == Ok(acc)
    ensures CheckSupplies(Installed(c, gs), Ok(acc)).Ok? <==> forall p | p in gs.supplies :: RecordFits(c, gs, p)
  {
    ImportSwapsExact(Installed(c, gs), now, Empty(bank, gs), gs.swaps);
    ChecksListed(Installed(c, gs), gs, acc);
    forall p | p in gs.supplies
      ensures RecordFits(c, gs, p) <==> SupplyAccepted(Installed(c, gs), acc, p)
    {
      RecordFitsExact(c, gs, acc, p);
    }
  }

  /** Import at the start of a chain accepts a file exactly when it fits. */
  lemma AcceptedExact(c: Config, now: int, bank: Bank, gs: GenesisState)
    ensures InitGenesis(c, now, bank, gs).Ok? <==> FileFits(c, now, gs)
  {
    ValidExact(c, now, gs);
    if GenesisValid(c, now, gs) {
      LoopExact(c, now, bank, gs);
      var r := ImportSwaps(Installed(c, gs), now, Empty(bank, gs), gs.swaps);
      if r.Ok? {
        RecordsExact(c, now, bank, gs, r.value);
      }
    }
  }
}
