/** The per-denomination counters, their limits and the rate-limit window. */
module Supply {
  import opened Wrappers
  import opened Types

  type Supplies = map<Denom, AssetSupply>

  function GetSupply(supplies: Supplies, denom: Denom): Result<AssetSupply, Error> {
    if denom in supplies then Ok(supplies[denom]) else Err(AssetNotSupported)
  }

  function GetSupplyLimit(c: Config, denom: Denom): Result<SupplyLimit, Error> {
    match FindAsset(c.assets, denom)
    case None => Err(AssetNotSupported)
    case Some(asset) => Ok(asset.supplyLimit)
  }

  function IncrementCurrent(c: Config, supplies: Supplies, coin: Coin): Result<Supplies, Error> {
    var p :- GetSupply(supplies, coin.denom);
    var limit :- GetSupplyLimit(c, coin.denom);
    if limit.limit < p.current + coin.amount then Err(ExceedsSupplyLimit)
    else if limit.timeLimited && limit.timeBasedLimit < p.timeLimitedCurrent + coin.amount then Err(ExceedsTimeBasedSupplyLimit)
    else
      var windowed := if limit.timeLimited then p.timeLimitedCurrent + coin.amount else p.timeLimitedCurrent;
      Ok(supplies[coin.denom := p.(timeLimitedCurrent := windowed, current := p.current + coin.amount)])
  }

  function DecrementCurrent(supplies: Supplies, coin: Coin): Result<Supplies, Error> {
    var p :- GetSupply(supplies, coin.denom);
    if p.current - coin.amount < 0 then Err(InvalidCurrentSupply)
    else Ok(supplies[coin.denom := p.(current := p.current - coin.amount)])
  }

  function IncrementIncoming(c: Config, supplies: Supplies, coin: Coin): Result<Supplies, Error> {
    var p :- GetSupply(supplies, coin.denom);
    var limit :- GetSupplyLimit(c, coin.denom);
    if limit.limit < p.current + p.incoming + coin.amount then Err(ExceedsSupplyLimit)
    else if limit.timeLimited && limit.timeBasedLimit < p.timeLimitedCurrent + p.incoming + coin.amount then
      Err(ExceedsTimeBasedSupplyLimit)
    else Ok(supplies[coin.denom := p.(incoming := p.incoming + coin.amount)])
  }

  function DecrementIncoming(supplies: Supplies, coin: Coin): Result<Supplies, Error> {
    var p :- GetSupply(supplies, coin.denom);
    if p.incoming - coin.amount < 0 then Err(InvalidIncomingSupply)
    else Ok(supplies[coin.denom := p.(incoming := p.incoming - coin.amount)])
  }

  function IncrementOutgoing(supplies: Supplies, coin: Coin): Result<Supplies, Error> {
    var p :- GetSupply(supplies, coin.denom);
    if p.current < p.outgoing + coin.amount then Err(ExceedsAvailableSupply)
    else Ok(supplies[coin.denom := p.(outgoing := p.outgoing + coin.amount)])
  }

  function DecrementOutgoing(supplies: Supplies, coin: Coin): Result<Supplies, Error> {
    var p :- GetSupply(supplies, coin.denom);
    if p.outgoing - coin.amount < 0 then Err(InvalidOutgoingSupply)
    else Ok(supplies[coin.denom := p.(outgoing := p.outgoing - coin.amount)])
  }

  // ---------- Rate-limit window ----------

  function NewSupply(denom: Denom): AssetSupply {
    AssetSupply(denom, 0, 0, 0, 0, 0)
  }

  function SupplyOrNew(supplies: Supplies, denom: Denom): AssetSupply {
    if denom in supplies then supplies[denom] else NewSupply(denom)
  }

  /** The window of an asset stays open while the accumulated time is below its period. */
  predicate WindowOpen(asset: AssetParam, elapsed: int64, p: AssetSupply) {
    asset.supplyLimit.timeLimited && Wrap64(p.timeElapsed + elapsed) < asset.supplyLimit.timePeriod
  }

  function Roll(asset: AssetParam, elapsed: int64, p: AssetSupply): AssetSupply {
    if WindowOpen(asset, elapsed, p) then p.(timeElapsed := Wrap64(p.timeElapsed + elapsed))
    else p.(timeElapsed := 0, timeLimitedCurrent := 0)
  }

  function RollAll(assets: seq<AssetParam>, elapsed: int64, supplies: Supplies): Supplies {
    if assets == [] then supplies
    else
      var asset := assets[|assets| - 1];
      var before := RollAll(assets[..|assets| - 1], elapsed, supplies);
      before[asset.denom := Roll(asset, elapsed, SupplyOrNew(before, asset.denom))]
  }

  ghost predicate DistinctDenoms(assets: seq<AssetParam>) {
    forall i, j | 0 <= i < j < |assets| :: assets[i].denom != assets[j].denom
  }

  /** The loop over the assets rolls the window of each asset exactly once, creates the missing
      records, and touches no other denomination. */
  lemma {:induction false} RollAllExact(assets: seq<AssetParam>, elapsed: int64, supplies: Supplies, d: Denom)
    requires DistinctDenoms(assets)
    ensures d in RollAll(assets, elapsed, supplies) <==> d in supplies || FindAsset(assets, d).Some?
    ensures FindAsset(assets, d).Some? ==>
              RollAll(assets, elapsed, supplies)[d] == Roll(FindAsset(assets, d).value, elapsed, SupplyOrNew(supplies, d))
    ensures FindAsset(assets, d).None? && d in supplies ==> RollAll(assets, elapsed, supplies)[d] == supplies[d]
  {
    if assets != [] {
      var init, last := assets[..|assets| - 1], assets[|assets| - 1];
      assert assets == init + [last];
      RollAllExact(init, elapsed, supplies, d);
      FindLast(init, last, d);
      assert FindAsset(init, last.denom).None?;
      RollAllExact(init, elapsed, supplies, last.denom);
    }
  }

  lemma {:induction false} FindLast(init: seq<AssetParam>, last: AssetParam, d: Denom)
    ensures FindAsset(init + [last], d)
            == if FindAsset(init, d).Some? then FindAsset(init, d) else if last.denom == d then Some(last) else None
  {
    if init == [] {
      assert init + [last] == [last];
      assert [last][1..] == [];
    } else {
      assert (init + [last])[1..] == init[1..] + [last];
      FindLast(init[1..], last, d);
    }
  }
}
