/** Values the module stores and exchanges. */
module Types {
  import opened Wrappers
  import opened Bytes

  // ---------- Machine integers ----------

  const TWO63: int := 0x8000_0000_0000_0000
  const TWO64: int := 0x1_0000_0000_0000_0000

  type int64 = x: int | -TWO63 <= x < TWO63
  type uint64 = x: int | 0 <= x < TWO64

  /** Two's-complement wrap-around of a 64-bit signed result. */
  function Wrap64(x: int): (r: int64)
    ensures (x - r) % TWO64 == 0
  {
    var m := x % TWO64;
    if m >= TWO63 then m - TWO64 else m
  }

  /** The conversion uint64(x). */
  function ToUint64(x: int64): (r: uint64)
    ensures Wrap64(r) == x
  {
    if x < 0 then x + TWO64 else x
  }

  lemma Wrap64Cases(x: int)
    ensures -TWO63 <= x < TWO63 ==> Wrap64(x) == x
    ensures x >= TWO63 ==> Wrap64(x) <= x - TWO64
  {
    if x >= TWO63 {
      var m := x % TWO64;
      assert x == (x / TWO64) * TWO64 + m;
    }
  }

  // ---------- Time ----------

  const SECOND: int := 1_000_000_000
  const MINUTE: int := 60 * SECOND
  const HOUR: int := 60 * MINUTE

  /** An instant in nanoseconds since the Unix epoch, within years 1 to 9999. */
  type Time = t: int | -62135596800 * SECOND <= t < 253402300800 * SECOND

  /** Time.Unix(): whole seconds, rounded towards the past. */
  function Unix(t: int): (r: int)
    ensures r * SECOND <= t < (r + 1) * SECOND
  {
    t / SECOND
  }

  /** Time.Sub saturates at the range of a duration. */
  function Sub(t: Time, u: Time): int64 {
    if t - u >= TWO63 then TWO63 - 1
    else if t - u < -TWO63 then -TWO63
    else t - u
  }

  // ---------- Coins, swaps, supplies ----------

  type Denom = Bytes
  type Address = Bytes
  type SwapID = Bytes

  datatype Coin = Coin(denom: Denom, amount: int)

  type SwapStatus = byte
  const NULL: SwapStatus := 0
  const OPEN: SwapStatus := 1
  const COMPLETED: SwapStatus := 2
  const EXPIRED: SwapStatus := 3

  type SwapDirection = byte
  const INVALID: SwapDirection := 0
  const INCOMING: SwapDirection := 1
  const OUTGOING: SwapDirection := 2

  datatype AtomicSwap = AtomicSwap(
    amount: seq<Coin>,
    randomNumberHash: Bytes,
    expireTimestamp: int64,
    timestamp: int64,
    sender: Address,
    recipient: Address,
    senderOtherChain: Bytes,
    recipientOtherChain: Bytes,
    closedBlock: int64,
    status: SwapStatus,
    crossChain: bool,
    direction: SwapDirection)

  datatype AssetSupply = AssetSupply(
    denom: Denom,
    incoming: int,
    outgoing: int,
    current: int,
    timeLimitedCurrent: int,
    timeElapsed: int64)

  // ---------- Parameters ----------

  datatype SupplyLimit = SupplyLimit(limit: int, timeLimited: bool, timePeriod: int64, timeBasedLimit: int)

  datatype AssetParam = AssetParam(
    denom: Denom,
    coinID: int64,
    supplyLimit: SupplyLimit,
    active: bool,
    deputyAddress: Address,
    fixedFee: int,
    minSwapAmount: int,
    maxSwapAmount: int,
    swapTimeSpanMin: int64)

  /** What stays fixed during a run: the hash function, the denomination grammar, the asset
      parameters and the module accounts. */
  datatype Config = Config(
    hash: Bytes -> Bytes,
    validDenom: Denom -> bool,
    assets: seq<AssetParam>,
    moduleAddress: Address,
    moduleAccounts: set<Address>)

  function FindAsset(assets: seq<AssetParam>, denom: Denom): (r: Option<AssetParam>)
    ensures r.Some? ==> r.value in assets && r.value.denom == denom
    ensures r.None? ==> forall a | a in assets :: a.denom != denom
  {
    if assets == [] then None
    else if denom == assets[0].denom then Some(assets[0])
    else FindAsset(assets[1..], denom)
  }

  // ---------- Errors ----------

  datatype Error =
    | AtomicSwapAlreadyExists
    | Unauthorized
    | NotSingleCoin
    | AssetNotSupported
    | AssetNotActive
    | InvalidAmount
    | InvalidTimestamp
    | InvalidSwapAccount
    | InvalidTimeSpan
    | InsufficientAmount
    | ExceedsSupplyLimit
    | ExceedsTimeBasedSupplyLimit
    | ExceedsAvailableSupply
    | InvalidCurrentSupply
    | InvalidIncomingSupply
    | InvalidOutgoingSupply
    | InsufficientFunds
    | AtomicSwapNotFound
    | SwapNotClaimable
    | SwapNotRefundable
    | InvalidClaimSecret
    | InvalidSwapDirection
    | InvalidParams
    | InvalidGenesis
    | Panicked
}
