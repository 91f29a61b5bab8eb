/** The swap keeper as a transition system: the state and one function per operation. */
module Machine {
  import opened Wrappers
  import opened Bytes
  import opened Types
  import opened Keys
  import opened Hashes
  import opened Banking
  import opened Supply

  const THREE_DAY_MINUTES: int := 60 * 24 * 3

  datatype State = State(
    swaps: map<SwapID, AtomicSwap>,
    byTimestamp: map<Bytes, SwapID>,
    longterm: map<Bytes, SwapID>,
    supplies: Supplies,
    prevBlockTime: Option<Time>,
    bank: Bank)

  datatype Context = Context(time: Time, height: int64)

  datatype CreateMsg = CreateMsg(
    randomNumberHash: Bytes,
    timestamp: int64,
    timeSpanMin: int64,
    sender: Address,
    recipient: Address,
    senderOtherChain: Bytes,
    recipientOtherChain: Bytes,
    amount: seq<Coin>,
    crossChain: bool)

  // ---------- Create ----------

  function TimestampInRange(ctx: Context, timestamp: int64): bool {
    Unix(ctx.time - 15 * MINUTE) <= timestamp < Unix(ctx.time + 30 * MINUTE)
  }

  function Direct(asset: AssetParam, m: CreateMsg): Result<SwapDirection, Error> {
    if m.sender == asset.deputyAddress then
      if m.recipient == asset.deputyAddress then Err(InvalidSwapAccount) else Ok(INCOMING)
    else
      if m.recipient != asset.deputyAddress then Err(InvalidSwapAccount) else Ok(OUTGOING)
  }

  /** The expiry of a swap; the product of the span and a minute is a 64-bit duration. */
  function ExpireTime(time: Time, spanMin: int64): int64 {
    Unix(time + Wrap64(spanMin * MINUTE))
  }

  function NewSwap(ctx: Context, m: CreateMsg, direction: SwapDirection): AtomicSwap {
    AtomicSwap(m.amount, m.randomNumberHash, ExpireTime(ctx.time, m.timeSpanMin), m.timestamp, m.sender, m.recipient,
               m.senderOtherChain, m.recipientOtherChain, 0, OPEN, m.crossChain, direction)
  }

  /** The guards that precede any write; yields the asset and the direction. */
  function CheckCreate(c: Config, ctx: Context, s: State, m: CreateMsg): Result<(AssetParam, SwapDirection), Error> {
    if CalculateSwapID(c.hash, m.randomNumberHash, m.sender, m.senderOtherChain) in s.swaps then Err(AtomicSwapAlreadyExists)
    else if m.recipient in c.moduleAccounts then Err(Unauthorized)
    else if |m.amount| != 1 then Err(NotSingleCoin)
    else
      match FindAsset(c.assets, m.amount[0].denom)
      case None => Err(AssetNotSupported)
      case Some(asset) =>
        if !asset.active then Err(AssetNotActive)
        else if m.amount[0].amount < asset.minSwapAmount || m.amount[0].amount > asset.maxSwapAmount then Err(InvalidAmount)
        else if !TimestampInRange(ctx, m.timestamp) then Err(InvalidTimestamp)
        else
          var direction :- Direct(asset, m);
          Ok((asset, direction))
  }

  function Create(c: Config, ctx: Context, s: State, m: CreateMsg): Result<State, Error> {
    var (asset, direction) :- CheckCreate(c, ctx, s, m);
    var coin := m.amount[0];
    if direction == INCOMING then
      var supplies :- IncrementIncoming(c, s.supplies, coin);
      Ok(Store(c, s.(supplies := supplies), NewSwap(ctx, m, INCOMING)))
    else if m.timeSpanMin < 1 || m.timeSpanMin > THREE_DAY_MINUTES then Err(InvalidTimeSpan)
    else if coin.amount <= asset.fixedFee + asset.minSwapAmount then Err(InsufficientAmount)
    else
      var supplies :- IncrementOutgoing(s.supplies, coin);
      var bank :- Send(s.bank, m.sender, c.moduleAddress, m.amount);
      Ok(Store(c, s.(supplies := supplies, bank := bank), NewSwap(ctx, m, OUTGOING)))
  }

  /** Insert an open swap under its identifier and into the expiry index. */
  function Store(c: Config, s: State, swap: AtomicSwap): State {
    var id := GetSwapID(c.hash, swap);
    s.(swaps := s.swaps[id := swap],
       byTimestamp := s.byTimestamp[ByTimestampKey(swap.expireTimestamp, id) := id])
  }

  // ---------- Claim and refund ----------

  function Close(swap: AtomicSwap, ctx: Context): AtomicSwap {
    swap.(status := COMPLETED, closedBlock := ctx.height)
  }

  /** Replace a swap by its closed form and schedule the deletion. */
  function StoreClosed(c: Config, s: State, swap: AtomicSwap): State {
    var id := GetSwapID(c.hash, swap);
    s.(swaps := s.swaps[id := swap],
       longterm := s.longterm[ByHeightKey(DeletionHeight(swap.closedBlock), id) := id])
  }

  function Claim(c: Config, ctx: Context, s: State, id: SwapID, number: Bytes): Result<State, Error> {
    if id !in s.swaps then Err(AtomicSwapNotFound)
    else
      var swap := s.swaps[id];
      if swap.status != OPEN then Err(SwapNotClaimable)
      else if !SecretUnlocks(c.hash, swap, number) then Err(InvalidClaimSecret)
      else
        var paid :- PayClaim(c, s, swap);
        var key := ByTimestampKey(swap.expireTimestamp, GetSwapID(c.hash, swap));
        Ok(StoreClosed(c, paid.(byTimestamp := paid.byTimestamp - {key}), Close(swap, ctx)))
  }

  /** Incoming coins are minted to the recipient, outgoing coins are burned from the escrow. */
  function PayClaim(c: Config, s: State, swap: AtomicSwap): Result<State, Error> {
    if swap.direction != INCOMING && swap.direction != OUTGOING then Err(InvalidSwapDirection)
    else if |swap.amount| == 0 then Err(Panicked)
    else if swap.direction == INCOMING then
      var decremented :- DecrementIncoming(s.supplies, swap.amount[0]);
      var supplies :- IncrementCurrent(c, decremented, swap.amount[0]);
      var bank :- Send(Mint(s.bank, c.moduleAddress, swap.amount), c.moduleAddress, swap.recipient, swap.amount);
      Ok(s.(supplies := supplies, bank := bank))
    else
      var decremented :- DecrementOutgoing(s.supplies, swap.amount[0]);
      var supplies :- DecrementCurrent(decremented, swap.amount[0]);
      var bank :- Burn(s.bank, c.moduleAddress, swap.amount);
      Ok(s.(supplies := supplies, bank := bank))
  }

  function Refund(c: Config, ctx: Context, s: State, id: SwapID): Result<State, Error> {
    if id !in s.swaps then Err(AtomicSwapNotFound)
    else
      var swap := s.swaps[id];
      if swap.status != EXPIRED then Err(SwapNotRefundable)
      else
        var paid :- PayRefund(c, s, swap);
        Ok(StoreClosed(c, paid, Close(swap, ctx)))
  }

  /** Only outgoing swaps hold coins in escrow. */
  function PayRefund(c: Config, s: State, swap: AtomicSwap): Result<State, Error> {
    if swap.direction != INCOMING && swap.direction != OUTGOING then Err(InvalidSwapDirection)
    else if |swap.amount| == 0 then Err(Panicked)
    else if swap.direction == INCOMING then
      var supplies :- DecrementIncoming(s.supplies, swap.amount[0]);
      Ok(s.(supplies := supplies))
    else
      var supplies :- DecrementOutgoing(s.supplies, swap.amount[0]);
      var bank :- Send(s.bank, c.moduleAddress, swap.sender, swap.amount);
      Ok(s.(supplies := supplies, bank := bank))
  }

  // ---------- Begin block ----------

  function RollWindows(c: Config, ctx: Context, s: State): State {
    if c.assets == [] then s
    else
      var prev := if s.prevBlockTime.Some? then s.prevBlockTime.value else ctx.time;
      s.(supplies := RollAll(c.assets, Sub(ctx.time, prev), s.supplies), prevBlockTime := Some(ctx.time))
  }

  function ExpireOne(c: Config, s: State, id: SwapID): State {
    if id !in s.swaps then s
    else
      var swap := s.swaps[id].(status := EXPIRED);
      var own := GetSwapID(c.hash, swap);
      s.(byTimestamp := s.byTimestamp - {ByTimestampKey(swap.expireTimestamp, own)}, swaps := s.swaps[own := swap])
  }

  function ExpireAll(c: Config, s: State, ids: seq<SwapID>): State {
    if ids == [] then s else ExpireOne(c, ExpireAll(c, s, ids[..|ids| - 1]), ids[|ids| - 1])
  }

  function ExpiryCutoff(ctx: Context): Option<Bytes> {
    PrefixEnd(HeightKey(TimestampRank(Unix(ctx.time))))
  }

  function UpdateExpired(c: Config, ctx: Context, s: State): State {
    ExpireAll(c, s, Scan(s.byTimestamp, ExpiryCutoff(ctx)))
  }

  function DeleteOne(c: Config, s: State, id: SwapID): State {
    if id !in s.swaps then s
    else
      var own := GetSwapID(c.hash, s.swaps[id]);
      var key := ByHeightKey(DeletionHeight(s.swaps[id].closedBlock), own);
      s.(swaps := s.swaps - {own}, longterm := s.longterm - {key})
  }

  function DeleteAll(c: Config, s: State, ids: seq<SwapID>): State {
    if ids == [] then s else DeleteOne(c, DeleteAll(c, s, ids[..|ids| - 1]), ids[|ids| - 1])
  }

  function DeletionCutoff(ctx: Context): Option<Bytes> {
    PrefixEnd(HeightKey(ToUint64(ctx.height)))
  }

  function DeleteClosed(c: Config, ctx: Context, s: State): State {
    DeleteAll(c, s, Scan(s.longterm, DeletionCutoff(ctx)))
  }

  function BeginBlock(c: Config, ctx: Context, s: State): State {
    DeleteClosed(c, ctx, UpdateExpired(c, ctx, RollWindows(c, ctx, s)))
  }

  // ---------- Transactions ----------

  /** A module message, or a bank transfer that the module does not see. */
  datatype Tx =
    | CreateTx(msg: CreateMsg)
    | ClaimTx(id: SwapID, number: Bytes)
    | RefundTx(id: SwapID)
    | TransferTx(from: Address, to: Address, coins: seq<Coin>)

  function Handle(c: Config, ctx: Context, s: State, tx: Tx): Result<State, Error> {
    match tx
    case CreateTx(m) => Create(c, ctx, s, m)
    case ClaimTx(id, number) => Claim(c, ctx, s, id, number)
    case RefundTx(id) => Refund(c, ctx, s, id)
    case TransferTx(from, to, coins) =>
      var bank :- Send(s.bank, from, to, coins);
      Ok(s.(bank := bank))
  }

  /** The transaction layer discards the writes of a failed handler. */
  function Deliver(c: Config, ctx: Context, s: State, tx: Tx): State {
    var r := Handle(c, ctx, s, tx);
    if r.Ok? then r.value else s
  }
}
