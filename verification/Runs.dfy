/** Whole runs: blocks and messages in any order, with fixed parameters. */
module Runs {
  import opened Bytes
  import opened Types
  import opened Hashes
  import opened Banking
  import opened Supply
  import opened Machine
  import opened Sums
  import opened Invariants
  import opened Blocks

  datatype Event = Block(ctx: Context) | Message(tx: Tx)

  /** A state together with the block it is in. */
  datatype Chain = Chain(state: State, ctx: Context)

  function Step(c: Config, ch: Chain, e: Event): Chain {
    match e
    case Block(ctx) => Chain(BeginBlock(c, ctx, ch.state), ctx)
    case Message(tx) => Chain(Deliver(c, ch.ctx, ch.state, tx), ch.ctx)
  }

  /** Block time never goes back; messages have passed their stateless checks. */
  ghost predicate EventOk(c: Config, ch: Chain, e: Event) {
    match e
    case Block(ctx) => ch.ctx.time <= ctx.time
    case Message(tx) => TxOk(c, tx)
  }

  function Run(c: Config, ch: Chain, es: seq<Event>): Chain {
    if es == [] then ch else Step(c, Run(c, ch, es[..|es| - 1]), es[|es| - 1])
  }

  ghost predicate RunOk(c: Config, ch: Chain, es: seq<Event>) {
    es == [] || (RunOk(c, ch, es[..|es| - 1]) && EventOk(c, Run(c, ch, es[..|es| - 1]), es[|es| - 1]))
  }

  /** The invariants hold in every reachable state. */
  lemma {:induction false} RunKeepsInv(c: Config, ch: Chain, es: seq<Event>)
    requires ParamsOk(c) && Inv(c, ch.state) && RunOk(c, ch, es)
    ensures Inv(c, Run(c, ch, es).state)
  {
    if es != [] {
      var before, e := Run(c, ch, es[..|es| - 1]), es[|es| - 1];
      RunKeepsInv(c, ch, es[..|es| - 1]);
      StepKeepsInv(c, before, e);
    }
  }

  lemma StepKeepsInv(c: Config, ch: Chain, e: Event)
    requires ParamsOk(c) && Inv(c, ch.state) && EventOk(c, ch, e)
    ensures Inv(c, Step(c, ch, e).state)
  {
    match e
    case Block(ctx) => BeginBlockDone(c, ctx, ch.state);
    case Message(tx) => DeliverKeepsInv(c, ch.ctx, ch.state, tx);
  }

  // ---------- What happened in a run ----------

  predicate Succeeds(c: Config, ch: Chain, e: Event) {
    e.Message? && Handle(c, ch.ctx, ch.state, e.tx).Ok?
  }

  /** The amount a claim paid out, seen from one direction and denomination. */
  function ClaimAmount(c: Config, ch: Chain, e: Event, dir: SwapDirection, d: Denom): int {
    if Succeeds(c, ch, e) then PaidOut(ch.state, e.tx, dir, d) else 0
  }

  /** The log of all claims of a run. */
  function ClaimTotal(c: Config, ch: Chain, es: seq<Event>, dir: SwapDirection, d: Denom): int {
    if es == [] then 0
    else ClaimTotal(c, ch, es[..|es| - 1], dir, d) + ClaimAmount(c, Run(c, ch, es[..|es| - 1]), es[|es| - 1], dir, d)
  }

  function Peg(s: State, d: Denom): int {
    Total(s.bank, d) - SupplyOrNew(s.supplies, d).current
  }

  function FreeEscrow(c: Config, s: State, d: Denom): int {
    Balance(s.bank, c.moduleAddress, d) - SupplyOrNew(s.supplies, d).outgoing
  }

  predicate TimeLimited(c: Config, d: Denom) {
    FindAsset(c.assets, d).Some? && FindAsset(c.assets, d).value.supplyLimit.timeLimited
  }

  /** How one message moves the accounts of one denomination. */
  ghost predicate Accounted(c: Config, s: State, s': State, d: Denom, inward: int, outward: int) {
    var p, p' := SupplyOrNew(s.supplies, d), SupplyOrNew(s'.supplies, d);
    && p'.current == p.current + inward - outward
    && p'.timeLimitedCurrent == p.timeLimitedCurrent + (if TimeLimited(c, d) then inward else 0)
    && p'.timeElapsed == p.timeElapsed
    && Total(s'.bank, d) == Total(s.bank, d) + inward - outward
    && FreeEscrow(c, s', d) == FreeEscrow(c, s, d)
    && s'.prevBlockTime == s.prevBlockTime
  }

  function PaidOut(s: State, tx: Tx, dir: SwapDirection, d: Denom): int {
    if tx.ClaimTx? && tx.id in s.swaps && s.swaps[tx.id].direction == dir
       && |s.swaps[tx.id].amount| == 1 && s.swaps[tx.id].amount[0].denom == d
    then s.swaps[tx.id].amount[0].amount else 0
  }

  lemma CreatedAccounts(c: Config, ctx: Context, s: State, m: CreateMsg, s': State, d: Denom)
    requires Created(c, ctx, s, m, s') && m.sender != c.moduleAddress
    ensures Accounted(c, s, s', d, 0, 0)
  {
  }

  lemma ClaimedAccounts(c: Config, ctx: Context, s: State, id: SwapID, number: Bytes, s': State, d: Denom)
    requires Claimed(c, ctx, s, id, s') && SwapOk(c, s.supplies, s.swaps[id])
    ensures Accounted(c, s, s', d, PaidOut(s, ClaimTx(id, number), INCOMING, d), PaidOut(s, ClaimTx(id, number), OUTGOING, d))
  {
  }

  lemma RefundedAccounts(c: Config, ctx: Context, s: State, id: SwapID, s': State, d: Denom)
    requires Refunded(c, ctx, s, id, s') && SwapOk(c, s.supplies, s.swaps[id])
    ensures Accounted(c, s, s', d, 0, 0)
  {
  }

  lemma TransferredAccounts(c: Config, s: State, from: Address, to: Address, coins: seq<Coin>, s': State, d: Denom)
    requires Transferred(c, s, from, to, coins, s') && from != c.moduleAddress && to != c.moduleAddress
    ensures Accounted(c, s, s', d, 0, 0)
  {
  }

  lemma EffectAccounts(c: Config, ctx: Context, s: State, tx: Tx, s': State, d: Denom)
    requires Effect(c, ctx, s, tx, s') && TxOk(c, tx)
    ensures Accounted(c, s, s', d, PaidOut(s, tx, INCOMING, d), PaidOut(s, tx, OUTGOING, d))
  {
    match tx
    case CreateTx(m) => CreatedAccounts(c, ctx, s, m, s', d);
    case ClaimTx(id, number) => ClaimedAccounts(c, ctx, s, id, number, s', d);
    case RefundTx(id) => RefundedAccounts(c, ctx, s, id, s', d);
    case TransferTx(from, to, coins) => TransferredAccounts(c, s, from, to, coins, s', d);
  }

  lemma MessageAccounts(c: Config, ch: Chain, tx: Tx, d: Denom)
    requires Inv(c, ch.state) && TxOk(c, tx)
    ensures Accounted(c, ch.state, Deliver(c, ch.ctx, ch.state, tx), d,
                      ClaimAmount(c, ch, Message(tx), INCOMING, d), ClaimAmount(c, ch, Message(tx), OUTGOING, d))
  {
    var r := Handle(c, ch.ctx, ch.state, tx);
    if r.Ok? {
      HandleEffect(c, ch.ctx, ch.state, tx);
      EffectAccounts(c, ch.ctx, ch.state, tx, r.value, d);
    }
  }

  /** The peg is kept and the current supply moves by what was claimed. */
  ghost predicate PegMoves(s: State, s': State, d: Denom, inward: int, outward: int) {
    && Peg(s', d) == Peg(s, d)
    && SupplyOrNew(s'.supplies, d).current == SupplyOrNew(s.supplies, d).current + inward - outward
  }

  lemma BlockAccounts(c: Config, ctx: Context, s: State, s': State, d: Denom)
    requires BlockDone(c, ctx, s, s')
    ensures PegMoves(s, s', d, 0, 0) && FreeEscrow(c, s', d) == FreeEscrow(c, s, d)
  {
  }

  lemma StepAccounts(c: Config, ch: Chain, e: Event, d: Denom)
    requires ParamsOk(c) && Inv(c, ch.state) && EventOk(c, ch, e)
    ensures PegMoves(ch.state, Step(c, ch, e).state, d, ClaimAmount(c, ch, e, INCOMING, d), ClaimAmount(c, ch, e, OUTGOING, d))
    ensures FreeEscrow(c, Step(c, ch, e).state, d) == FreeEscrow(c, ch.state, d)
  {
    match e
    case Block(ctx) =>
      BeginBlockDone(c, ctx, ch.state);
      BlockAccounts(c, ctx, ch.state, BeginBlock(c, ctx, ch.state), d);
    case Message(tx) =>
      MessageAccounts(c, ch, tx, d);
  }

  lemma PegMovesTwice(s: State, s1: State, s2: State, d: Denom, in1: int, out1: int, in2: int, out2: int, inward: int, outward: int)
    requires PegMoves(s, s1, d, in1, out1) && PegMoves(s1, s2, d, in2, out2)
    requires inward == in1 + in2 && outward == out1 + out2
    ensures PegMoves(s, s2, d, inward, outward)
  {
  }

  /** Peg conservation: total supply and current supply never drift apart, and the current supply is
      what incoming claims released minus what outgoing claims took back. */
  lemma {:induction false} PegConservation(c: Config, ch: Chain, es: seq<Event>, d: Denom)
    requires ParamsOk(c) && Inv(c, ch.state) && RunOk(c, ch, es)
    ensures PegMoves(ch.state, Run(c, ch, es).state, d, ClaimTotal(c, ch, es, INCOMING, d), ClaimTotal(c, ch, es, OUTGOING, d))
  {
    if es != [] {
      var init, e := es[..|es| - 1], es[|es| - 1];
      var mid := Run(c, ch, init);
      PegConservation(c, ch, init, d);
      RunKeepsInv(c, ch, init);
      StepAccounts(c, mid, e, d);
      PegMovesTwice(ch.state, mid.state, Run(c, ch, es).state, d,
                    ClaimTotal(c, ch, init, INCOMING, d), ClaimTotal(c, ch, init, OUTGOING, d),
                    ClaimAmount(c, mid, e, INCOMING, d), ClaimAmount(c, mid, e, OUTGOING, d),
                    ClaimTotal(c, ch, es, INCOMING, d), ClaimTotal(c, ch, es, OUTGOING, d));
    }
  }

  /** Escrow conservation: the module account's balance beyond the unresolved outgoing swaps is the
      same at the end of a run as at its start. */
  lemma {:induction false} EscrowConservation(c: Config, ch: Chain, es: seq<Event>, d: Denom)
    requires ParamsOk(c) && Inv(c, ch.state) && RunOk(c, ch, es)
    ensures FreeEscrow(c, Run(c, ch, es).state, d) == FreeEscrow(c, ch.state, d)
  {
    if es != [] {
      var init, e := es[..|es| - 1], es[|es| - 1];
      EscrowConservation(c, ch, init, d);
      RunKeepsInv(c, ch, init);
      StepAccounts(c, Run(c, ch, init), e, d);
    }
  }

  /** The counters and the escrow at any point of a run, against the swaps themselves. */
  lemma CountersMatchSwaps(c: Config, ch: Chain, es: seq<Event>, d: Denom)
    requires ParamsOk(c) && Inv(c, ch.state) && RunOk(c, ch, es) && d in Run(c, ch, es).state.supplies
    ensures var s := Run(c, ch, es).state;
            && s.supplies[d].incoming == SumLive(s.swaps, INCOMING, d)
            && s.supplies[d].outgoing == SumLive(s.swaps, OUTGOING, d)
            && SumLive(s.swaps, OUTGOING, d) <= Balance(s.bank, c.moduleAddress, d)
            && SumLive(s.swaps, OUTGOING, d) <= s.supplies[d].current
  {
    RunKeepsInv(c, ch, es);
    assert SupplyOk(c, Run(c, ch, es).state, d);
  }

  // ---------- One payout per life ----------

  function LiveCount(s: State, id: SwapID): nat {
    if id in s.swaps && IsLive(s.swaps[id]) then 1 else 0
  }

  function CreatesSwap(c: Config, tx: Tx, id: SwapID): nat {
    if tx.CreateTx? && CalculateSwapID(c.hash, tx.msg.randomNumberHash, tx.msg.sender, tx.msg.senderOtherChain) == id then 1 else 0
  }

  function PaysOut(tx: Tx, id: SwapID): nat {
    if (tx.ClaimTx? && tx.id == id) || (tx.RefundTx? && tx.id == id) then 1 else 0
  }

  function IsCreate(c: Config, ch: Chain, e: Event, id: SwapID): nat {
    if Succeeds(c, ch, e) then CreatesSwap(c, e.tx, id) else 0
  }

  function IsPayout(c: Config, ch: Chain, e: Event, id: SwapID): nat {
    if Succeeds(c, ch, e) then PaysOut(e.tx, id) else 0
  }

  function Creates(c: Config, ch: Chain, es: seq<Event>, id: SwapID): nat {
    if es == [] then 0
    else Creates(c, ch, es[..|es| - 1], id) + IsCreate(c, Run(c, ch, es[..|es| - 1]), es[|es| - 1], id)
  }

  /** Successful claims and refunds of one identifier. */
  function Payouts(c: Config, ch: Chain, es: seq<Event>, id: SwapID): nat {
    if es == [] then 0
    else Payouts(c, ch, es[..|es| - 1], id) + IsPayout(c, Run(c, ch, es[..|es| - 1]), es[|es| - 1], id)
  }

  lemma EffectLife(c: Config, ctx: Context, s: State, tx: Tx, s': State, id: SwapID)
    requires Effect(c, ctx, s, tx, s')
    ensures LiveCount(s', id) + PaysOut(tx, id) == LiveCount(s, id) + CreatesSwap(c, tx, id)
  {
  }

  lemma BlockLife(c: Config, ctx: Context, s: State, s': State, id: SwapID)
    requires BlockDone(c, ctx, s, s')
    ensures LiveCount(s', id) == LiveCount(s, id)
  {
  }

  lemma StepLife(c: Config, ch: Chain, e: Event, id: SwapID)
    requires ParamsOk(c) && Inv(c, ch.state) && EventOk(c, ch, e)
    ensures LiveCount(Step(c, ch, e).state, id) + IsPayout(c, ch, e, id) == LiveCount(ch.state, id) + IsCreate(c, ch, e, id)
  {
    match e
    case Block(ctx) =>
      BeginBlockDone(c, ctx, ch.state);
      BlockLife(c, ctx, ch.state, BeginBlock(c, ctx, ch.state), id);
    case Message(tx) =>
      var r := Handle(c, ch.ctx, ch.state, tx);
      if r.Ok? {
        HandleEffect(c, ch.ctx, ch.state, tx);
        EffectLife(c, ch.ctx, ch.state, tx, r.value, id);
      }
  }

  /** Single payout: every creation of a swap is matched by exactly one payout or the swap is still
      unresolved; a payout is a claim or a refund, so no life sees both. */
  lemma {:induction false} SinglePayout(c: Config, ch: Chain, es: seq<Event>, id: SwapID)
    requires ParamsOk(c) && Inv(c, ch.state) && RunOk(c, ch, es)
    ensures LiveCount(Run(c, ch, es).state, id) + Payouts(c, ch, es, id) == LiveCount(ch.state, id) + Creates(c, ch, es, id)
    ensures Creates(c, ch, es, id) == 0 ==> Payouts(c, ch, es, id) <= 1
  {
    if es != [] {
      var init := es[..|es| - 1];
      SinglePayout(c, ch, init, id);
      RunKeepsInv(c, ch, init);
      StepLife(c, Run(c, ch, init), es[|es| - 1], id);
    }
  }

  // ---------- Disjoint windows ----------

  /** The longest span, in minutes, whose duration in nanoseconds is a 64-bit integer. */
  const MAX_SPAN_MIN: int := 153_722_867

  /** The expiry is the block time plus the span exactly when the span fits a duration. */
  lemma ExpireTimeExact(time: Time, spanMin: int64)
    requires spanMin > 0
    ensures ExpireTime(time, spanMin) == Unix(time) + 60 * spanMin <==> spanMin <= MAX_SPAN_MIN
  {
    Wrap64Cases(spanMin * MINUTE);
  }

  /** One minute more, which the stateless checks admit and no keeper check rejects on an incoming
      swap, wraps around: the swap is stored open and already expired. */
  lemma OverlongSpanIsBornExpired(c: Config, ctx: Context, s: State, m: CreateMsg)
    requires m.timeSpanMin == MAX_SPAN_MIN + 1 && Create(c, ctx, s, m).Ok?
    ensures var s', id := Create(c, ctx, s, m).value, CalculateSwapID(c.hash, m.randomNumberHash, m.sender, m.senderOtherChain);
            id in s'.swaps && s'.swaps[id].direction == INCOMING && Due(s'.swaps[id], Unix(ctx.time))
  {
    CreateEffect(c, ctx, s, m);
    assert Wrap64(m.timeSpanMin * MINUTE) < -SECOND;
  }

  /** Open swaps expire later than now, expired ones not later. */
  ghost predicate WindowsOk(ch: Chain) {
    forall id | id in ch.state.swaps :: InWindow(ch.state.swaps[id], Unix(ch.ctx.time))
  }

  predicate InWindow(swap: AtomicSwap, now: int) {
    && (swap.status == OPEN ==> now < swap.expireTimestamp)
    && (swap.status == EXPIRED ==> swap.expireTimestamp <= now)
  }

  /** A swap that has expired did so at or before `now`. */
  predicate ExpiredBy(s: State, id: SwapID, now: int) {
    id in s.swaps && s.swaps[id].status == EXPIRED ==> s.swaps[id].expireTimestamp <= now
  }

  ghost predicate SwapInWindow(ch: Chain, id: SwapID) {
    id in ch.state.swaps ==> InWindow(ch.state.swaps[id], Unix(ch.ctx.time))
  }

  lemma AgedInWindow(c: Config, ctx: Context, s: State, s': State, id: SwapID)
    requires BlockDone(c, ctx, s, s')
    ensures (id in s'.swaps ==> InWindow(s'.swaps[id], Unix(ctx.time))) <==> ExpiredBy(s, id, Unix(ctx.time))
  {
    if id in s'.swaps {
      assert s'.swaps[id] == Aged(s.swaps[id], Unix(ctx.time));
    }
  }

  lemma BlockWindows(c: Config, ctx: Context, s: State, after: Chain)
    requires BlockDone(c, ctx, s, after.state) && after.ctx == ctx
    ensures WindowsOk(after) <==> forall id :: ExpiredBy(s, id, Unix(ctx.time))
  {
    forall id: SwapID ensures SwapInWindow(after, id) <==> ExpiredBy(s, id, Unix(ctx.time)) {
      AgedInWindow(c, ctx, s, after.state, id);
    }
    WindowsOfAll(after);
  }

  /** Begin block opens the windows, whatever was open before, exactly when no swap had expired ahead of
      its time. Only an import can bring such a swap in. */
  lemma BlockOpensWindows(c: Config, ch: Chain, ctx: Context)
    requires ParamsOk(c) && Inv(c, ch.state)
    ensures WindowsOk(Step(c, ch, Block(ctx))) <==> forall id :: ExpiredBy(ch.state, id, Unix(ctx.time))
  {
    BeginBlockDone(c, ctx, ch.state);
    BlockWindows(c, ctx, ch.state, Step(c, ch, Block(ctx)));
  }

  lemma WindowsOfAll(ch: Chain)
    ensures WindowsOk(ch) <==> forall id :: SwapInWindow(ch, id)
  {
    if WindowsOk(ch) {
      forall id ensures SwapInWindow(ch, id) {
      }
    } else {
      var id :| id in ch.state.swaps && !InWindow(ch.state.swaps[id], Unix(ch.ctx.time));
      assert !SwapInWindow(ch, id);
    }
  }

  /** The expiry of a new swap lies ahead: what decides whether it is born with an open window. */
  predicate BornAhead(ctx: Context, m: CreateMsg) {
    Unix(ctx.time) < ExpireTime(ctx.time, m.timeSpanMin)
  }

  lemma FittingSpanIsBornAhead(ctx: Context, m: CreateMsg)
    requires 0 < m.timeSpanMin <= MAX_SPAN_MIN
    ensures BornAhead(ctx, m)
  {
    ExpireTimeExact(ctx.time, m.timeSpanMin);
  }

  /** A create keeps the windows exactly when its own expiry lies ahead. */
  lemma CreateKeepsWindowsExact(c: Config, ch: Chain, m: CreateMsg)
    requires WindowsOk(ch) && Create(c, ch.ctx, ch.state, m).Ok?
    ensures WindowsOk(Step(c, ch, Message(CreateTx(m)))) <==> BornAhead(ch.ctx, m)
  {
    CreateEffect(c, ch.ctx, ch.state, m);
    var s' := Create(c, ch.ctx, ch.state, m).value;
    var swap := NewSwap(ch.ctx, m, DirectionOf(c, m));
    var id := GetSwapID(c.hash, swap);
    assert id in s'.swaps && s'.swaps[id] == swap;
  }

  /** What happened to `id` since the last block decides its window: begin block puts an open swap right,
      its own creation may not, and nothing else matters. */
  ghost predicate Ahead(c: Config, ch: Chain, es: seq<Event>, id: SwapID) {
    if es == [] then SwapInWindow(ch, id)
    else
      var before, e := Run(c, ch, es[..|es| - 1]), es[|es| - 1];
      if e.Block? then ExpiredBy(before.state, id, Unix(e.ctx.time))
      else if IsCreate(c, before, e, id) == 1 then BornAhead(before.ctx, e.tx.msg)
      else Ahead(c, ch, es[..|es| - 1], id)
  }

  lemma EffectOnOthers(c: Config, ctx: Context, s: State, tx: Tx, s': State, id: SwapID)
    requires Effect(c, ctx, s, tx, s') && id in s'.swaps
    ensures s'.swaps[id].status == EXPIRED ==> id in s.swaps && s.swaps[id] == s'.swaps[id]
    ensures IsLive(s'.swaps[id]) && CreatesSwap(c, tx, id) == 0 ==> id in s.swaps && s.swaps[id] == s'.swaps[id]
    ensures CreatesSwap(c, tx, id) == 1 ==> s'.swaps[id] == NewSwap(ctx, tx.msg, DirectionOf(c, tx.msg))
  {
  }

  /** No step makes a swap expire ahead of its time. */
  lemma StepExpiredBy(c: Config, ch: Chain, e: Event, id: SwapID)
    requires ParamsOk(c) && Inv(c, ch.state) && EventOk(c, ch, e) && ExpiredBy(ch.state, id, Unix(ch.ctx.time))
    ensures ExpiredBy(Step(c, ch, e).state, id, Unix(Step(c, ch, e).ctx.time))
  {
    match e
    case Block(ctx) =>
      assert Unix(ch.ctx.time) <= Unix(ctx.time);
      BeginBlockDone(c, ctx, ch.state);
      AgedInWindow(c, ctx, ch.state, BeginBlock(c, ctx, ch.state), id);
    case Message(tx) =>
      var r := Handle(c, ch.ctx, ch.state, tx);
      if r.Ok? && id in r.value.swaps {
        HandleEffect(c, ch.ctx, ch.state, tx);
        EffectOnOthers(c, ch.ctx, ch.state, tx, r.value, id);
      }
  }

  lemma {:induction false} RunExpiredBy(c: Config, ch: Chain, es: seq<Event>, id: SwapID)
    requires ParamsOk(c) && Inv(c, ch.state) && RunOk(c, ch, es) && ExpiredBy(ch.state, id, Unix(ch.ctx.time))
    ensures ExpiredBy(Run(c, ch, es).state, id, Unix(Run(c, ch, es).ctx.time))
  {
    if es != [] {
      var init := es[..|es| - 1];
      RunExpiredBy(c, ch, init, id);
      RunKeepsInv(c, ch, init);
      StepExpiredBy(c, Run(c, ch, init), es[|es| - 1], id);
    }
  }

  /** One message and the window of one live swap. */
  lemma MessageWindow(c: Config, ch: Chain, tx: Tx, after: Chain, id: SwapID)
    requires Inv(c, ch.state) && TxOk(c, tx) && after == Step(c, ch, Message(tx))
    requires id in after.state.swaps && IsLive(after.state.swaps[id])
    ensures IsCreate(c, ch, Message(tx), id) == 1 ==> (SwapInWindow(after, id) <==> BornAhead(ch.ctx, tx.msg))
    ensures IsCreate(c, ch, Message(tx), id) == 0 ==>
              id in ch.state.swaps && IsLive(ch.state.swaps[id]) && (SwapInWindow(after, id) <==> SwapInWindow(ch, id))
  {
    if Handle(c, ch.ctx, ch.state, tx).Ok? {
      HandleEffect(c, ch.ctx, ch.state, tx);
      EffectOnOthers(c, ch.ctx, ch.state, tx, after.state, id);
    }
  }

  /** At any moment of a run a live swap is in its window if and only if it was not created, since the last
      block, with an expiry that does not lie ahead, and had not expired ahead of its time when that block
      came; without a block, the start of the run decides. */
  lemma {:induction false} RunWindowExact(c: Config, ch: Chain, es: seq<Event>, id: SwapID)
    requires ParamsOk(c) && Inv(c, ch.state) && RunOk(c, ch, es)
    requires id in Run(c, ch, es).state.swaps && IsLive(Run(c, ch, es).state.swaps[id])
    ensures SwapInWindow(Run(c, ch, es), id) <==> Ahead(c, ch, es, id)
  {
    if es != [] {
      var init, e := es[..|es| - 1], es[|es| - 1];
      var before := Run(c, ch, init);
      RunKeepsInv(c, ch, init);
      match e
      case Block(ctx) =>
        BeginBlockDone(c, ctx, before.state);
        AgedInWindow(c, ctx, before.state, BeginBlock(c, ctx, before.state), id);
      case Message(tx) =>
        MessageWindow(c, before, tx, Run(c, ch, es), id);
        if IsCreate(c, before, e, id) == 0 {
          RunWindowExact(c, ch, init, id);
        }
    }
  }

  /** The windows of all swaps at once. */
  lemma RunKeepsWindows(c: Config, ch: Chain, es: seq<Event>)
    requires ParamsOk(c) && Inv(c, ch.state) && RunOk(c, ch, es)
    ensures var end := Run(c, ch, es);
            WindowsOk(end) <==> forall id | id in end.state.swaps && IsLive(end.state.swaps[id]) :: Ahead(c, ch, es, id)
  {
    var end := Run(c, ch, es);
    forall id | id in end.state.swaps && IsLive(end.state.swaps[id])
      ensures InWindow(end.state.swaps[id], Unix(end.ctx.time)) <==> Ahead(c, ch, es, id)
    {
      RunWindowExact(c, ch, es, id);
    }
  }

  /** Claim with the secret before the expiry only, refund from it on only. */
  ghost predicate WindowsDisjoint(c: Config, ch: Chain, id: SwapID, number: Bytes)
    requires id in ch.state.swaps
  {
    && (Handle(c, ch.ctx, ch.state, ClaimTx(id, number)).Ok? <==> Unix(ch.ctx.time) < ch.state.swaps[id].expireTimestamp)
    && (Handle(c, ch.ctx, ch.state, RefundTx(id)).Ok? <==> ch.state.swaps[id].expireTimestamp <= Unix(ch.ctx.time))
  }

  lemma WindowsDisjointExact(c: Config, ch: Chain, id: SwapID, number: Bytes)
    requires Inv(c, ch.state) && id in ch.state.swaps && IsLive(ch.state.swaps[id])
    requires SecretUnlocks(c.hash, ch.state.swaps[id], number)
    ensures WindowsDisjoint(c, ch, id, number) <==> SwapInWindow(ch, id)
  {
    ClaimNeverBlocked(c, ch.ctx, ch.state, id, number);
    RefundNeverBlocked(c, ch.ctx, ch.state, id);
  }

  /** At any moment of any run a live swap can be claimed with its secret exactly before its expiry and
      refunded exactly from its expiry on, under the condition of RunWindowExact and under no other. */
  lemma DisjointWindows(c: Config, ch: Chain, es: seq<Event>, end: Chain, id: SwapID, number: Bytes)
    requires ParamsOk(c) && Inv(c, ch.state) && RunOk(c, ch, es) && end == Run(c, ch, es)
    requires id in end.state.swaps && IsLive(end.state.swaps[id]) && SecretUnlocks(c.hash, end.state.swaps[id], number)
    ensures WindowsDisjoint(c, end, id, number) <==> Ahead(c, ch, es, id)
  {
    RunKeepsInv(c, ch, es);
    RunWindowExact(c, ch, es, id);
    WindowsDisjointExact(c, end, id, number);
  }

  /** In particular, from a start in its window spans that fit a 64-bit duration never break it. */
  lemma {:induction false} FittingSpansAhead(c: Config, ch: Chain, es: seq<Event>, id: SwapID)
    requires ParamsOk(c) && Inv(c, ch.state) && RunOk(c, ch, es) && SwapInWindow(ch, id)
    requires forall e | e in es && e.Message? && e.tx.CreateTx? :: e.tx.msg.timeSpanMin <= MAX_SPAN_MIN
    ensures Ahead(c, ch, es, id)
  {
    if es != [] {
      var init, e := es[..|es| - 1], es[|es| - 1];
      assert e in es && forall f | f in init :: f in es;
      if e.Message? && e.tx.CreateTx? {
        FittingSpanIsBornAhead(Run(c, ch, init).ctx, e.tx.msg);
      }
      if e.Block? {
        RunExpiredBy(c, ch, init, id);
        assert Unix(Run(c, ch, init).ctx.time) <= Unix(e.ctx.time);
      } else {
        FittingSpansAhead(c, ch, init, id);
      }
    }
  }

  // ---------- Locked coins come back ----------

  lemma DueHasExpired(c: Config, ctx: Context, s: State, s': State, id: SwapID)
    requires BlockDone(c, ctx, s, s')
    requires id in s.swaps && IsLive(s.swaps[id]) && s.swaps[id].expireTimestamp <= Unix(ctx.time)
    ensures id in s'.swaps && s'.swaps[id].status == EXPIRED
  {
    assert !Deletable(s.swaps[id], ctx.height) && s'.swaps[id] == Aged(s.swaps[id], Unix(ctx.time));
  }

  /** A live swap whose expiry is at or before the time of a block is refundable right after that block. */
  lemma DueIsRefundable(c: Config, ctx: Context, s: State, s': State, id: SwapID)
    requires ParamsOk(c) && Inv(c, s) && s' == BeginBlock(c, ctx, s)
    requires id in s.swaps && IsLive(s.swaps[id]) && s.swaps[id].expireTimestamp <= Unix(ctx.time)
    ensures Refund(c, ctx, s', id).Ok?
  {
    BeginBlockDone(c, ctx, s);
    DueHasExpired(c, ctx, s, s', id);
    RefundNeverBlocked(c, ctx, s', id);
  }

  /** So in any run: once a block has reached the expiry of a swap that is still live, its coins can be had
      back, whatever has happened before. */
  lemma LockedCoinsReturn(c: Config, ch: Chain, es: seq<Event>, end: Chain, ctx: Context, id: SwapID)
    requires ParamsOk(c) && Inv(c, ch.state) && RunOk(c, ch, es) && end == Run(c, ch, es)
    requires id in end.state.swaps && IsLive(end.state.swaps[id]) && end.state.swaps[id].expireTimestamp <= Unix(ctx.time)
    ensures Refund(c, ctx, Step(c, end, Block(ctx)).state, id).Ok?
  {
    RunKeepsInv(c, ch, es);
    DueIsRefundable(c, ctx, end.state, Step(c, end, Block(ctx)).state, id);
  }
}
