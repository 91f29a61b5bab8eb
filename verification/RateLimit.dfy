/** The rate limit on released supply, in block time. */
module RateLimit {
  import opened Types
  import opened Supply
  import opened Machine
  import opened Invariants
  import opened Blocks
  import opened Runs

  /** Whether a block closes the current window of a denomination. */
  function Resets(c: Config, ch: Chain, e: Event, d: Denom): nat {
    if e.Block? && FindAsset(c.assets, d).Some?
       && !WindowOpen(FindAsset(c.assets, d).value, Elapsed(e.ctx, ch.state), SupplyOrNew(ch.state.supplies, d))
    then 1 else 0
  }

  function ResetTotal(c: Config, ch: Chain, es: seq<Event>, d: Denom): nat {
    if es == [] then 0
    else ResetTotal(c, ch, es[..|es| - 1], d) + Resets(c, Run(c, ch, es[..|es| - 1]), es[|es| - 1], d)
  }

  /** The stored previous block time, which the window arithmetic uses, does not lie in the future. */
  ghost predicate ClockOk(ch: Chain) {
    ch.state.prevBlockTime.Some? && ch.state.prevBlockTime.value <= ch.ctx.time
  }

  function Clock(ch: Chain): int {
    if ch.state.prevBlockTime.Some? then ch.state.prevBlockTime.value else 0
  }

  lemma ElapsedAtMost(ctx: Context, s: State)
    requires s.prevBlockTime.Some? && s.prevBlockTime.value <= ctx.time
    ensures 0 <= Elapsed(ctx, s) <= ctx.time - s.prevBlockTime.value
  {
  }

  /** Accumulated time never exceeds real time; a 64-bit overflow can only lose time. */
  lemma RolledWindow(asset: AssetParam, elapsed: int64, delta: int, p: AssetSupply)
    requires 0 <= elapsed <= delta && asset.supplyLimit.timeLimited
    requires p.timeLimitedCurrent <= asset.supplyLimit.timeBasedLimit
    ensures WindowMoves(asset.supplyLimit, p, Roll(asset, elapsed, p), 0, delta, if WindowOpen(asset, elapsed, p) then 0 else 1)
  {
    Wrap64Cases(p.timeElapsed + elapsed);
  }

  lemma BlockMovesWindow(c: Config, ch: Chain, ctx: Context, d: Denom)
    requires ParamsOk(c) && Inv(c, ch.state) && ClockOk(ch) && ch.ctx.time <= ctx.time && TimeLimited(c, d)
    ensures StepMoves(c, ch, Block(ctx), d) && ClockOk(Step(c, ch, Block(ctx)))
  {
    var asset := FindAsset(c.assets, d).value;
    WindowWithin(c, ch.state, d);
    BeginBlockDone(c, ctx, ch.state);
    ElapsedAtMost(ctx, ch.state);
    RolledWindow(asset, Elapsed(ctx, ch.state), ctx.time - Clock(ch), SupplyOrNew(ch.state.supplies, d));
    assert SupplyOrNew(BeginBlock(c, ctx, ch.state).supplies, d) == RolledRecord(c, ctx, ch.state, d);
  }

  lemma WindowWithin(c: Config, s: State, d: Denom)
    requires ParamsOk(c) && Inv(c, s) && TimeLimited(c, d)
    ensures 0 <= SupplyOrNew(s.supplies, d).timeLimitedCurrent <= FindAsset(c.assets, d).value.supplyLimit.timeBasedLimit
  {
    if d in s.supplies {
      assert SupplyOk(c, s, d);
    } else {
      assert ParamOk(c, FindAsset(c.assets, d).value);
    }
  }

  // ---------- Multiples ----------

  function Times(n: nat, k: int): int {
    if n == 0 then 0 else k + Times(n - 1, k)
  }

  /** Recursion instead of the product keeps the ledger linear. */
  lemma {:induction false} TimesIsProduct(n: nat, k: int)
    ensures Times(n, k) == n * k
  {
    if n > 0 {
      TimesIsProduct(n - 1, k);
    }
  }

  lemma {:induction false} TimesMonotone(m: nat, n: nat, k: int)
    requires m <= n && k >= 0
    ensures Times(m, k) <= Times(n, k)
  {
    if m < n {
      TimesMonotone(m, n - 1, k);
    }
  }

  // ---------- The ledger of a run ----------

  /** `released` coins in `resets` closed windows and one open window, within `span` of block time. The
      closed windows and the open one take real time, apart from what was on the clock of the first. */
  ghost predicate Ledger(limit: SupplyLimit, released: int, resets: nat, first: AssetSupply, last: AssetSupply, span: int) {
    && released <= Times(resets, limit.timeBasedLimit) + last.timeLimitedCurrent - first.timeLimitedCurrent
    && Times(resets, limit.timePeriod) + last.timeElapsed <= span + first.timeElapsed
    && (resets >= 1 ==> Times(resets, limit.timePeriod) <= span + first.timeElapsed)
    && (resets >= 1 ==> Times(resets - 1, limit.timePeriod) <= span)
    && (resets >= 1 ==> Times(resets - 1, limit.timePeriod) + last.timeElapsed <= span)
  }

  /** What one event does to the window of a denomination. */
  ghost predicate WindowMoves(limit: SupplyLimit, p: AssetSupply, p': AssetSupply, released: int, delta: int, resets: nat) {
    && delta >= 0 && resets <= 1
    && p.timeLimitedCurrent <= limit.timeBasedLimit
    && (resets == 0 ==>
          && p'.timeElapsed <= p.timeElapsed + delta
          && p'.timeLimitedCurrent == p.timeLimitedCurrent + released)
    && (resets == 1 ==>
          && released == 0 && p.timeElapsed + delta >= limit.timePeriod
          && p'.timeElapsed == 0 && p'.timeLimitedCurrent == 0)
  }

  ghost predicate StepMoves(c: Config, ch: Chain, e: Event, d: Denom)
    requires FindAsset(c.assets, d).Some?
  {
    var after := Step(c, ch, e);
    WindowMoves(FindAsset(c.assets, d).value.supplyLimit, SupplyOrNew(ch.state.supplies, d), SupplyOrNew(after.state.supplies, d),
                ClaimAmount(c, ch, e, INCOMING, d), Clock(after) - Clock(ch), Resets(c, ch, e, d))
  }

  ghost predicate RunMoves(c: Config, ch: Chain, es: seq<Event>, d: Denom)
    requires FindAsset(c.assets, d).Some?
  {
    es == [] || (RunMoves(c, ch, es[..|es| - 1], d) && StepMoves(c, Run(c, ch, es[..|es| - 1]), es[|es| - 1], d))
  }

  lemma StepMovesWindow(c: Config, ch: Chain, e: Event, d: Denom)
    requires ParamsOk(c) && Inv(c, ch.state) && EventOk(c, ch, e) && ClockOk(ch) && TimeLimited(c, d)
    ensures StepMoves(c, ch, e, d) && ClockOk(Step(c, ch, e))
  {
    match e
    case Block(ctx) =>
      BlockMovesWindow(c, ch, ctx, d);
    case Message(tx) =>
      WindowWithin(c, ch.state, d);
      MessageAccounts(c, ch, tx, d);
  }

  lemma {:induction false} RunMovesWindow(c: Config, ch: Chain, es: seq<Event>, d: Denom)
    requires ParamsOk(c) && Inv(c, ch.state) && RunOk(c, ch, es) && ClockOk(ch) && TimeLimited(c, d)
    ensures RunMoves(c, ch, es, d) && ClockOk(Run(c, ch, es))
  {
    if es != [] {
      RunMovesWindow(c, ch, es[..|es| - 1], d);
      RunKeepsInv(c, ch, es[..|es| - 1]);
      StepMovesWindow(c, Run(c, ch, es[..|es| - 1]), es[|es| - 1], d);
    }
  }

  /** Each window releases at most the limit, and the windows that closed took real time. */
  lemma {:induction false} WindowAccounting(c: Config, ch: Chain, es: seq<Event>, d: Denom)
    requires FindAsset(c.assets, d).Some? && RunMoves(c, ch, es, d)
    ensures Clock(ch) <= Clock(Run(c, ch, es))
    ensures Ledger(FindAsset(c.assets, d).value.supplyLimit, ClaimTotal(c, ch, es, INCOMING, d), ResetTotal(c, ch, es, d),
                   SupplyOrNew(ch.state.supplies, d), SupplyOrNew(Run(c, ch, es).state.supplies, d), Clock(Run(c, ch, es)) - Clock(ch))
  {
    if es != [] {
      var init, e := es[..|es| - 1], es[|es| - 1];
      var mid := Run(c, ch, init);
      WindowAccounting(c, ch, init, d);
      LedgerStep(FindAsset(c.assets, d).value.supplyLimit, ClaimTotal(c, ch, init, INCOMING, d), ResetTotal(c, ch, init, d),
                 SupplyOrNew(ch.state.supplies, d), SupplyOrNew(mid.state.supplies, d), Clock(mid) - Clock(ch),
                 ClaimTotal(c, ch, es, INCOMING, d), ResetTotal(c, ch, es, d),
                 SupplyOrNew(Run(c, ch, es).state.supplies, d), Clock(Run(c, ch, es)) - Clock(ch));
    }
  }

  lemma LedgerStep(limit: SupplyLimit, released: int, resets: nat, first: AssetSupply, last: AssetSupply, span: int,
                   released': int, resets': nat, next: AssetSupply, span': int)
    requires Ledger(limit, released, resets, first, last, span) && span >= 0 && resets <= resets'
    requires WindowMoves(limit, last, next, released' - released, span' - span, resets' - resets)
    ensures Ledger(limit, released', resets', first, next, span')
  {
  }

  // ---------- Resets ----------

  /** A block that closes the window starts the next one at its own time. */
  lemma ResetStartsWindow(c: Config, ch: Chain, ctx: Context, start: Chain, d: Denom)
    requires ParamsOk(c) && Inv(c, ch.state) && TimeLimited(c, d)
    requires start == Step(c, ch, Block(ctx)) && Resets(c, ch, Block(ctx), d) == 1
    ensures Inv(c, start.state) && ClockOk(start) && Clock(start) == ctx.time
    ensures SupplyOrNew(start.state.supplies, d).timeElapsed == 0
  {
    BeginBlockDone(c, ctx, ch.state);
    assert SupplyOrNew(BeginBlock(c, ctx, ch.state).supplies, d) == RolledRecord(c, ctx, ch.state, d);
  }

  /** `resets` periods fit into `time` nanoseconds. */
  predicate PeriodsFit(resets: nat, period: int, time: int) {
    Times(resets, period) <= time
  }

  /** From a window that starts now, `k` resets take at least `k` periods of block time. */
  lemma FreshWindowResets(c: Config, start: Chain, es: seq<Event>, end: Chain, d: Denom)
    requires ParamsOk(c) && Inv(c, start.state) && TimeLimited(c, d) && ClockOk(start) && Clock(start) == start.ctx.time
    requires SupplyOrNew(start.state.supplies, d).timeElapsed == 0
    requires RunOk(c, start, es) && end == Run(c, start, es)
    ensures PeriodsFit(ResetTotal(c, start, es, d), FindAsset(c.assets, d).value.supplyLimit.timePeriod, end.ctx.time - start.ctx.time)
  {
    RunMovesWindow(c, start, es, d);
    WindowAccounting(c, start, es, d);
    LedgerSpaced(FindAsset(c.assets, d).value.supplyLimit, ClaimTotal(c, start, es, INCOMING, d), ResetTotal(c, start, es, d),
                 SupplyOrNew(start.state.supplies, d), SupplyOrNew(end.state.supplies, d),
                 Clock(end) - Clock(start), end.ctx.time - start.ctx.time);
  }

  lemma LedgerSpaced(limit: SupplyLimit, released: int, resets: nat, first: AssetSupply, last: AssetSupply, span: int, time: int)
    requires Ledger(limit, released, resets, first, last, span) && first.timeElapsed == 0 && 0 <= span <= time
    ensures PeriodsFit(resets, limit.timePeriod, time)
  {
  }

  /** From a reset on, `k` more resets take at least `k` periods of block time. */
  lemma ResetsSpaced(c: Config, ch: Chain, ctx: Context, start: Chain, es: seq<Event>, end: Chain, d: Denom)
    requires ParamsOk(c) && Inv(c, ch.state) && TimeLimited(c, d)
    requires start == Step(c, ch, Block(ctx)) && Resets(c, ch, Block(ctx), d) == 1
    requires RunOk(c, start, es) && end == Run(c, start, es)
    ensures PeriodsFit(ResetTotal(c, start, es, d), FindAsset(c.assets, d).value.supplyLimit.timePeriod, end.ctx.time - ctx.time)
  {
    ResetStartsWindow(c, ch, ctx, start, d);
    FreshWindowResets(c, start, es, end, d);
  }

  lemma RunLast(c: Config, ch: Chain, es: seq<Event>, e: Event, d: Denom)
    ensures Run(c, ch, es + [e]) == Step(c, Run(c, ch, es), e)
    ensures ResetTotal(c, ch, es + [e], d) == ResetTotal(c, ch, es, d) + Resets(c, Run(c, ch, es), e, d)
  {
    assert (es + [e])[..|es + [e]| - 1] == es;
  }

  /** Any two window resets are at least one period of block time apart. */
  lemma ResetsApart(c: Config, ch: Chain, ctx: Context, start: Chain, es: seq<Event>, last: Context, d: Denom)
    requires ParamsOk(c) && Inv(c, ch.state) && TimeLimited(c, d)
    requires start == Step(c, ch, Block(ctx)) && Resets(c, ch, Block(ctx), d) == 1
    requires RunOk(c, start, es + [Block(last)]) && Resets(c, Run(c, start, es), Block(last), d) == 1
    ensures last.time - ctx.time >= FindAsset(c.assets, d).value.supplyLimit.timePeriod
  {
    var all := es + [Block(last)];
    var end := Run(c, start, all);
    RunLast(c, start, es, Block(last), d);
    ResetsSpaced(c, ch, ctx, start, all, end, d);
    RunClock(c, start, all);
    AtLeastOne(ResetTotal(c, start, all, d), FindAsset(c.assets, d).value.supplyLimit.timePeriod, last.time - ctx.time);
  }

  lemma AtLeastOne(k: nat, period: int, span: int)
    requires k >= 1 && PeriodsFit(k, period, span) && span >= 0
    ensures period <= span
  {
    if period > 0 {
      TimesMonotone(1, k, period);
    }
  }

  /** Block time never goes back over a run. */
  lemma {:induction false} RunClock(c: Config, ch: Chain, es: seq<Event>)
    requires RunOk(c, ch, es)
    ensures ch.ctx.time <= Run(c, ch, es).ctx.time
  {
    if es != [] {
      RunClock(c, ch, es[..|es| - 1]);
    }
  }

  /** `resets` window resets within `span`, when the first may end a window that was already open. */
  predicate ResetsWithin(resets: nat, period: int, span: int) {
    resets >= 1 ==> Times(resets - 1, period) <= span
  }

  lemma LedgerWithin(limit: SupplyLimit, released: int, resets: nat, first: AssetSupply, last: AssetSupply, span: int)
    requires Ledger(limit, released, resets, first, last, span)
    ensures ResetsWithin(resets, limit.timePeriod, span)
  {
  }

  /** From any start k resets take at least k - 1 periods of block time. */
  lemma ResetsFromAnyStart(c: Config, ch: Chain, es: seq<Event>, d: Denom)
    requires ParamsOk(c) && Inv(c, ch.state) && RunOk(c, ch, es) && ClockOk(ch) && TimeLimited(c, d)
    ensures ResetsWithin(ResetTotal(c, ch, es, d), FindAsset(c.assets, d).value.supplyLimit.timePeriod, Clock(Run(c, ch, es)) - Clock(ch))
  {
    RunMovesWindow(c, ch, es, d);
    WindowAccounting(c, ch, es, d);
    LedgerWithin(FindAsset(c.assets, d).value.supplyLimit, ClaimTotal(c, ch, es, INCOMING, d), ResetTotal(c, ch, es, d),
                 SupplyOrNew(ch.state.supplies, d), SupplyOrNew(Run(c, ch, es).state.supplies, d), Clock(Run(c, ch, es)) - Clock(ch));
  }

  // ---------- Releases ----------

  /** `windows` windows of `limit` coins cover the released amount. */
  predicate ReleasedAtMost(released: int, windows: nat, limit: int) {
    released <= Times(windows, limit)
  }

  lemma LedgerBound(limit: SupplyLimit, released: int, resets: nat, first: AssetSupply, last: AssetSupply, span: int, n: nat)
    requires Ledger(limit, released, resets, first, last, span)
    requires limit.timeBasedLimit >= 0 && 0 <= span && !PeriodsFit(n, limit.timePeriod, span)
    requires last.timeLimitedCurrent <= limit.timeBasedLimit && first.timeLimitedCurrent >= 0
    ensures ReleasedAtMost(released, n + 1, limit.timeBasedLimit)
  {
    PositivePeriod(n, limit.timePeriod, span);
    if resets > n {
      TimesMonotone(n, resets - 1, limit.timePeriod);
    } else {
      TimesMonotone(resets, n, limit.timeBasedLimit);
    }
  }

  lemma PositivePeriod(n: nat, period: int, span: int)
    requires 0 <= span && !PeriodsFit(n, period, span)
    ensures period > 0
  {
    TimesIsProduct(n, period);
  }

  lemma LedgerPerWindow(limit: SupplyLimit, released: int, resets: nat, first: AssetSupply, last: AssetSupply, span: int)
    requires Ledger(limit, released, resets, first, last, span)
    requires last.timeLimitedCurrent <= limit.timeBasedLimit && first.timeLimitedCurrent >= 0
    ensures ReleasedAtMost(released, resets + 1, limit.timeBasedLimit)
  {
  }

  /** The ledger of a run from a good state, with the limits at both ends. */
  lemma RunLedger(c: Config, ch: Chain, es: seq<Event>, end: Chain, d: Denom)
    requires ParamsOk(c) && Inv(c, ch.state) && ClockOk(ch) && TimeLimited(c, d)
    requires RunOk(c, ch, es) && end == Run(c, ch, es)
    ensures Ledger(FindAsset(c.assets, d).value.supplyLimit, ClaimTotal(c, ch, es, INCOMING, d), ResetTotal(c, ch, es, d),
                   SupplyOrNew(ch.state.supplies, d), SupplyOrNew(end.state.supplies, d), Clock(end) - Clock(ch))
    ensures Clock(ch) <= Clock(end)
    ensures SupplyOrNew(end.state.supplies, d).timeLimitedCurrent <= FindAsset(c.assets, d).value.supplyLimit.timeBasedLimit
    ensures SupplyOrNew(ch.state.supplies, d).timeLimitedCurrent >= 0 && FindAsset(c.assets, d).value.supplyLimit.timeBasedLimit >= 0
  {
    RunMovesWindow(c, ch, es, d);
    WindowAccounting(c, ch, es, d);
    RunKeepsInv(c, ch, es);
    WindowWithin(c, end.state, d);
    WindowWithin(c, ch.state, d);
  }

  /** However the windows are cut, also with a period that closes one in every block, each window releases
      at most the limit. */
  lemma ReleasePerWindow(c: Config, ch: Chain, es: seq<Event>, end: Chain, d: Denom)
    requires ParamsOk(c) && Inv(c, ch.state) && ClockOk(ch) && TimeLimited(c, d)
    requires RunOk(c, ch, es) && end == Run(c, ch, es)
    ensures ReleasedAtMost(ClaimTotal(c, ch, es, INCOMING, d), ResetTotal(c, ch, es, d) + 1,
                           FindAsset(c.assets, d).value.supplyLimit.timeBasedLimit)
  {
    RunLedger(c, ch, es, end, d);
    LedgerPerWindow(FindAsset(c.assets, d).value.supplyLimit, ClaimTotal(c, ch, es, INCOMING, d), ResetTotal(c, ch, es, d),
                    SupplyOrNew(ch.state.supplies, d), SupplyOrNew(end.state.supplies, d), Clock(end) - Clock(ch));
  }

  /** With a period of zero or less, every block after a reset closes its window again. */
  lemma NoPeriodResetsEachBlock(c: Config, ch: Chain, ctx: Context, d: Denom)
    requires ParamsOk(c) && Inv(c, ch.state) && EventOk(c, ch, Block(ctx)) && ClockOk(ch) && TimeLimited(c, d)
    requires FindAsset(c.assets, d).value.supplyLimit.timePeriod <= 0
    requires SupplyOrNew(ch.state.supplies, d).timeElapsed == 0
    ensures Resets(c, ch, Block(ctx), d) == 1
    ensures SupplyOrNew(Step(c, ch, Block(ctx)).state.supplies, d).timeElapsed == 0
  {
    ElapsedAtMost(ctx, ch.state);
    Wrap64Cases(Elapsed(ctx, ch.state));
    ResetStartsWindow(c, ch, ctx, Step(c, ch, Block(ctx)), d);
  }

  /** In any run of blocks shorter than `n` periods the incoming claims of a time-limited asset
      release at most n + 1 times its limit: at most twice the limit in less than one period. */
  lemma ReleaseRate(c: Config, ch: Chain, es: seq<Event>, end: Chain, d: Denom, n: nat)
    requires ParamsOk(c) && Inv(c, ch.state) && ClockOk(ch) && TimeLimited(c, d)
    requires RunOk(c, ch, es) && end == Run(c, ch, es)
    requires !PeriodsFit(n, FindAsset(c.assets, d).value.supplyLimit.timePeriod, Clock(end) - Clock(ch))
    ensures ReleasedAtMost(ClaimTotal(c, ch, es, INCOMING, d), n + 1, FindAsset(c.assets, d).value.supplyLimit.timeBasedLimit)
  {
    RunLedger(c, ch, es, end, d);
    LedgerBound(FindAsset(c.assets, d).value.supplyLimit, ClaimTotal(c, ch, es, INCOMING, d), ResetTotal(c, ch, es, d),
                SupplyOrNew(ch.state.supplies, d), SupplyOrNew(end.state.supplies, d), Clock(end) - Clock(ch), n);
  }

  // ---------- Windows advance and close ----------

  /** The time a block adds to a window: since the previous block, if there was one, but no more than a
      duration can hold. */
  function BlockTime(ch: Chain, ctx: Context): int {
    var delta := if ch.state.prevBlockTime.None? then 0 else ctx.time - ch.state.prevBlockTime.value;
    if delta > 0x7FFF_FFFF_FFFF_FFFF then 0x7FFF_FFFF_FFFF_FFFF else delta
  }

  /** A window after `t` nanoseconds: below the period the time is kept and so is the released amount, from
      the period on both start again. An asset without a time limit always starts again. */
  function Rolled(limit: SupplyLimit, p: AssetSupply, t: int64): AssetSupply {
    if limit.timeLimited && t < limit.timePeriod then p.(timeElapsed := t) else p.(timeElapsed := 0, timeLimitedCurrent := 0)
  }

  lemma RollExact(asset: AssetParam, elapsed: int64, p: AssetSupply)
    requires 0 <= p.timeElapsed && 0 <= elapsed && p.timeElapsed + elapsed < 0x8000_0000_0000_0000
    ensures Roll(asset, elapsed, p) == Rolled(asset.supplyLimit, p, p.timeElapsed + elapsed)
    ensures WindowOpen(asset, elapsed, p) <==> asset.supplyLimit.timeLimited && p.timeElapsed + elapsed < asset.supplyLimit.timePeriod
  {
    Wrap64Cases(p.timeElapsed + elapsed);
  }

  lemma ElapsedExact(ch: Chain, ctx: Context)
    requires (ch.state.prevBlockTime.None? || ClockOk(ch)) && ch.ctx.time <= ctx.time
    ensures Elapsed(ctx, ch.state) == BlockTime(ch, ctx) >= 0
  {
  }

  /** What one block does to the record of an asset, for accumulated time that stays within 64 bits: the time
      since the previous block is added, and no other counter moves. */
  lemma BlockRollsWindow(c: Config, ch: Chain, ctx: Context, after: Chain, d: Denom)
    requires ParamsOk(c) && Inv(c, ch.state) && EventOk(c, ch, Block(ctx)) && FindAsset(c.assets, d).Some?
    requires ch.state.prevBlockTime.None? || ClockOk(ch)
    requires after == Step(c, ch, Block(ctx))
    requires 0 <= SupplyOrNew(ch.state.supplies, d).timeElapsed
    requires SupplyOrNew(ch.state.supplies, d).timeElapsed + BlockTime(ch, ctx) < 0x8000_0000_0000_0000
    ensures var p, limit := SupplyOrNew(ch.state.supplies, d), FindAsset(c.assets, d).value.supplyLimit;
            && SupplyOrNew(after.state.supplies, d) == Rolled(limit, p, p.timeElapsed + BlockTime(ch, ctx))
            && (Resets(c, ch, Block(ctx), d) == 0 <==> limit.timeLimited && p.timeElapsed + BlockTime(ch, ctx) < limit.timePeriod)
  {
    BeginBlockDone(c, ctx, ch.state);
    ElapsedExact(ch, ctx);
    RollExact(FindAsset(c.assets, d).value, Elapsed(ctx, ch.state), SupplyOrNew(ch.state.supplies, d));
    assert SupplyOrNew(after.state.supplies, d) == RolledRecord(c, ctx, ch.state, d);
  }

  /** Every block comes soon enough that an open window cannot overflow 64 bits. */
  ghost predicate BlocksFit(c: Config, ch: Chain, es: seq<Event>, period: int) {
    es == []
    || (BlocksFit(c, ch, es[..|es| - 1], period)
        && (es[|es| - 1].Block? ==> es[|es| - 1].ctx.time - Clock(Run(c, ch, es[..|es| - 1])) + period <= 0x8000_0000_0000_0000))
  }

  /** Without a reset the window holds exactly the time that has passed, and that is below the period. */
  ghost predicate WindowHolds(limit: SupplyLimit, first: AssetSupply, last: AssetSupply, span: int, resets: nat) {
    && (resets == 0 ==> last.timeElapsed == first.timeElapsed + span < limit.timePeriod)
    && (resets >= 1 ==> first.timeElapsed + span >= limit.timePeriod)
  }

  lemma StepWindowHolds(c: Config, ch: Chain, e: Event, after: Chain, d: Denom, limit: SupplyLimit, first: AssetSupply, span: int, resets: nat)
    requires ParamsOk(c) && Inv(c, ch.state) && EventOk(c, ch, e) && ClockOk(ch) && TimeLimited(c, d) && after == Step(c, ch, e)
    requires limit == FindAsset(c.assets, d).value.supplyLimit && 0 <= first.timeElapsed && 0 <= span
    requires e.Block? ==> e.ctx.time - Clock(ch) + limit.timePeriod <= 0x8000_0000_0000_0000
    requires WindowHolds(limit, first, SupplyOrNew(ch.state.supplies, d), span, resets)
    ensures WindowHolds(limit, first, SupplyOrNew(after.state.supplies, d), span + Clock(after) - Clock(ch), resets + Resets(c, ch, e, d))
    ensures Clock(after) >= Clock(ch)
  {
    match e
    case Block(ctx) =>
      BeginBlockDone(c, ctx, ch.state);
      if resets == 0 {
        BlockRollsWindow(c, ch, ctx, after, d);
      }
    case Message(tx) =>
      MessageAccounts(c, ch, tx, d);
  }

  /** Time accumulates over a run, and a window closes exactly when its time is up: an open window that
      starts with `timeElapsed` is reset within a run if and only if that time and the span of the run
      reach the period together, and until then it holds exactly their sum. */
  lemma {:induction false} WindowClosesExactly(c: Config, ch: Chain, es: seq<Event>, d: Denom)
    requires ParamsOk(c) && Inv(c, ch.state) && RunOk(c, ch, es) && ClockOk(ch) && TimeLimited(c, d)
    requires BlocksFit(c, ch, es, FindAsset(c.assets, d).value.supplyLimit.timePeriod)
    requires 0 <= SupplyOrNew(ch.state.supplies, d).timeElapsed < FindAsset(c.assets, d).value.supplyLimit.timePeriod
    ensures WindowHolds(FindAsset(c.assets, d).value.supplyLimit, SupplyOrNew(ch.state.supplies, d),
                        SupplyOrNew(Run(c, ch, es).state.supplies, d), Clock(Run(c, ch, es)) - Clock(ch), ResetTotal(c, ch, es, d))
    ensures Clock(ch) <= Clock(Run(c, ch, es))
  {
    if es != [] {
      var init, e := es[..|es| - 1], es[|es| - 1];
      var mid := Run(c, ch, init);
      WindowClosesExactly(c, ch, init, d);
      RunKeepsInv(c, ch, init);
      RunMovesWindow(c, ch, init, d);
      StepWindowHolds(c, mid, e, Run(c, ch, es), d, FindAsset(c.assets, d).value.supplyLimit, SupplyOrNew(ch.state.supplies, d),
                      Clock(mid) - Clock(ch), ResetTotal(c, ch, init, d));
    }
  }
}
