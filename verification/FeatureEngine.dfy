/**
 The feature engine object, the ratios it reports, and its place behind the
 live assembler.
 */
module FeatureEngine {
  import opened Wrappers
  import opened Market
  import opened FeatureWindows
  import LiveAssembler

  datatype Snapshot = Snapshot(
    sequence: nat, eventTs: nat, receiveTs: nat, computedTs: nat, inputAge: int, ready: bool, warmupCount: nat,
    mid: real, spreadBps: real, microprice: real, queueImbalance: real, bookImbalance: real,
    buyPressure: real, sellPressure: real, signedVolume: real, flowImbalance: real, aggressorRatio: real,
    adverseSelectionBps: real)

  // ----- ratios -----

  function Imbalance(bid: real, ask: real): real {
    var total := bid + ask;
    if total <= 0.0 then 0.0 else (bid - ask) / total
  }

  function SizeOf(levels: seq<Level>): real {
    if levels == [] then 0.0 else SizeOf(levels[..|levels| - 1]) + levels[|levels| - 1].size
  }

  function Microprice(bid: Level, ask: Level): real
    requires ValidLevel(bid) && ValidLevel(ask)
  {
    (ask.price * bid.size + bid.price * ask.size) / (bid.size + ask.size)
  }

  function BuySum(flow: seq<Stamped<Flow>>): real {
    if flow == [] then 0.0 else BuySum(flow[..|flow| - 1]) + flow[|flow| - 1].value.buy
  }

  function SellSum(flow: seq<Stamped<Flow>>): real {
    if flow == [] then 0.0 else SellSum(flow[..|flow| - 1]) + flow[|flow| - 1].value.sell
  }

  function SignedSum(flow: seq<Stamped<Flow>>): real {
    if flow == [] then 0.0 else SignedSum(flow[..|flow| - 1]) + flow[|flow| - 1].value.signed
  }

  function Ratio(part: real, total: real, otherwise: real): real {
    if total == 0.0 then otherwise else part / total
  }

  function Total(items: seq<Stamped<real>>): real {
    if items == [] then 0.0 else Total(items[..|items| - 1]) + items[|items| - 1].value
  }

  function SnapshotOf(c: Config, s: State, m: KernelState, computed: Option<nat>): Snapshot
    requires m.Valid() && c.Valid()
  {
    var input := InputOf(m);
    var bids, asks := LiveAssembler.Take(m.bids, c.depthLevels), LiveAssembler.Take(m.asks, c.depthLevels);
    var buy, sell, signed := BuySum(s.flow), SellSum(s.flow), SignedSum(s.flow);
    Snapshot(m.sequence, m.exchangeTs, m.observedTs, if computed.Some? then computed.value else m.observedTs,
             m.observedTs - input.oldest, s.samples >= c.warmupSamples, s.samples,
             input.mid, input.spreadBps, Microprice(m.bids[0], m.asks[0]),
             Imbalance(m.bids[0].size, m.asks[0].size), Imbalance(SizeOf(bids), SizeOf(asks)),
             buy, sell, signed, Ratio(signed, buy + sell, 0.0), Ratio(buy, buy + sell, 0.5),
             if s.markouts == [] then 0.0 else Total(s.markouts) / |s.markouts| as real)
  }

  // ----- bounds -----

  lemma {:induction false} QuotientBounds(part: real, total: real)
    requires total > 0.0 && -total <= part <= total
    ensures -1.0 <= part / total <= 1.0
  {
    var q := part / total;
    assert (q - 1.0) * total == part - total && (q + 1.0) * total == part + total;
    NotPositive(q - 1.0, total);
    NotPositive(-1.0 - q, total);
  }

  lemma {:induction false} NotPositive(x: real, y: real)
    requires y > 0.0 && x * y <= 0.0
    ensures x <= 0.0
  {
    assert x > 0.0 ==> x * y > 0.0;
  }

  lemma {:induction false} QuotientPositive(part: real, total: real)
    requires total > 0.0 && 0.0 <= part
    ensures 0.0 <= part / total
  {
    var q := part / total;
    assert q * total == part;
    NotPositive(-q, total);
  }

  lemma {:induction false} ImbalanceBounds(bid: real, ask: real)
    requires bid >= 0.0 && ask >= 0.0
    ensures -1.0 <= Imbalance(bid, ask) <= 1.0
    ensures Imbalance(ask, bid) == -Imbalance(bid, ask)
  {
    if bid + ask > 0.0 {
      QuotientBounds(bid - ask, bid + ask);
      Negated(bid - ask, bid + ask);
    }
  }

  lemma {:induction false} Negated(part: real, total: real)
    requires total > 0.0
    ensures (-part) / total == -(part / total)
  {
    assert ((-part) / total + part / total) * total == 0.0;
  }

  /** The microprice lies strictly between the quotes. */
  lemma {:induction false} MicropriceBetween(bid: Level, ask: Level)
    requires ValidLevel(bid) && ValidLevel(ask) && bid.price < ask.price
    ensures bid.price < Microprice(bid, ask) < ask.price
  {
    var total := bid.size + ask.size;
    var price := Microprice(bid, ask);
    var gap := ask.price - bid.price;
    assert price * total == ask.price * bid.size + bid.price * ask.size;
    Product(gap, bid.size);
    Product(gap, ask.size);
    assert (price - bid.price) * total == gap * bid.size;
    assert (ask.price - price) * total == gap * ask.size;
    Factor(price - bid.price, total);
    Factor(ask.price - price, total);
  }

  lemma {:induction false} Product(x: real, y: real)
    requires x > 0.0 && y > 0.0
    ensures x * y > 0.0
  {
  }

  lemma {:induction false} Factor(x: real, y: real)
    requires y > 0.0 && x * y > 0.0
    ensures x > 0.0
  {
    assert x <= 0.0 ==> x * y <= 0.0;
  }

  ghost predicate OneSided(flow: seq<Stamped<Flow>>) {
    forall i | 0 <= i < |flow| :: OneSidedItem(flow[i].value)
  }

  ghost predicate OneSidedItem(f: Flow) { f.buy >= 0.0 && f.sell >= 0.0 && f.signed == f.buy - f.sell }

  lemma {:induction false} FlowOneSided(trades: seq<ValidTrade>, now: nat)
    ensures OneSided(FlowItems(trades, now))
  {
    if trades != [] {
      FlowOneSided(trades[..|trades| - 1], now);
    }
  }

  lemma {:induction false} AllFlowOneSided(inputs: seq<Input>)
    ensures OneSided(AllFlow(inputs))
  {
    if inputs != [] {
      AllFlowOneSided(inputs[..|inputs| - 1]);
      FlowOneSided(inputs[|inputs| - 1].trades, inputs[|inputs| - 1].ts);
    }
  }

  lemma {:induction false} SumsAgree(flow: seq<Stamped<Flow>>)
    requires OneSided(flow)
    ensures BuySum(flow) >= 0.0 && SellSum(flow) >= 0.0 && SignedSum(flow) == BuySum(flow) - SellSum(flow)
  {
    if flow != [] {
      SumsAgree(flow[..|flow| - 1]);
    }
  }

  lemma {:induction false} RatioBounds(buy: real, sell: real)
    requires buy >= 0.0 && sell >= 0.0
    ensures -1.0 <= Ratio(buy - sell, buy + sell, 0.0) <= 1.0
    ensures 0.0 <= Ratio(buy, buy + sell, 0.5) <= 1.0
  {
    if buy + sell > 0.0 {
      QuotientBounds(buy - sell, buy + sell);
      QuotientBounds(buy, buy + sell);
      QuotientPositive(buy, buy + sell);
    }
  }

  lemma {:induction false} SizesPositive(levels: seq<Level>)
    requires forall i | 0 <= i < |levels| :: ValidLevel(levels[i])
    ensures SizeOf(levels) >= 0.0
  {
    if levels != [] {
      SizesPositive(levels[..|levels| - 1]);
    }
  }

  ghost predicate FlowInRange(s: Snapshot) {
    && -1.0 <= s.flowImbalance <= 1.0 && 0.0 <= s.aggressorRatio <= 1.0
    && s.buyPressure >= 0.0 && s.sellPressure >= 0.0 && s.signedVolume == s.buyPressure - s.sellPressure
  }

  ghost predicate BookInRange(s: Snapshot, m: KernelState)
    requires m.Valid()
  {
    && -1.0 <= s.queueImbalance <= 1.0 && -1.0 <= s.bookImbalance <= 1.0
    && m.bids[0].price < s.microprice < m.asks[0].price
  }

  lemma {:induction false} WindowOneSided(inputs: seq<Input>, flow: seq<Stamped<Flow>>, cutoff: int)
    requires flow == Since(AllFlow(inputs), cutoff)
    ensures OneSided(flow)
  {
    AllFlowOneSided(inputs);
    SinceMembers(AllFlow(inputs), cutoff);
    forall i | 0 <= i < |flow| ensures OneSidedItem(flow[i].value) {
      assert flow[i] in AllFlow(inputs);
    }
  }

  lemma {:induction false} FlowRatios(c: Config, inputs: seq<Input>, flow: seq<Stamped<Flow>>, cutoff: int)
    requires flow == Since(AllFlow(inputs), cutoff)
    ensures BuySum(flow) >= 0.0 && SellSum(flow) >= 0.0 && SignedSum(flow) == BuySum(flow) - SellSum(flow)
    ensures -1.0 <= Ratio(SignedSum(flow), BuySum(flow) + SellSum(flow), 0.0) <= 1.0
    ensures 0.0 <= Ratio(BuySum(flow), BuySum(flow) + SellSum(flow), 0.5) <= 1.0
  {
    WindowOneSided(inputs, flow, cutoff);
    SumsAgree(flow);
    RatioBounds(BuySum(flow), SellSum(flow));
  }

  lemma {:induction false} DepthPositive(levels: seq<Level>, n: nat)
    requires forall i | 0 <= i < |levels| :: ValidLevel(levels[i])
    ensures SizeOf(LiveAssembler.Take(levels, n)) >= 0.0
  {
    SizesPositive(LiveAssembler.Take(levels, n));
  }

  /** The imbalances of any reported snapshot are in range and its microprice is strictly inside the spread. */
  lemma {:induction false} BookRatiosInRange(c: Config, s: State, m: KernelState, computed: Option<nat>)
    requires c.Valid() && m.Valid()
    ensures BookInRange(SnapshotOf(c, s, m, computed), m)
  {
    ImbalanceBounds(m.bids[0].size, m.asks[0].size);
    DepthPositive(m.bids, c.depthLevels);
    DepthPositive(m.asks, c.depthLevels);
    ImbalanceBounds(SizeOf(LiveAssembler.Take(m.bids, c.depthLevels)), SizeOf(LiveAssembler.Take(m.asks, c.depthLevels)));
    MicropriceBetween(m.bids[0], m.asks[0]);
  }

  lemma {:induction false} FlowReported(c: Config, inputs: seq<Input>, s: State, m: KernelState, computed: Option<nat>)
    requires c.Valid() && m.Valid() && TracksFlow(c, inputs, s)
    ensures FlowInRange(SnapshotOf(c, s, m, computed))
  {
    FlowRatios(c, inputs, s.flow, Now(inputs) - c.flowWindow);
  }

  /** After any run the reported flow ratios are in their ranges. */
  lemma {:induction false} FlowRatiosInRange(c: Config, inputs: seq<Input>, m: KernelState, computed: Option<nat>, log: real -> real)
    requires c.Valid() && m.Valid() && Increasing(inputs)
    ensures FlowInRange(SnapshotOf(c, Run(c, inputs, log), m, computed))
  {
    WindowsAreFilters(c, inputs, log);
    FlowReported(c, inputs, Run(c, inputs, log), m, computed);
  }

  // ----- behind the live assembler -----

  predicate AllValid(states: seq<KernelState>) { forall i | 0 <= i < |states| :: states[i].Valid() }

  function InputsOf(states: seq<KernelState>): seq<Input>
    requires AllValid(states)
  {
    seq(|states|, i requires 0 <= i < |states| => InputOf(states[i]))
  }

  lemma {:induction false} OldestInAge(ts: nat, trades: seq<KernelTrade>, observed: nat, maximumAge: nat)
    requires ts + maximumAge >= observed && forall i | 0 <= i < |trades| :: trades[i].exchangeTs + maximumAge >= observed
    ensures Oldest(ts, trades) + maximumAge >= observed
  {
    if trades != [] {
      OldestInAge(ts, trades[..|trades| - 1], observed, maximumAge);
    }
  }

  lemma {:induction false} SpacedIncrease(states: seq<KernelState>, minimumInterval: nat)
    requires AllValid(states) && LiveAssembler.Spaced(states, minimumInterval) && minimumInterval > 0
    ensures Increasing(InputsOf(states))
  {
  }

  lemma {:induction false} SpacedPrefix(states: seq<KernelState>, minimumInterval: nat, k: nat)
    requires LiveAssembler.Spaced(states, minimumInterval) && k <= |states|
    ensures LiveAssembler.Spaced(states[..k], minimumInterval)
  {
  }

  lemma {:induction false} SuitableAreValid(states: seq<KernelState>, maximumAge: nat)
    requires LiveAssembler.EachSuits(states, maximumAge)
    ensures AllValid(states)
  {
    forall i | 0 <= i < |states| ensures states[i].Valid() {
      assert LiveAssembler.Suits(states, i, maximumAge);
    }
  }

  lemma {:induction false} PrefixValid(states: seq<KernelState>, k: nat)
    requires AllValid(states) && k <= |states|
    ensures AllValid(states[..k])
  {
  }

  /** A suitable next state passes the engine's checks. */
  lemma {:induction false} SuitableIsAccepted(c: Config, states: seq<KernelState>, k: nat, s: State)
    requires k < |states| && AllValid(states[..k]) && states[k].Valid()
    requires LiveAssembler.Suits(states, k, c.maximumAge) && TracksLast(InputsOf(states[..k]), s)
    ensures Check(c, s, InputOf(states[k]), None) == None
  {
    OldestInAge(states[k].bookExchangeTs, states[k].trades, states[k].observedTs, c.maximumAge);
  }

  /** The engine accepts every state the live assembler emits, when both use the same age limit. */
  lemma {:induction false} AcceptsLiveStates(c: Config, live: LiveAssembler.Config, events: seq<Event>, log: real -> real, k: nat)
    requires c.Valid() && live.Valid() && LiveAssembler.Ordered(events) && c.maximumAge == live.maximumAge
    requires k < |LiveAssembler.Run(live, events).1|
    ensures var states := LiveAssembler.Run(live, events).1;
            && AllValid(states)
            && Check(c, Run(c, InputsOf(states[..k]), log), InputOf(states[k]), None) == None
  {
    LiveAssembler.EmittedStatesMeetTheNextStage(live, events);
    var states := LiveAssembler.Run(live, events).1;
    SuitableAreValid(states, c.maximumAge);
    PrefixValid(states, k);
    SpacedPrefix(states, live.minimumInterval, k);
    SpacedIncrease(states[..k], live.minimumInterval);
    WindowsAreFilters(c, InputsOf(states[..k]), log);
    assert LiveAssembler.Suits(states, k, c.maximumAge);
    SuitableIsAccepted(c, states, k, Run(c, InputsOf(states[..k]), log));
  }

  // ----- the engine object -----

  class IncrementalFeatureEngine {
    const config: Config
    const log: real -> real
    var flow: seq<Stamped<Flow>>
    var midpoints: seq<Stamped<Positive>>
    var moves: seq<Stamped<Return>>
    var spreads: seq<Stamped<real>>
    var pendingMarkouts: seq<Stamped<Signed>>
    var markouts: seq<Stamped<real>>
    var lastReceive: Option<nat>
    var lastMid: Option<Positive>
    var samples: nat

    ghost function View(): State
      reads this
    {
      State(flow, midpoints, moves, spreads, pendingMarkouts, markouts, lastReceive, lastMid, samples)
    }

    constructor (config: Config, log: real -> real)
      requires config.Valid()
      ensures View() == INITIAL && this.config == config && this.log == log
    {
      this.config, this.log := config, log;
      flow, midpoints, moves, spreads, pendingMarkouts, markouts := [], [], [], [], [], [];
      lastReceive, lastMid, samples := None, None, 0;
    }

    /** Append what the trades of one state add to the flow and to the pending markouts. */
    method AddTrades(m: Input)
      modifies this`flow, this`pendingMarkouts
      ensures flow == old(flow) + FlowItems(m.trades, m.ts)
      ensures pendingMarkouts == old(pendingMarkouts) + SignedItems(m.trades, m.ts)
    {
      for i := 0 to |m.trades|
        invariant flow == old(flow) + FlowItems(m.trades[..i], m.ts)
        invariant pendingMarkouts == old(pendingMarkouts) + SignedItems(m.trades[..i], m.ts)
      {
        var t := m.trades[i];
        assert m.trades[..i + 1][..i] == m.trades[..i];
        var sign := SideOf(t.aggressor);
        flow := flow + [Stamped(m.ts, Flow(if sign > 0.0 then t.size else 0.0, if sign < 0.0 then t.size else 0.0, sign * t.size))];
        if sign != 0.0 { pendingMarkouts := pendingMarkouts + [Stamped(m.ts, Signed(sign, t.price))]; }
      }
      assert m.trades[..|m.trades|] == m.trades;
    }

    /** Mark out, oldest first, every trade whose horizon has passed. */
    method ResolveMarkouts(now: nat, mid: Positive)
      modifies this`markouts, this`pendingMarkouts
      ensures var (done, rest) := Resolve(old(pendingMarkouts), now, mid, config.markoutHorizon);
              markouts == old(markouts) + done && pendingMarkouts == rest
    {
      ghost var spec := Resolve(pendingMarkouts, now, mid, config.markoutHorizon);
      while pendingMarkouts != [] && pendingMarkouts[0].ts + config.markoutHorizon <= now
        invariant markouts + Resolve(pendingMarkouts, now, mid, config.markoutHorizon).0 == old(markouts) + spec.0
        invariant Resolve(pendingMarkouts, now, mid, config.markoutHorizon).1 == spec.1
        decreases |pendingMarkouts|
      {
        var pending := pendingMarkouts[0];
        pendingMarkouts := pendingMarkouts[1..];
        markouts := markouts + [Stamped(now, MarkoutOf(pending, mid))];
      }
    }

    method SlideFlow(m: Input)
      modifies this`flow, this`pendingMarkouts
      ensures flow == NextFlow(config, old(flow), m)
      ensures pendingMarkouts == old(pendingMarkouts) + SignedItems(m.trades, m.ts)
    {
      AddTrades(m);
      flow := Expired(flow, m.ts - config.flowWindow);
    }

    method SlidePrices(m: Input)
      modifies this`moves, this`midpoints, this`spreads
      ensures moves == NextMoves(config, old(moves), lastMid, m, log)
      ensures midpoints == NextMids(config, old(midpoints), m)
      ensures spreads == NextSpreads(config, old(spreads), m)
    {
      assert moves + [] == moves;
      if lastMid.Some? { moves := moves + [Stamped(m.ts, Moved(lastMid.value, m.mid, log))]; }
      midpoints := midpoints + [Stamped(m.ts, m.mid)];
      spreads := spreads + [Stamped(m.ts, m.spreadBps)];
      moves := Expired(moves, m.ts - config.volatilityWindow);
      midpoints := Expired(midpoints, m.ts - config.volatilityWindow);
      spreads := Expired(spreads, m.ts - config.spreadWindow);
    }

    method SlideMarkouts(m: Input)
      modifies this`markouts, this`pendingMarkouts
      ensures var (done, rest) := Resolve(old(pendingMarkouts), m.ts, m.mid, config.markoutHorizon);
              markouts == NextMarkouts(config, old(markouts), done, m) && pendingMarkouts == rest
    {
      ResolveMarkouts(m.ts, m.mid);
      markouts := Expired(markouts, m.ts - config.volatilityWindow);
    }

    /** Move every window on to the next input. */
    method Slide(m: Input)
      modifies this
      ensures View() == Advance(config, old(View()), m, log)
    {
      SlideFlow(m);
      SlidePrices(m);
      SlideMarkouts(m);
      samples := samples + 1;
      lastReceive, lastMid := Some(m.ts), Some(m.mid);
    }

    method Update(m: KernelState, computed: Option<nat>) returns (r: Result<Snapshot, Error>)
      requires config.Valid() && m.Valid()
      modifies this
      ensures var problem := Check(config, old(View()), InputOf(m), computed);
              if problem.Some? then r == Err(problem.value) && View() == old(View())
              else View() == Advance(config, old(View()), InputOf(m), log)
                   && r == Ok(SnapshotOf(config, View(), m, computed))
    {
      var input := InputOf(m);
      if lastReceive.Some? && m.observedTs <= lastReceive.value { return Err(NotIncreasing); }
      if computed.Some? && computed.value < m.observedTs { return Err(ComputedBeforeReceipt); }
      if m.observedTs - input.oldest > config.maximumAge { return Err(InputTooOld); }
      Slide(input);
      return Ok(SnapshotOf(config, State(flow, midpoints, moves, spreads, pendingMarkouts, markouts, lastReceive, lastMid, samples),
                           m, computed));
    }
  }

  /** Drop the items older than the cutoff from the front of a deque. */
  method Expired<T>(window: seq<Stamped<T>>, cutoff: int) returns (kept: seq<Stamped<T>>)
    ensures kept == PopOld(window, cutoff)
  {
    kept := window;
    while kept != [] && kept[0].ts < cutoff
      invariant PopOld(kept, cutoff) == PopOld(window, cutoff)
      decreases |kept|
    {
      kept := kept[1..];
    }
  }
}
