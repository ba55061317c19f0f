/**
 What the reported features mean: every ratio, sum and mean of a snapshot told
 from the prices, sizes and sides of the states the engine has seen.
 */
module FeatureMeaning {
  import opened Wrappers
  import opened Market
  import opened FeatureWindows
  import opened FeatureEngine
  import LiveAssembler

  // ----- signed flow -----

  /** The size that one side traded aggressively. */
  ghost function SizeBy(trades: seq<ValidTrade>, side: Aggressor): real {
    if trades == [] then 0.0 else (if trades[0].aggressor == side then trades[0].size else 0.0) + SizeBy(trades[1..], side)
  }

  /** What one side traded aggressively in the inputs observed at `cutoff` or later. */
  ghost function TradedSince(inputs: seq<Input>, cutoff: int, side: Aggressor): real {
    if inputs == [] then 0.0
    else
      var m := inputs[|inputs| - 1];
      TradedSince(inputs[..|inputs| - 1], cutoff, side) + if m.ts >= cutoff then SizeBy(m.trades, side) else 0.0
  }

  lemma {:induction false} SizeSnoc(trades: seq<ValidTrade>, side: Aggressor)
    requires trades != []
    ensures SizeBy(trades, side)
            == SizeBy(trades[..|trades| - 1], side)
               + if trades[|trades| - 1].aggressor == side then trades[|trades| - 1].size else 0.0
  {
    if |trades| > 1 {
      SizeSnoc(trades[1..], side);
      assert trades[1..][..|trades| - 2] == trades[..|trades| - 1][1..];
    }
  }

  lemma {:induction false} SumsConcat(a: seq<Stamped<Flow>>, b: seq<Stamped<Flow>>)
    ensures BuySum(a + b) == BuySum(a) + BuySum(b) && SellSum(a + b) == SellSum(a) + SellSum(b)
  {
    if b == [] {
      assert a + b == a;
    } else {
      SumsConcat(a, b[..|b| - 1]);
      assert (a + b)[..|a + b| - 1] == a + b[..|b| - 1];
    }
  }

  lemma {:induction false} ItemSums(trades: seq<ValidTrade>, now: nat)
    ensures BuySum(FlowItems(trades, now)) == SizeBy(trades, Buyer)
    ensures SellSum(FlowItems(trades, now)) == SizeBy(trades, Seller)
  {
    if trades != [] {
      ItemSums(trades[..|trades| - 1], now);
      SizeSnoc(trades, Buyer);
      SizeSnoc(trades, Seller);
    }
  }

  lemma {:induction false} NoneSince<T>(items: seq<Stamped<T>>, cutoff: int)
    requires forall i | 0 <= i < |items| :: items[i].ts < cutoff
    ensures Since(items, cutoff) == []
  {
    if items != [] {
      NoneSince(items[1..], cutoff);
    }
  }

  lemma {:induction false} FlowSums(inputs: seq<Input>, cutoff: int)
    ensures BuySum(Since(AllFlow(inputs), cutoff)) == TradedSince(inputs, cutoff, Buyer)
    ensures SellSum(Since(AllFlow(inputs), cutoff)) == TradedSince(inputs, cutoff, Seller)
  {
    if inputs != [] {
      var init, m := inputs[..|inputs| - 1], inputs[|inputs| - 1];
      var items := FlowItems(m.trades, m.ts);
      FlowSums(init, cutoff);
      ItemSums(m.trades, m.ts);
      ItemsStamped(m.trades, m.ts);
      SinceConcat(AllFlow(init), items, cutoff);
      SumsConcat(Since(AllFlow(init), cutoff), Since(items, cutoff));
      if m.ts >= cutoff {
        SinceAll(items, cutoff);
      } else {
        NoneSince(items, cutoff);
      }
    }
  }

  // ----- ratios -----

  /** `x` is `part` of `total`. */
  predicate Fraction(x: real, part: real, total: real) { x * total == part }

  lemma {:induction false} QuotientIs(part: real, total: real)
    requires total != 0.0
    ensures Fraction(part / total, part, total)
  {
  }

  lemma {:induction false} PositiveExactlyWhen(x: real, part: real, total: real)
    requires Fraction(x, part, total) && total > 0.0
    ensures (x > 0.0 <==> part > 0.0) && (x == 0.0 <==> part == 0.0)
  {
    if part > 0.0 {
      Factor(x, total);
    } else {
      NotPositive(x, total);
    }
  }

  /** The total size of the first `n` levels. */
  ghost function SizeUpTo(levels: seq<Level>, n: nat): real
    requires n <= |levels|
  {
    if n == 0 then 0.0 else SizeUpTo(levels, n - 1) + levels[n - 1].size
  }

  ghost function Depth(c: Config, levels: seq<Level>): real {
    SizeUpTo(levels, if c.depthLevels < |levels| then c.depthLevels else |levels|)
  }

  lemma {:induction false} SizeOfPrefix(levels: seq<Level>, n: nat)
    requires n <= |levels|
    ensures SizeOf(levels[..n]) == SizeUpTo(levels, n)
  {
    if n > 0 {
      SizeOfPrefix(levels, n - 1);
      assert levels[..n][..n - 1] == levels[..n - 1];
    }
  }

  lemma {:induction false} SomeDepth(levels: seq<Level>, n: nat)
    requires 0 < n <= |levels| && forall i | 0 <= i < |levels| :: ValidLevel(levels[i])
    ensures SizeUpTo(levels, n) > 0.0
  {
    if n > 1 {
      SomeDepth(levels, n - 1);
    }
  }

  lemma {:induction false} DepthIs(c: Config, levels: seq<Level>)
    requires c.Valid() && levels != [] && forall i | 0 <= i < |levels| :: ValidLevel(levels[i])
    ensures SizeOf(LiveAssembler.Take(levels, c.depthLevels)) == Depth(c, levels) > 0.0
  {
    var n := if c.depthLevels < |levels| then c.depthLevels else |levels|;
    SizeOfPrefix(levels, n);
    SomeDepth(levels, n);
    assert levels[..|levels|] == levels;
  }

  /** The imbalance is the surplus of the bid over both sides: positive exactly when the bid is larger. */
  ghost predicate Surplus(x: real, bid: real, ask: real) {
    Fraction(x, bid - ask, bid + ask) && (x > 0.0 <==> bid > ask) && (x == 0.0 <==> bid == ask)
  }

  lemma {:induction false} ImbalanceIs(bid: real, ask: real)
    requires bid > 0.0 && ask > 0.0
    ensures Surplus(Imbalance(bid, ask), bid, ask)
  {
    QuotientIs(bid - ask, bid + ask);
    PositiveExactlyWhen(Imbalance(bid, ask), bid - ask, bid + ask);
  }

  lemma {:induction false} HeavierSide(price: real, bid: Level, ask: Level)
    requires ValidLevel(bid) && ValidLevel(ask) && bid.price < ask.price
    requires price * (bid.size + ask.size) == ask.price * bid.size + bid.price * ask.size
    ensures price > (bid.price + ask.price) / 2.0 <==> bid.size > ask.size
  {
    var total, gap := bid.size + ask.size, ask.price - bid.price;
    var mid := (bid.price + ask.price) / 2.0;
    assert (price - mid) * total == gap * (bid.size - ask.size) / 2.0;
    if bid.size > ask.size {
      Product(gap, bid.size - ask.size);
      Factor(price - mid, total);
    } else {
      assert gap * (bid.size - ask.size) <= 0.0 by {
        if bid.size < ask.size {
          Product(gap, ask.size - bid.size);
          assert gap * (bid.size - ask.size) == -(gap * (ask.size - bid.size));
        }
      }
      NotPositive(price - mid, total);
    }
  }

  /** The microprice weighs each quote by the size on the other side, so it leans away from the larger one. */
  lemma {:induction false} MicropriceLeans(bid: Level, ask: Level)
    requires ValidLevel(bid) && ValidLevel(ask) && bid.price < ask.price
    ensures Microprice(bid, ask) * (bid.size + ask.size) == ask.price * bid.size + bid.price * ask.size
    ensures Microprice(bid, ask) > (bid.price + ask.price) / 2.0 <==> bid.size > ask.size
  {
    HeavierSide(Microprice(bid, ask), bid, ask);
  }

  // ----- markouts and returns -----

  /** A trade with a known aggressor: plus one for a buyer and minus one for a seller, at the trade's price. */
  ghost function SidedOne(t: ValidTrade, now: nat): seq<Stamped<Signed>> {
    match t.aggressor
    case Buyer => [Stamped(now, Signed(1.0, t.price))]
    case Seller => [Stamped(now, Signed(-1.0, t.price))]
    case Unattributed => []
  }

  ghost function Sided(trades: seq<ValidTrade>, now: nat): seq<Stamped<Signed>> {
    if trades == [] then [] else SidedOne(trades[0], now) + Sided(trades[1..], now)
  }

  lemma {:induction false} SidedSnoc(trades: seq<ValidTrade>, t: ValidTrade, now: nat)
    ensures Sided(trades + [t], now) == Sided(trades, now) + SidedOne(t, now)
  {
    if trades == [] {
      assert [t][1..] == [];
    } else {
      SidedSnoc(trades[1..], t, now);
      assert (trades + [t])[1..] == trades[1..] + [t];
      assert SidedOne(trades[0], now) + (Sided(trades[1..], now) + SidedOne(t, now))
          == SidedOne(trades[0], now) + Sided(trades[1..], now) + SidedOne(t, now);
    }
  }

  /** What waits to be marked out are the sided trades of the inputs, in order. */
  lemma {:induction false} SignedIsSided(trades: seq<ValidTrade>, now: nat)
    ensures SignedItems(trades, now) == Sided(trades, now)
  {
    if trades != [] {
      var init, t := trades[..|trades| - 1], trades[|trades| - 1];
      SignedIsSided(init, now);
      SidedSnoc(init, t, now);
      assert trades == init + [t];
    }
  }

  /** A markout is the move of the mid in the trade's direction, in ten-thousandths of its price. */
  lemma {:induction false} MarkoutIs(t: Stamped<Signed>, mid: Positive)
    requires t.value.side == 1.0 || t.value.side == -1.0
    ensures var gain := if t.value.side == 1.0 then mid - t.value.price else t.value.price - mid;
            Fraction(MarkoutOf(t, mid), 10_000.0 * gain, t.value.price) && (MarkoutOf(t, mid) > 0.0 <==> gain > 0.0)
  {
    var gain := if t.value.side == 1.0 then mid - t.value.price else t.value.price - mid;
    assert t.value.side * (mid - t.value.price) == gain;
    assert MarkoutOf(t, mid) * t.value.price == 10_000.0 * gain;
    PositiveExactlyWhen(MarkoutOf(t, mid), 10_000.0 * gain, t.value.price);
  }

  /** The return from one mid to the next: its logarithm, and the size of the move as a part of the later mid. */
  ghost predicate Return(last: Positive, mid: Positive, log: real -> real, r: FeatureWindows.Return) {
    && r.logReturn == log(mid / last)
    && Fraction(r.move, if last < mid then mid - last else last - mid, mid)
  }

  lemma {:induction false} MovedIs(last: Positive, mid: Positive, log: real -> real)
    ensures Return(last, mid, log, Moved(last, mid, log))
  {
    var x: real := mid - last;
    QuotientIs(Abs(x), mid);
  }

  /** Each input but the first records its return against the one before it. */
  lemma {:induction false} MovesAre(inputs: seq<Input>, log: real -> real)
    ensures |AllMoves(inputs, log)| == if inputs == [] then 0 else |inputs| - 1
    ensures forall i | 0 <= i < |AllMoves(inputs, log)| ::
              && AllMoves(inputs, log)[i].ts == inputs[i + 1].ts
              && Return(inputs[i].mid, inputs[i + 1].mid, log, AllMoves(inputs, log)[i].value)
  {
    if |inputs| > 1 {
      MovesAre(inputs[..|inputs| - 1], log);
      MovedIs(inputs[|inputs| - 2].mid, inputs[|inputs| - 1].mid, log);
    }
  }

  // ----- the whole snapshot -----

  /** `oldest` is the earliest exchange time a state rests on. */
  ghost predicate Earliest(m: KernelState, oldest: nat) {
    && oldest <= m.bookExchangeTs && (forall i | 0 <= i < |m.trades| :: oldest <= m.trades[i].exchangeTs)
    && (oldest == m.bookExchangeTs || exists i :: 0 <= i < |m.trades| && m.trades[i].exchangeTs == oldest)
  }

  lemma {:induction false} OldestIsEarliest(m: KernelState, trades: seq<KernelTrade>)
    requires trades <= m.trades
    ensures var oldest := Oldest(m.bookExchangeTs, trades);
            && oldest <= m.bookExchangeTs && (forall i | 0 <= i < |trades| :: oldest <= trades[i].exchangeTs)
            && (oldest == m.bookExchangeTs || exists i :: 0 <= i < |trades| && trades[i].exchangeTs == oldest)
  {
    if trades != [] {
      var init := trades[..|trades| - 1];
      OldestIsEarliest(m, init);
      var before := Oldest(m.bookExchangeTs, init);
      if before <= trades[|trades| - 1].exchangeTs && before != m.bookExchangeTs {
        var i :| 0 <= i < |init| && init[i].exchangeTs == before;
        assert trades[i].exchangeTs == Oldest(m.bookExchangeTs, trades);
      }
    }
  }

  ghost predicate SpreadMeans(bid: Level, ask: Level, mid: real, spreadBps: real) {
    mid == (bid.price + ask.price) / 2.0 && Fraction(spreadBps, 10_000.0 * (ask.price - bid.price), mid)
  }

  ghost predicate Weighted(bid: Level, ask: Level, price: real) {
    price * (bid.size + ask.size) == ask.price * bid.size + bid.price * ask.size
  }

  ghost predicate QuotesMean(c: Config, m: KernelState, s: Snapshot)
    requires m.Valid()
  {
    && SpreadMeans(m.bids[0], m.asks[0], s.mid, s.spreadBps)
    && Weighted(m.bids[0], m.asks[0], s.microprice)
    && Surplus(s.queueImbalance, m.bids[0].size, m.asks[0].size)
    && Surplus(s.bookImbalance, Depth(c, m.bids), Depth(c, m.asks))
  }

  lemma {:induction false} SpreadIs(m: KernelState)
    requires m.Valid()
    ensures SpreadMeans(m.bids[0], m.asks[0], InputOf(m).mid, InputOf(m).spreadBps)
  {
    var gap, mid := m.asks[0].price - m.bids[0].price, InputOf(m).mid;
    QuotientIs(gap, mid);
    assert gap / mid * 10_000.0 * mid == gap / mid * mid * 10_000.0;
  }

  lemma {:induction false} MicropriceIs(bid: Level, ask: Level)
    requires ValidLevel(bid) && ValidLevel(ask) && bid.price < ask.price
    ensures Weighted(bid, ask, Microprice(bid, ask))
  {
    MicropriceLeans(bid, ask);
  }

  /** Which quantities the snapshot reports for the book. */
  lemma {:induction false} QuoteFields(c: Config, s: State, m: KernelState, computed: Option<nat>)
    requires c.Valid() && m.Valid()
    ensures var r := SnapshotOf(c, s, m, computed);
            && r.mid == InputOf(m).mid && r.spreadBps == InputOf(m).spreadBps
            && r.microprice == Microprice(m.bids[0], m.asks[0])
            && r.queueImbalance == Imbalance(m.bids[0].size, m.asks[0].size)
            && r.bookImbalance == Imbalance(Depth(c, m.bids), Depth(c, m.asks))
  {
    DepthIs(c, m.bids);
    DepthIs(c, m.asks);
  }

  /** The prices and imbalances of any reported snapshot are those of the state's own book. */
  lemma {:induction false} QuotesAre(c: Config, s: State, m: KernelState, computed: Option<nat>)
    requires c.Valid() && m.Valid()
    ensures QuotesMean(c, m, SnapshotOf(c, s, m, computed))
  {
    QuoteFields(c, s, m, computed);
    DepthIs(c, m.bids);
    DepthIs(c, m.asks);
    SpreadIs(m);
    MicropriceIs(m.bids[0], m.asks[0]);
    ImbalanceIs(m.bids[0].size, m.asks[0].size);
    ImbalanceIs(Depth(c, m.bids), Depth(c, m.asks));
  }

  /** `bought` and `sold` are the aggressive sizes inside the flow window. */
  ghost predicate FlowMeans(s: Snapshot, bought: real, sold: real) {
    && s.buyPressure == bought && s.sellPressure == sold && s.signedVolume == bought - sold
    && (bought + sold == 0.0 ==> s.flowImbalance == 0.0 && s.aggressorRatio == 0.5)
    && (bought + sold != 0.0 ==>
          Fraction(s.flowImbalance, bought - sold, bought + sold) && Fraction(s.aggressorRatio, bought, bought + sold))
  }

  lemma {:induction false} FlowAre(c: Config, inputs: seq<Input>, s: State, m: KernelState, computed: Option<nat>)
    requires c.Valid() && m.Valid() && TracksFlow(c, inputs, s)
    ensures var cutoff := Now(inputs) - c.flowWindow;
            FlowMeans(SnapshotOf(c, s, m, computed), TradedSince(inputs, cutoff, Buyer), TradedSince(inputs, cutoff, Seller))
  {
    var cutoff := Now(inputs) - c.flowWindow;
    FlowSums(inputs, cutoff);
    WindowOneSided(inputs, s.flow, cutoff);
    SumsAgree(s.flow);
    var bought, sold := BuySum(s.flow), SellSum(s.flow);
    if bought + sold != 0.0 {
      QuotientIs(bought - sold, bought + sold);
      QuotientIs(bought, bought + sold);
    }
  }

  /** The mean of the markouts in their window, nothing when there are none. */
  ghost predicate MeanOf(x: real, values: seq<Stamped<real>>) {
    if values == [] then x == 0.0 else Fraction(x, Total(values), |values| as real)
  }

  ghost predicate Identified(c: Config, s: Snapshot, m: KernelState, computed: Option<nat>, count: nat) {
    && s.sequence == m.sequence && s.eventTs == m.exchangeTs && s.receiveTs == m.observedTs
    && s.computedTs == (if computed.Some? then computed.value else m.observedTs)
    && s.warmupCount == count && (s.ready <==> c.warmupSamples <= count)
  }

  lemma {:induction false} RestAre(c: Config, s: State, m: KernelState, computed: Option<nat>)
    requires c.Valid() && m.Valid()
    ensures MeanOf(SnapshotOf(c, s, m, computed).adverseSelectionBps, s.markouts)
    ensures Identified(c, SnapshotOf(c, s, m, computed), m, computed, s.samples)
  {
    if s.markouts != [] {
      QuotientIs(Total(s.markouts), |s.markouts| as real);
    }
  }

  lemma {:induction false} RunSnoc(c: Config, inputs: seq<Input>, m: Input, log: real -> real)
    ensures Run(c, inputs + [m], log) == Advance(c, Run(c, inputs, log), m, log)
    ensures Now(inputs + [m]) == m.ts
  {
    assert (inputs + [m])[..|inputs|] == inputs;
  }

  lemma {:induction false} Tracked(c: Config, inputs: seq<Input>, log: real -> real)
    requires c.Valid() && Increasing(inputs)
    ensures var s := Run(c, inputs, log);
            TracksFlow(c, inputs, s) && TracksMarkouts(c, inputs, s) && TracksLast(inputs, s)
  {
    WindowsAreFilters(c, inputs, log);
  }

  ghost predicate Means(c: Config, all: seq<Input>, m: KernelState, computed: Option<nat>, s: Snapshot)
    requires m.Valid()
  {
    var cutoff := m.observedTs - c.flowWindow;
    && QuotesMean(c, m, s)
    && FlowMeans(s, TradedSince(all, cutoff, Buyer), TradedSince(all, cutoff, Seller))
    && MeanOf(s.adverseSelectionBps, Since(Markouts(c, all), m.observedTs - c.volatilityWindow))
    && Identified(c, s, m, computed, |all|)
  }

  lemma {:induction false} StateMeans(c: Config, all: seq<Input>, s: State, m: KernelState, computed: Option<nat>)
    requires c.Valid() && m.Valid() && Now(all) == m.observedTs
    requires TracksFlow(c, all, s) && TracksMarkouts(c, all, s) && s.samples == |all|
    ensures Means(c, all, m, computed, SnapshotOf(c, s, m, computed))
  {
    QuotesAre(c, s, m, computed);
    FlowAre(c, all, s, m, computed);
    RestAre(c, s, m, computed);
  }

  /**
   What the engine reports for a state that it accepts after any inputs: the
   prices and imbalances are those of the state's own book, the flow is what was
   traded in the window that ends with it, and the adverse selection is the mean
   of the markouts made inside the volatility window.
   */
  lemma {:induction false} SnapshotMeans(c: Config, inputs: seq<Input>, m: KernelState, computed: Option<nat>, log: real -> real)
    requires c.Valid() && m.Valid() && Increasing(inputs + [InputOf(m)])
    ensures Means(c, inputs + [InputOf(m)], m, computed,
                  SnapshotOf(c, Advance(c, Run(c, inputs, log), InputOf(m), log), m, computed))
  {
    var all := inputs + [InputOf(m)];
    RunSnoc(c, inputs, InputOf(m), log);
    Tracked(c, all, log);
    StateMeans(c, all, Run(c, all, log), m, computed);
  }

  /** The reported input age is counted from the earliest exchange time the state rests on. */
  lemma {:induction false} AgeMeans(c: Config, s: State, m: KernelState, computed: Option<nat>)
    requires c.Valid() && m.Valid()
    ensures Earliest(m, InputOf(m).oldest) && SnapshotOf(c, s, m, computed).inputAge == m.observedTs - InputOf(m).oldest
  {
    OldestIsEarliest(m, m.trades);
  }

  lemma {:induction false} YoungExactlyWhen(m: KernelState, maximumAge: nat)
    requires m.Valid()
    ensures m.observedTs <= InputOf(m).oldest + maximumAge
            <==> m.observedTs <= m.bookExchangeTs + maximumAge
                 && forall i | 0 <= i < |m.trades| :: m.observedTs <= m.trades[i].exchangeTs + maximumAge
  {
    OldestIsEarliest(m, m.trades);
  }

  /** A state is accepted after any inputs exactly when it is newer, not computed before it was received, and young enough. */
  lemma {:induction false} AcceptsExactlyWhen(c: Config, inputs: seq<Input>, m: KernelState, computed: Option<nat>, log: real -> real)
    requires c.Valid() && m.Valid() && Increasing(inputs)
    ensures Check(c, Run(c, inputs, log), InputOf(m), computed).None?
            <==> && (inputs == [] || inputs[|inputs| - 1].ts < m.observedTs)
                 && (computed.None? || m.observedTs <= computed.value)
                 && m.observedTs <= m.bookExchangeTs + c.maximumAge
                 && forall i | 0 <= i < |m.trades| :: m.observedTs <= m.trades[i].exchangeTs + c.maximumAge
  {
    Tracked(c, inputs, log);
    YoungExactlyWhen(m, c.maximumAge);
  }
}
