/**
 Causal candles: three timeframes built incrementally from locally observed
 market states.  `UpdateTimeframe` is the per-observation step; the engine class
 rebinds its state once per observation, and restoring a saved state
 quarantines every partial candle.
 */
module Candles {
  import opened Wrappers
  import opened Market

  const NANOSECONDS_PER_SECOND: nat := 1_000_000_000

  datatype Timeframe = OneMinute | FiveMinutes | FifteenMinutes
  {
    function Duration(): nat {
      match this
      case OneMinute => 60 * NANOSECONDS_PER_SECOND
      case FiveMinutes => 300 * NANOSECONDS_PER_SECOND
      case FifteenMinutes => 900 * NANOSECONDS_PER_SECOND
    }
  }

  datatype Candle = Candle(
    openTs: nat, closeTs: nat,
    open: real, high: real, low: real, close: real,
    volume: real, signedVolume: real, count: nat)

  /** Start of the time bucket that holds `ts`. */
  function BucketStart(ts: nat, frame: Timeframe): nat {
    match frame
    case OneMinute => ts / 60_000_000_000 * 60_000_000_000
    case FiveMinutes => ts / 300_000_000_000 * 300_000_000_000
    case FifteenMinutes => ts / 900_000_000_000 * 900_000_000_000
  }

  /** One observation: its time, its prices (the midpoint, then each trade) and its traded volume. */
  datatype Obs = Obs(ts: nat, prices: seq<real>, volume: real, signedVolume: real)

  /** The same observation as one timeframe sees it: only the start of its bucket matters. */
  datatype Tick = Tick(start: nat, prices: seq<real>, volume: real, signedVolume: real)

  function InFrame(o: Obs, frame: Timeframe): Tick {
    Tick(BucketStart(o.ts, frame), o.prices, o.volume, o.signedVolume)
  }

  datatype BarState = BarState(duration: nat, current: Option<Candle>, valid: bool, closed: seq<Candle>)

  function TradePrices(trades: seq<KernelTrade>): seq<real> {
    seq(|trades|, i requires 0 <= i < |trades| => trades[i].price)
  }

  function Volume(trades: seq<KernelTrade>): real {
    if trades == [] then 0.0 else Volume(trades[..|trades| - 1]) + trades[|trades| - 1].size
  }

  function SignedVolume(trades: seq<KernelTrade>): real {
    if trades == [] then 0.0
    else
      var last := trades[|trades| - 1];
      SignedVolume(trades[..|trades| - 1])
      + match last.aggressor
        case Buyer => last.size
        case Seller => -last.size
        case Unattributed => 0.0
  }

  function Observe(market: KernelState): (o: Obs)
    requires market.Valid()
    ensures o.prices != []
  {
    Obs(market.observedTs,
        [(market.bids[0].price + market.asks[0].price) / 2.0] + TradePrices(market.trades),
        Volume(market.trades), SignedVolume(market.trades))
  }

  /** The total size of the trades with this aggressor. */
  ghost function SizeBy(trades: seq<KernelTrade>, aggressor: Aggressor): real {
    if trades == [] then 0.0
    else (if trades[0].aggressor == aggressor then trades[0].size else 0.0) + SizeBy(trades[1..], aggressor)
  }

  lemma {:induction false} SizeSnoc(trades: seq<KernelTrade>, t: KernelTrade, aggressor: Aggressor)
    ensures SizeBy(trades + [t], aggressor) == SizeBy(trades, aggressor) + if t.aggressor == aggressor then t.size else 0.0
  {
    if trades == [] {
      assert [t][1..] == [];
    } else {
      SizeSnoc(trades[1..], t, aggressor);
      assert (trades + [t])[1..] == trades[1..] + [t];
    }
  }

  lemma {:induction false} VolumesMean(trades: seq<KernelTrade>)
    ensures Volume(trades) == SizeBy(trades, Buyer) + SizeBy(trades, Seller) + SizeBy(trades, Unattributed)
    ensures SignedVolume(trades) == SizeBy(trades, Buyer) - SizeBy(trades, Seller)
  {
    if trades != [] {
      var init, t := trades[..|trades| - 1], trades[|trades| - 1];
      VolumesMean(init);
      assert trades == init + [t];
      SizeSnoc(init, t, Buyer);
      SizeSnoc(init, t, Seller);
      SizeSnoc(init, t, Unattributed);
    }
  }

  /**
   What one market state contributes: the midpoint and then every trade price,
   the traded size, and what buyers traded over what sellers did.
   */
  lemma {:induction false} ObserveMeans(market: KernelState)
    requires market.Valid()
    ensures var o := Observe(market);
            && o.ts == market.observedTs && |o.prices| == 1 + |market.trades|
            && o.prices[0] - market.bids[0].price == market.asks[0].price - o.prices[0]
            && (forall i | 0 <= i < |market.trades| :: o.prices[1 + i] == market.trades[i].price)
            && o.volume == SizeBy(market.trades, Buyer) + SizeBy(market.trades, Seller) + SizeBy(market.trades, Unattributed)
            && o.signedVolume == SizeBy(market.trades, Buyer) - SizeBy(market.trades, Seller)
  {
    VolumesMean(market.trades);
  }

  function MaxR(a: real, b: real): real { if a < b then b else a }

  function MinR(a: real, b: real): real { if b < a then b else a }

  function Highest(prices: seq<real>): real
    requires prices != []
  {
    if |prices| == 1 then prices[0] else MaxR(Highest(prices[..|prices| - 1]), prices[|prices| - 1])
  }

  function Lowest(prices: seq<real>): real
    requires prices != []
  {
    if |prices| == 1 then prices[0] else MinR(Lowest(prices[..|prices| - 1]), prices[|prices| - 1])
  }

  /** A fresh candle holding one observation. */
  function OpenCandle(o: Tick, duration: nat): Candle
    requires o.prices != []
  {
    Candle(o.start, o.start + duration, o.prices[0], Highest(o.prices), Lowest(o.prices), o.prices[|o.prices| - 1],
           o.volume, o.signedVolume, 1)
  }

  function Extend(c: Candle, o: Tick): Candle
    requires o.prices != []
  {
    c.(high := MaxR(c.high, Highest(o.prices)),
       low := MinR(c.low, Lowest(o.prices)),
       close := o.prices[|o.prices| - 1],
       volume := c.volume + o.volume,
       signedVolume := c.signedVolume + o.signedVolume,
       count := c.count + 1)
  }

  /** The last `n` elements: Python's `s[-n:]` for positive n. */
  function LastN<T>(s: seq<T>, n: nat): seq<T> {
    if |s| <= n then s else s[|s| - n..]
  }

  /** What is kept are the newest `n` elements, in their order. */
  lemma {:induction false} LastNMeans<T>(s: seq<T>, n: nat)
    ensures var kept := LastN(s, n);
            && |kept| == (if n < |s| then n else |s|)
            && forall i | 0 <= i < |kept| :: kept[i] == s[|s| - |kept| + i]
  {
  }

  /** One observation applied to one timeframe; the flag says whether a bar closed. */
  function UpdateTimeframe(s: BarState, o: Tick, maximum: nat): (BarState, bool)
    requires o.prices != []
  {
    if s.current.None? || s.current.value.openTs != o.start then
      var closes := s.current.Some? && s.valid;
      var closed := if closes then LastN(s.closed + [s.current.value], maximum) else s.closed;
      (BarState(s.duration, Some(OpenCandle(o, s.duration)), true, closed), closes)
    else
      (s.(current := Some(Extend(s.current.value, o))), false)
  }

  const TIMEFRAMES: seq<Timeframe> := [OneMinute, FiveMinutes, FifteenMinutes]

  datatype StructureState = StructureState(revision: nat, lastTs: Option<nat>, frames: seq<BarState>)
  {
    predicate Valid() {
      && |frames| == 3
      && frames[0].duration == OneMinute.Duration()
      && frames[1].duration == FiveMinutes.Duration()
      && frames[2].duration == FifteenMinutes.Duration()
    }
  }

  const FRESH: StructureState := StructureState(0, None, [
    BarState(OneMinute.Duration(), None, true, []),
    BarState(FiveMinutes.Duration(), None, true, []),
    BarState(FifteenMinutes.Duration(), None, true, [])])

  /** A crash can truncate a candle, so a restore marks every current one invalid. */
  function Quarantine(s: BarState): BarState { s.(valid := false) }

  function Restore(saved: StructureState): StructureState
    requires saved.Valid()
  {
    saved.(frames := [Quarantine(saved.frames[0]), Quarantine(saved.frames[1]), Quarantine(saved.frames[2])])
  }

  function FrameUpdate(s: StructureState, o: Obs, i: nat, maximum: nat): (BarState, bool)
    requires s.Valid() && o.prices != [] && i < 3
  {
    UpdateTimeframe(s.frames[i], InFrame(o, TIMEFRAMES[i]), maximum)
  }

  function UpdateState(s: StructureState, o: Obs, maximum: nat): (r: StructureState)
    requires s.Valid() && o.prices != []
    ensures r.Valid()
  {
    var (one, a) := FrameUpdate(s, o, 0, maximum);
    var (five, b) := FrameUpdate(s, o, 1, maximum);
    var (fifteen, c) := FrameUpdate(s, o, 2, maximum);
    StructureState(s.revision + if a || b || c then 1 else 0, Some(o.ts), [one, five, fifteen])
  }

  /** The first `|next|` timeframes are updated, and `closed` says whether any of them closed a bar. */
  ghost predicate UpdatedSoFar(s: StructureState, o: Obs, maximum: nat, next: seq<BarState>, closed: bool)
    requires s.Valid() && o.prices != []
  {
    && |next| <= 3
    && (forall j | 0 <= j < |next| :: next[j] == FrameUpdate(s, o, j, maximum).0)
    && (closed <==> exists j :: 0 <= j < |next| && FrameUpdate(s, o, j, maximum).1)
  }

  lemma {:induction false} UpdatedAll(s: StructureState, o: Obs, maximum: nat, next: seq<BarState>, closed: bool)
    requires s.Valid() && o.prices != [] && |next| == 3 && UpdatedSoFar(s, o, maximum, next, closed)
    ensures StructureState(s.revision + if closed then 1 else 0, Some(o.ts), next) == UpdateState(s, o, maximum)
  {
    assert next == [FrameUpdate(s, o, 0, maximum).0, FrameUpdate(s, o, 1, maximum).0, FrameUpdate(s, o, 2, maximum).0];
  }

  class CausalMarketStructureEngine {
    const maximum: nat
    var state: StructureState

    constructor (maximum: nat, restored: Option<StructureState>)
      requires restored.Some? ==> restored.value.Valid()
      ensures this.maximum == maximum && state.Valid()
      ensures state == if restored.None? then FRESH else Restore(restored.value)
    {
      this.maximum := maximum;
      state := if restored.None? then FRESH else Restore(restored.value);
    }

    /** Refuses a time that does not advance and otherwise updates every timeframe exactly once. */
    method Update(market: KernelState) returns (ok: bool)
      requires state.Valid() && market.Valid()
      modifies this
      ensures state.Valid()
      ensures ok <==> (old(state).lastTs.None? || old(state).lastTs.value < market.observedTs)
      ensures state == if ok then UpdateState(old(state), Observe(market), maximum) else old(state)
    {
      if state.lastTs.Some? && market.observedTs <= state.lastTs.value { return false; }
      var o := Observe(market);
      var next: seq<BarState> := [];
      var closedAny := false;
      for i := 0 to 3
        invariant |next| == i && UpdatedSoFar(state, o, maximum, next, closedAny)
      {
        var (updated, closed) := FrameUpdate(state, o, i, maximum);
        next := next + [updated];
        closedAny := closedAny || closed;
      }
      UpdatedAll(state, o, maximum, next, closedAny);
      state := StructureState(state.revision + if closedAny then 1 else 0, Some(o.ts), next);
      return true;
    }
  }
}
