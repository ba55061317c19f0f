/**
 Support, resistance, breaks of structure, sweeps, gaps and order blocks read
 from closed bars, and the proof that the bullish and the bearish reading are
 mirror images of each other.
 */
module MarketStructure {
  import opened Wrappers
  import opened Candles

  datatype Direction = Bullish | Bearish | Neutral

  datatype Zone = Premium | Discount | Equilibrium | UnknownZone

  datatype Range = Range(lower: real, upper: real)

  datatype Structure = Structure(
    direction: Direction, zone: Zone,
    support: Option<real>, resistance: Option<real>,
    bullishBos: bool, bearishBos: bool,
    bullishChoch: bool, bearishChoch: bool,
    bullishSweep: bool, bearishSweep: bool,
    bullishGap: Option<Range>, bearishGap: Option<Range>,
    bullishBlock: Option<Range>, bearishBlock: Option<Range>)

  // ----- confirmed pivots -----

  /** Strictly above every neighbour within `span` bars on both sides. */
  predicate IsSwingHigh(bars: seq<Candle>, i: int, span: nat) {
    0 <= i - span && i + span < |bars| && forall k | i - span <= k <= i + span && k != i :: bars[i].high > bars[k].high
  }

  predicate IsSwingLow(bars: seq<Candle>, i: int, span: nat) {
    0 <= i - span && i + span < |bars| && forall k | i - span <= k <= i + span && k != i :: bars[i].low < bars[k].low
  }

  /** The swing highs among the first `n` positions, in order. */
  function SwingHighs(bars: seq<Candle>, span: nat, n: nat): seq<Candle>
    requires n <= |bars|
  {
    if n == 0 then []
    else SwingHighs(bars, span, n - 1) + if IsSwingHigh(bars, n - 1, span) then [bars[n - 1]] else []
  }

  function SwingLows(bars: seq<Candle>, span: nat, n: nat): seq<Candle>
    requires n <= |bars|
  {
    if n == 0 then []
    else SwingLows(bars, span, n - 1) + if IsSwingLow(bars, n - 1, span) then [bars[n - 1]] else []
  }

  lemma {:induction false} NoEdgePivots(bars: seq<Candle>, span: nat, n: nat)
    requires n <= |bars| && n <= span
    ensures SwingHighs(bars, span, n) == [] && SwingLows(bars, span, n) == []
  {
    if n > 0 {
      NoEdgePivots(bars, span, n - 1);
    }
  }

  lemma {:induction false} NoTailPivots(bars: seq<Candle>, span: nat, m: nat, n: nat)
    requires m <= n <= |bars| && m + span >= |bars|
    ensures SwingHighs(bars, span, n) == SwingHighs(bars, span, m)
    ensures SwingLows(bars, span, n) == SwingLows(bars, span, m)
  {
    if m < n {
      NoTailPivots(bars, span, m, n - 1);
    }
  }

  predicate AllLower(candidate: Candle, others: seq<Candle>) {
    forall bar | bar in others :: candidate.high > bar.high
  }

  predicate AllHigher(candidate: Candle, others: seq<Candle>) {
    forall bar | bar in others :: candidate.low < bar.low
  }

  lemma {:induction false} Neighborhood(bars: seq<Candle>, i: nat, span: nat)
    requires span <= i && i + span < |bars|
    ensures var neighbors := bars[i - span..i] + bars[i + 1..i + span + 1];
            && (IsSwingHigh(bars, i, span) <==> AllLower(bars[i], neighbors))
            && (IsSwingLow(bars, i, span) <==> AllHigher(bars[i], neighbors))
  {
    var neighbors := bars[i - span..i] + bars[i + 1..i + span + 1];
    forall k | i - span <= k <= i + span && k != i ensures bars[k] in neighbors {
      if k < i {
        assert neighbors[k - (i - span)] == bars[k];
      } else {
        assert neighbors[k - (i - span) - 1] == bars[k];
      }
    }
    forall bar | bar in neighbors ensures exists k :: i - span <= k <= i + span && k != i && bars[k] == bar {
      var j :| 0 <= j < |neighbors| && neighbors[j] == bar;
      var k := if j < span then i - span + j else i - span + j + 1;
      assert bars[k] == bar;
    }
  }

  /** The pivot loop only visits positions with a full neighbourhood and misses no pivot. */
  method ConfirmedPivots(bars: seq<Candle>, span: nat) returns (highs: seq<Candle>, lows: seq<Candle>)
    ensures highs == SwingHighs(bars, span, |bars|) && lows == SwingLows(bars, span, |bars|)
  {
    highs, lows := [], [];
    if |bars| < 2 * span {
      NoEdgePivots(bars, span, if span < |bars| then span else |bars|);
      NoTailPivots(bars, span, if span < |bars| then span else |bars|, |bars|);
      return;
    }
    NoEdgePivots(bars, span, span);
    for index := span to |bars| - span
      invariant highs == SwingHighs(bars, span, index) && lows == SwingLows(bars, span, index)
    {
      var candidate := bars[index];
      var neighbors := bars[index - span..index] + bars[index + 1..index + span + 1];
      Neighborhood(bars, index, span);
      if AllLower(candidate, neighbors) {
        highs := highs + [candidate];
      }
      if AllHigher(candidate, neighbors) {
        lows := lows + [candidate];
      }
    }
    NoTailPivots(bars, span, |bars| - span, |bars|);
  }

  // ----- levels, direction and zone -----

  function HighestHigh(bars: seq<Candle>): Option<real> {
    if bars == [] then None
    else if |bars| == 1 then Some(bars[0].high)
    else Some(MaxR(HighestHigh(bars[..|bars| - 1]).value, bars[|bars| - 1].high))
  }

  function LowestLow(bars: seq<Candle>): Option<real> {
    if bars == [] then None
    else if |bars| == 1 then Some(bars[0].low)
    else Some(MinR(LowestLow(bars[..|bars| - 1]).value, bars[|bars| - 1].low))
  }

  function Resistance(prior: seq<Candle>, highs: seq<Candle>): Option<real> {
    if highs != [] then Some(highs[|highs| - 1].high) else HighestHigh(LastN(prior, 10))
  }

  function Support(prior: seq<Candle>, lows: seq<Candle>): Option<real> {
    if lows != [] then Some(lows[|lows| - 1].low) else LowestLow(LastN(prior, 10))
  }

  function SwingDirection(highs: seq<Candle>, lows: seq<Candle>): Direction {
    if |highs| < 2 || |lows| < 2 then Neutral
    else
      var high, oldHigh := highs[|highs| - 1].high, highs[|highs| - 2].high;
      var low, oldLow := lows[|lows| - 1].low, lows[|lows| - 2].low;
      if high > oldHigh && low > oldLow then Bullish
      else if high < oldHigh && low < oldLow then Bearish
      else Neutral
  }

  function CloseDirection(bars: seq<Candle>): Direction {
    if |bars| < 3 then Neutral
    else if bars[|bars| - 1].close > bars[|bars| - 3].close then Bullish
    else if bars[|bars| - 1].close < bars[|bars| - 3].close then Bearish
    else Neutral
  }

  /** The swings decide when they agree; otherwise the last closes do. */
  function DirectionOf(bars: seq<Candle>, highs: seq<Candle>, lows: seq<Candle>): Direction {
    var swings := SwingDirection(highs, lows);
    if swings != Neutral then swings else CloseDirection(bars)
  }

  function ZoneOf(close: real, support: Option<real>, resistance: Option<real>, bandFraction: real): Zone {
    if support.None? || resistance.None? || resistance.value <= support.value then UnknownZone
    else
      var equilibrium := (support.value + resistance.value) / 2.0;
      var band := (resistance.value - support.value) * bandFraction;
      if close < equilibrium - band then Discount
      else if close > equilibrium + band then Premium
      else Equilibrium
  }

  /** The most recent bar that closed below (or above) its open. */
  function LastOpposite(bars: seq<Candle>, falling: bool): Option<Candle> {
    if bars == [] then None
    else
      var bar := bars[|bars| - 1];
      if (if falling then bar.close < bar.open else bar.close > bar.open) then Some(bar)
      else LastOpposite(bars[..|bars| - 1], falling)
  }

  function BlockOf(bar: Option<Candle>): Option<Range> {
    if bar.None? then None else Some(Range(bar.value.low, bar.value.high))
  }

  const NO_STRUCTURE := Structure(Neutral, UnknownZone, None, None,
    false, false, false, false, false, false, None, None, None, None)

  /** What the latest bar does against the levels, the bar two before it and the last opposite bars. */
  function Read(
    latest: Candle, first: Option<Candle>, direction: Direction, support: Option<real>, resistance: Option<real>,
    lastFalling: Option<Candle>, lastRising: Option<Candle>, bandFraction: real): Structure
  {
    var bullishBos := resistance.Some? && latest.close > resistance.value;
    var bearishBos := support.Some? && latest.close < support.value;
    Structure(
      direction, ZoneOf(latest.close, support, resistance, bandFraction), support, resistance,
      bullishBos, bearishBos,
      bullishBos && direction == Bearish, bearishBos && direction == Bullish,
      support.Some? && latest.low < support.value <= latest.close,
      resistance.Some? && latest.high > resistance.value >= latest.close,
      if first.Some? && latest.low > first.value.high then Some(Range(first.value.high, latest.low)) else None,
      if first.Some? && latest.high < first.value.low then Some(Range(latest.high, first.value.low)) else None,
      if bullishBos then BlockOf(lastFalling) else None,
      if bearishBos then BlockOf(lastRising) else None)
  }

  function Analyze(bars: seq<Candle>, span: nat, bandFraction: real): Structure {
    if bars == [] then NO_STRUCTURE
    else
      var latest, prior := bars[|bars| - 1], bars[..|bars| - 1];
      var highs, lows := SwingHighs(prior, span, |prior|), SwingLows(prior, span, |prior|);
      Read(latest, if |bars| >= 3 then Some(bars[|bars| - 3]) else None,
           DirectionOf(prior, highs, lows), Support(prior, lows), Resistance(prior, highs),
           LastOpposite(LastN(prior, 8), true), LastOpposite(LastN(prior, 8), false), bandFraction)
  }

  // ----- reflection -----

  /** Every price p becomes c - p, so highs and lows trade places. */
  function Mirror(bar: Candle, c: real): Candle {
    bar.(open := c - bar.open, high := c - bar.low, low := c - bar.high, close := c - bar.close)
  }

  function MirrorAll(bars: seq<Candle>, c: real): seq<Candle> {
    seq(|bars|, i requires 0 <= i < |bars| => Mirror(bars[i], c))
  }

  function MirrorBar(bar: Option<Candle>, c: real): Option<Candle> {
    if bar.None? then None else Some(Mirror(bar.value, c))
  }

  lemma {:induction false} MirrorSnoc(bars: seq<Candle>, bar: Candle, c: real)
    ensures MirrorAll(bars + [bar], c) == MirrorAll(bars, c) + [Mirror(bar, c)]
  {
  }

  function MirrorLevel(level: Option<real>, c: real): Option<real> {
    if level.None? then None else Some(c - level.value)
  }

  function MirrorRange(range: Option<Range>, c: real): Option<Range> {
    if range.None? then None else Some(Range(c - range.value.upper, c - range.value.lower))
  }

  function Opposite(direction: Direction): Direction {
    match direction case Bullish => Bearish case Bearish => Bullish case Neutral => Neutral
  }

  function OppositeZone(zone: Zone): Zone {
    match zone case Premium => Discount case Discount => Premium case Equilibrium => zone case UnknownZone => zone
  }

  function MirrorStructure(s: Structure, c: real): Structure {
    Structure(
      Opposite(s.direction), OppositeZone(s.zone),
      MirrorLevel(s.resistance, c), MirrorLevel(s.support, c),
      s.bearishBos, s.bullishBos, s.bearishChoch, s.bullishChoch, s.bearishSweep, s.bullishSweep,
      MirrorRange(s.bearishGap, c), MirrorRange(s.bullishGap, c),
      MirrorRange(s.bearishBlock, c), MirrorRange(s.bullishBlock, c))
  }

  lemma {:induction false} PivotMirrors(bars: seq<Candle>, c: real, i: int, span: nat)
    ensures IsSwingHigh(MirrorAll(bars, c), i, span) <==> IsSwingLow(bars, i, span)
    ensures IsSwingLow(MirrorAll(bars, c), i, span) <==> IsSwingHigh(bars, i, span)
  {
    var mirrored := MirrorAll(bars, c);
    if 0 <= i - span && i + span < |bars| {
      assert forall k | i - span <= k <= i + span ::
          mirrored[k].high == c - bars[k].low && mirrored[k].low == c - bars[k].high;
    }
  }

  /** Swing highs of the reflection are the reflected swing lows, and the other way round. */
  lemma {:induction false} SwingsMirror(bars: seq<Candle>, c: real, span: nat, n: nat)
    requires n <= |bars|
    ensures SwingHighs(MirrorAll(bars, c), span, n) == MirrorAll(SwingLows(bars, span, n), c)
    ensures SwingLows(MirrorAll(bars, c), span, n) == MirrorAll(SwingHighs(bars, span, n), c)
  {
    if n > 0 {
      SwingsMirror(bars, c, span, n - 1);
      PivotMirrors(bars, c, n - 1, span);
      MirrorSnoc(SwingLows(bars, span, n - 1), bars[n - 1], c);
      MirrorSnoc(SwingHighs(bars, span, n - 1), bars[n - 1], c);
    }
  }

  lemma {:induction false} ExtremesMirror(bars: seq<Candle>, c: real)
    ensures HighestHigh(MirrorAll(bars, c)) == MirrorLevel(LowestLow(bars), c)
    ensures LowestLow(MirrorAll(bars, c)) == MirrorLevel(HighestHigh(bars), c)
  {
    if |bars| > 1 {
      var init := bars[..|bars| - 1];
      ExtremesMirror(init, c);
      MirrorSnoc(init, bars[|bars| - 1], c);
      assert bars == init + [bars[|bars| - 1]];
    }
  }

  lemma {:induction false} OppositeBarMirrors(bars: seq<Candle>, c: real, falling: bool)
    ensures LastOpposite(MirrorAll(bars, c), falling) == MirrorBar(LastOpposite(bars, !falling), c)
  {
    if bars != [] {
      var init := bars[..|bars| - 1];
      OppositeBarMirrors(init, c, falling);
      assert MirrorAll(bars, c)[..|bars| - 1] == MirrorAll(init, c);
    }
  }

  /** Equilibrium and band of a reflected dealing range. */
  lemma {:induction false} BandMirrors(s: real, r: real, bandFraction: real, c: real)
    requires s <= r && bandFraction >= 0.0
    ensures ((c - r) + (c - s)) / 2.0 == c - (s + r) / 2.0
    ensures ((c - s) - (c - r)) * bandFraction == (r - s) * bandFraction >= 0.0
  {
    assert (c - s) - (c - r) == r - s;
  }

  lemma {:induction false} ZoneByBand(close: real, s: real, r: real, bandFraction: real, middle: real, band: real)
    requires r > s && middle == (s + r) / 2.0 && band == (r - s) * bandFraction
    ensures ZoneOf(close, Some(s), Some(r), bandFraction)
         == if close < middle - band then Discount else if close > middle + band then Premium else Equilibrium
  {
  }

  lemma {:induction false} ZoneMirrors(close: real, support: Option<real>, resistance: Option<real>, bandFraction: real, c: real)
    requires bandFraction >= 0.0
    ensures ZoneOf(c - close, MirrorLevel(resistance, c), MirrorLevel(support, c), bandFraction)
         == OppositeZone(ZoneOf(close, support, resistance, bandFraction))
  {
    if support.Some? && resistance.Some? && resistance.value > support.value {
      var s, r := support.value, resistance.value;
      var middle, band := (s + r) / 2.0, (r - s) * bandFraction;
      BandMirrors(s, r, bandFraction, c);
      ZoneByBand(close, s, r, bandFraction, middle, band);
      ZoneByBand(c - close, c - r, c - s, bandFraction, c - middle, band);
    }
  }

  lemma {:induction false} LastNMirrors(bars: seq<Candle>, c: real, n: nat)
    ensures LastN(MirrorAll(bars, c), n) == MirrorAll(LastN(bars, n), c)
  {
  }

  lemma {:induction false} SwingDirectionMirrors(highs: seq<Candle>, lows: seq<Candle>, c: real)
    ensures SwingDirection(MirrorAll(lows, c), MirrorAll(highs, c)) == Opposite(SwingDirection(highs, lows))
  {
  }

  lemma {:induction false} CloseDirectionMirrors(bars: seq<Candle>, c: real)
    ensures CloseDirection(MirrorAll(bars, c)) == Opposite(CloseDirection(bars))
  {
  }

  lemma {:induction false} ReadMirrors(
    latest: Candle, first: Option<Candle>, direction: Direction, support: Option<real>, resistance: Option<real>,
    lastFalling: Option<Candle>, lastRising: Option<Candle>, bandFraction: real, c: real)
    requires bandFraction >= 0.0
    ensures Read(Mirror(latest, c), MirrorBar(first, c), Opposite(direction),
                 MirrorLevel(resistance, c), MirrorLevel(support, c),
                 MirrorBar(lastRising, c), MirrorBar(lastFalling, c), bandFraction)
         == MirrorStructure(Read(latest, first, direction, support, resistance, lastFalling, lastRising, bandFraction), c)
  {
    ZoneMirrors(latest.close, support, resistance, bandFraction, c);
  }

  lemma {:induction false} LevelMirrors(prior: seq<Candle>, highs: seq<Candle>, lows: seq<Candle>, c: real)
    ensures Resistance(MirrorAll(prior, c), MirrorAll(lows, c)) == MirrorLevel(Support(prior, lows), c)
    ensures Support(MirrorAll(prior, c), MirrorAll(highs, c)) == MirrorLevel(Resistance(prior, highs), c)
  {
    LastNMirrors(prior, c, 10);
    ExtremesMirror(LastN(prior, 10), c);
  }

  lemma {:induction false} DirectionMirrors(prior: seq<Candle>, highs: seq<Candle>, lows: seq<Candle>, c: real)
    ensures DirectionOf(MirrorAll(prior, c), MirrorAll(lows, c), MirrorAll(highs, c))
         == Opposite(DirectionOf(prior, highs, lows))
  {
    SwingDirectionMirrors(highs, lows, c);
    CloseDirectionMirrors(prior, c);
  }

  lemma {:induction false} LevelsMirror(prior: seq<Candle>, span: nat, c: real)
    ensures var mirrored := MirrorAll(prior, c);
            var highs, lows := SwingHighs(prior, span, |prior|), SwingLows(prior, span, |prior|);
            && SwingHighs(mirrored, span, |prior|) == MirrorAll(lows, c)
            && SwingLows(mirrored, span, |prior|) == MirrorAll(highs, c)
            && Resistance(mirrored, MirrorAll(lows, c)) == MirrorLevel(Support(prior, lows), c)
            && Support(mirrored, MirrorAll(highs, c)) == MirrorLevel(Resistance(prior, highs), c)
            && DirectionOf(mirrored, MirrorAll(lows, c), MirrorAll(highs, c)) == Opposite(DirectionOf(prior, highs, lows))
  {
    SwingsMirror(prior, c, span, |prior|);
    LevelMirrors(prior, SwingHighs(prior, span, |prior|), SwingLows(prior, span, |prior|), c);
    DirectionMirrors(prior, SwingHighs(prior, span, |prior|), SwingLows(prior, span, |prior|), c);
  }

  /** Main result: analysing the reflected bars is reflecting the analysis. */
  lemma {:induction false} AnalysisIsMirrorSymmetric(bars: seq<Candle>, span: nat, bandFraction: real, c: real)
    requires bandFraction >= 0.0
    ensures Analyze(MirrorAll(bars, c), span, bandFraction) == MirrorStructure(Analyze(bars, span, bandFraction), c)
  {
    if bars != [] {
      var latest, prior := bars[|bars| - 1], bars[..|bars| - 1];
      var mirrored := MirrorAll(bars, c);
      assert mirrored[..|bars| - 1] == MirrorAll(prior, c);
      LevelsMirror(prior, span, c);
      LastNMirrors(prior, c, 8);
      OppositeBarMirrors(LastN(prior, 8), c, true);
      OppositeBarMirrors(LastN(prior, 8), c, false);
      var highs, lows := SwingHighs(prior, span, |prior|), SwingLows(prior, span, |prior|);
      ReadMirrors(latest, if |bars| >= 3 then Some(bars[|bars| - 3]) else None,
                  DirectionOf(prior, highs, lows), Support(prior, lows), Resistance(prior, highs),
                  LastOpposite(LastN(prior, 8), true), LastOpposite(LastN(prior, 8), false), bandFraction, c);
    }
  }

  // ----- confluence -----

  function Points(condition: bool, points: nat): nat { if condition then points else 0 }

  /** What one timeframe offers to one side. */
  datatype View = View(agrees: bool, sweep: bool, bos: bool, choch: bool, gap: bool, cheap: bool)

  function ViewOf(s: Structure, bullish: bool): View {
    if bullish
    then View(s.direction == Bullish, s.bullishSweep, s.bullishBos, s.bullishChoch, s.bullishGap.Some?, s.zone == Discount)
    else View(s.direction == Bearish, s.bearishSweep, s.bearishBos, s.bearishChoch, s.bearishGap.Some?, s.zone == Premium)
  }

  function ScoreViews(one: View, five: View, fifteen: View, near: bool): nat {
    var total :=
      Points(fifteen.agrees, 3) + Points(five.agrees, 1) + Points(five.sweep, 2) + Points(five.bos, 1)
      + Points(five.cheap, 1) + Points(near, 1)
      + Points(one.sweep, 2) + (if one.choch then 2 else Points(one.bos, 1)) + Points(one.agrees, 1) + Points(one.gap, 1);
    if total < 20 then total else 20
  }

  /** The basis-point distance of a close from a level; without either there is no level to be near. */
  predicate Near(price: Option<real>, level: Option<real>, limitBps: real)
    requires price.Some? ==> price.value > 0.0
  {
    price.Some? && level.Some?
    && (if price.value < level.value then level.value - price.value else price.value - level.value)
       / price.value * 10000.0 <= limitBps
  }

  /** `near` is the basis-point test of the five-minute close against its level. */
  function Score(bullish: bool, one: Structure, five: Structure, fifteen: Structure, near: bool): nat {
    ScoreViews(ViewOf(one, bullish), ViewOf(five, bullish), ViewOf(fifteen, bullish), near)
  }

  /** A structure offers the bulls what its reflection offers the bears, and the other way round. */
  lemma {:induction false} ViewMirrors(s: Structure, c: real, bullish: bool)
    ensures ViewOf(MirrorStructure(s, c), !bullish) == ViewOf(s, bullish)
  {
  }

  /** The long score of a market is the short score of its reflection, for the same near-level outcome. */
  lemma {:induction false} ConfluenceMirrors(
    one: seq<Candle>, five: seq<Candle>, fifteen: seq<Candle>, span: nat, bandFraction: real, c: real, near: bool,
    bullish: bool)
    requires bandFraction >= 0.0
    ensures Score(bullish, Analyze(one, span, bandFraction), Analyze(five, span, bandFraction),
                  Analyze(fifteen, span, bandFraction), near)
         == Score(!bullish, Analyze(MirrorAll(one, c), span, bandFraction), Analyze(MirrorAll(five, c), span, bandFraction),
                  Analyze(MirrorAll(fifteen, c), span, bandFraction), near)
  {
    AnalysisIsMirrorSymmetric(one, span, bandFraction, c);
    AnalysisIsMirrorSymmetric(five, span, bandFraction, c);
    AnalysisIsMirrorSymmetric(fifteen, span, bandFraction, c);
    ViewMirrors(Analyze(one, span, bandFraction), c, bullish);
    ViewMirrors(Analyze(five, span, bandFraction), c, bullish);
    ViewMirrors(Analyze(fifteen, span, bandFraction), c, bullish);
  }
}
