/**
 What the structure analysis says about a list of closed bars, told from bar
 indices alone: which bar each level comes from, and exactly when each flag,
 gap, zone and order block is reported.  The latest bar is the last one; every
 other bar is a prior bar.
 */
module StructureReading {
  import opened Wrappers
  import opened Candles
  import opened MarketStructure

  // ----- swings and levels by index -----

  /** Bar `i` is a prior bar whose high exceeds that of every prior bar within `span` on both sides, all of which exist. */
  ghost predicate Peak(bars: seq<Candle>, span: nat, i: int) {
    span <= i && i + span < |bars| - 1 && forall k | i - span <= k <= i + span && k != i :: bars[k].high < bars[i].high
  }

  ghost predicate Trough(bars: seq<Candle>, span: nat, i: int) {
    span <= i && i + span < |bars| - 1 && forall k | i - span <= k <= i + span && k != i :: bars[k].low > bars[i].low
  }

  ghost predicate LastPeak(bars: seq<Candle>, span: nat, i: int) {
    Peak(bars, span, i) && forall k | i < k :: !Peak(bars, span, k)
  }

  ghost predicate LastTrough(bars: seq<Candle>, span: nat, i: int) {
    Trough(bars, span, i) && forall k | i < k :: !Trough(bars, span, k)
  }

  /** `i` is the last peak and `j` the one before it. */
  ghost predicate LastTwoPeaks(bars: seq<Candle>, span: nat, j: int, i: int) {
    LastPeak(bars, span, i) && j < i && Peak(bars, span, j) && forall k | j < k < i :: !Peak(bars, span, k)
  }

  ghost predicate LastTwoTroughs(bars: seq<Candle>, span: nat, j: int, i: int) {
    LastTrough(bars, span, i) && j < i && Trough(bars, span, j) && forall k | j < k < i :: !Trough(bars, span, k)
  }

  /** The last ten prior bars. */
  predicate Recent(bars: seq<Candle>, k: int) { 0 <= k < |bars| - 1 && |bars| - 11 <= k }

  /** The last peak's high; without a peak, the highest high of the last ten prior bars. */
  ghost predicate IsResistance(bars: seq<Candle>, span: nat, level: real) {
    || (exists i :: LastPeak(bars, span, i) && bars[i].high == level)
    || ((forall i :: !Peak(bars, span, i))
        && (exists k :: Recent(bars, k) && bars[k].high == level)
        && (forall k | Recent(bars, k) :: bars[k].high <= level))
  }

  ghost predicate IsSupport(bars: seq<Candle>, span: nat, level: real) {
    || (exists i :: LastTrough(bars, span, i) && bars[i].low == level)
    || ((forall i :: !Trough(bars, span, i))
        && (exists k :: Recent(bars, k) && bars[k].low == level)
        && (forall k | Recent(bars, k) :: bars[k].low >= level))
  }

  // ----- direction by index -----

  /** The last peak is higher than the one before it. */
  ghost predicate PeaksRise(bars: seq<Candle>, span: nat) {
    exists j, i {:trigger LastTwoPeaks(bars, span, j, i)} :: LastTwoPeaks(bars, span, j, i) && bars[i].high > bars[j].high
  }

  ghost predicate PeaksFall(bars: seq<Candle>, span: nat) {
    exists j, i {:trigger LastTwoPeaks(bars, span, j, i)} :: LastTwoPeaks(bars, span, j, i) && bars[i].high < bars[j].high
  }

  ghost predicate TroughsRise(bars: seq<Candle>, span: nat) {
    exists j, i {:trigger LastTwoTroughs(bars, span, j, i)} :: LastTwoTroughs(bars, span, j, i) && bars[i].low > bars[j].low
  }

  ghost predicate TroughsFall(bars: seq<Candle>, span: nat) {
    exists j, i {:trigger LastTwoTroughs(bars, span, j, i)} :: LastTwoTroughs(bars, span, j, i) && bars[i].low < bars[j].low
  }

  ghost predicate SwingsRise(bars: seq<Candle>, span: nat) { PeaksRise(bars, span) && TroughsRise(bars, span) }

  ghost predicate SwingsFall(bars: seq<Candle>, span: nat) { PeaksFall(bars, span) && TroughsFall(bars, span) }

  /** The market was rising before the latest bar. */
  ghost predicate Rising(bars: seq<Candle>, span: nat) {
    SwingsRise(bars, span)
    || (!SwingsFall(bars, span) && |bars| >= 4 && bars[|bars| - 2].close > bars[|bars| - 4].close)
  }

  ghost predicate Falling(bars: seq<Candle>, span: nat) {
    SwingsFall(bars, span)
    || (!SwingsRise(bars, span) && |bars| >= 4 && bars[|bars| - 2].close < bars[|bars| - 4].close)
  }

  // ----- the swing lists hold the peaks and troughs -----

  lemma {:induction false} PeakIsSwing(bars: seq<Candle>, span: nat, i: int)
    requires bars != []
    ensures Peak(bars, span, i) <==> IsSwingHigh(bars[..|bars| - 1], i, span)
    ensures Trough(bars, span, i) <==> IsSwingLow(bars[..|bars| - 1], i, span)
  {
  }

  /** Where each swing high of the first `n` positions sits. */
  lemma {:induction false} HighsAt(bars: seq<Candle>, span: nat, n: nat) returns (at: seq<nat>)
    requires n <= |bars|
    ensures |at| == |SwingHighs(bars, span, n)|
    ensures forall k | 0 <= k < |at| :: at[k] < n && IsSwingHigh(bars, at[k], span) && SwingHighs(bars, span, n)[k] == bars[at[k]]
    ensures forall k, l | 0 <= k < l < |at| :: at[k] < at[l]
    ensures forall i | 0 <= i < n && IsSwingHigh(bars, i, span) :: i in at
  {
    at := [];
    if n > 0 {
      at := HighsAt(bars, span, n - 1);
      if IsSwingHigh(bars, n - 1, span) {
        at := at + [n - 1];
      }
    }
  }

  lemma {:induction false} LowsAt(bars: seq<Candle>, span: nat, n: nat) returns (at: seq<nat>)
    requires n <= |bars|
    ensures |at| == |SwingLows(bars, span, n)|
    ensures forall k | 0 <= k < |at| :: at[k] < n && IsSwingLow(bars, at[k], span) && SwingLows(bars, span, n)[k] == bars[at[k]]
    ensures forall k, l | 0 <= k < l < |at| :: at[k] < at[l]
    ensures forall i | 0 <= i < n && IsSwingLow(bars, i, span) :: i in at
  {
    at := [];
    if n > 0 {
      at := LowsAt(bars, span, n - 1);
      if IsSwingLow(bars, n - 1, span) {
        at := at + [n - 1];
      }
    }
  }

  /** The positions of the peaks, oldest first. */
  lemma {:induction false} PeaksAt(bars: seq<Candle>, span: nat) returns (at: seq<nat>)
    requires bars != []
    ensures var found := SwingHighs(bars[..|bars| - 1], span, |bars| - 1);
            && |at| == |found| && (forall k | 0 <= k < |at| :: at[k] < |bars| - 1 && found[k] == bars[at[k]])
    ensures forall k, l | 0 <= k < l < |at| :: at[k] < at[l]
    ensures forall i :: Peak(bars, span, i) <==> i in at
  {
    var prior := bars[..|bars| - 1];
    at := HighsAt(prior, span, |prior|);
    forall i ensures Peak(bars, span, i) <==> i in at {
      PeakIsSwing(bars, span, i);
    }
  }

  lemma {:induction false} NoPeaks(bars: seq<Candle>, span: nat, i: int)
    requires bars != [] && SwingHighs(bars[..|bars| - 1], span, |bars| - 1) == []
    ensures !Peak(bars, span, i)
  {
    var at := PeaksAt(bars, span);
    assert i !in at;
  }

  lemma {:induction false} FindPeak(bars: seq<Candle>, span: nat) returns (i: int)
    requires bars != [] && SwingHighs(bars[..|bars| - 1], span, |bars| - 1) != []
    ensures var found := SwingHighs(bars[..|bars| - 1], span, |bars| - 1);
            LastPeak(bars, span, i) && bars[i] == found[|found| - 1]
  {
    var at := PeaksAt(bars, span);
    i := at[|at| - 1];
    assert i in at;
  }

  lemma {:induction false} FindTwoPeaks(bars: seq<Candle>, span: nat) returns (j: int, i: int)
    requires bars != [] && |SwingHighs(bars[..|bars| - 1], span, |bars| - 1)| >= 2
    ensures var found := SwingHighs(bars[..|bars| - 1], span, |bars| - 1);
            LastTwoPeaks(bars, span, j, i) && bars[j] == found[|found| - 2] && bars[i] == found[|found| - 1]
  {
    var at := PeaksAt(bars, span);
    j, i := at[|at| - 2], at[|at| - 1];
    assert j in at && i in at;
  }

  lemma {:induction false} FewPeaks(bars: seq<Candle>, span: nat, j: int, i: int)
    requires bars != [] && |SwingHighs(bars[..|bars| - 1], span, |bars| - 1)| < 2
    ensures !LastTwoPeaks(bars, span, j, i)
  {
    var at := PeaksAt(bars, span);
    assert Peak(bars, span, i) ==> i in at;
  }

  /** The positions of the troughs, oldest first. */
  lemma {:induction false} TroughsAt(bars: seq<Candle>, span: nat) returns (at: seq<nat>)
    requires bars != []
    ensures var found := SwingLows(bars[..|bars| - 1], span, |bars| - 1);
            && |at| == |found| && (forall k | 0 <= k < |at| :: at[k] < |bars| - 1 && found[k] == bars[at[k]])
    ensures forall k, l | 0 <= k < l < |at| :: at[k] < at[l]
    ensures forall i :: Trough(bars, span, i) <==> i in at
  {
    var prior := bars[..|bars| - 1];
    at := LowsAt(prior, span, |prior|);
    forall i ensures Trough(bars, span, i) <==> i in at {
      PeakIsSwing(bars, span, i);
    }
  }

  lemma {:induction false} NoTroughs(bars: seq<Candle>, span: nat, i: int)
    requires bars != [] && SwingLows(bars[..|bars| - 1], span, |bars| - 1) == []
    ensures !Trough(bars, span, i)
  {
    var at := TroughsAt(bars, span);
    assert i !in at;
  }

  lemma {:induction false} FindTrough(bars: seq<Candle>, span: nat) returns (i: int)
    requires bars != [] && SwingLows(bars[..|bars| - 1], span, |bars| - 1) != []
    ensures var found := SwingLows(bars[..|bars| - 1], span, |bars| - 1);
            LastTrough(bars, span, i) && bars[i] == found[|found| - 1]
  {
    var at := TroughsAt(bars, span);
    i := at[|at| - 1];
    assert i in at;
  }

  lemma {:induction false} FindTwoTroughs(bars: seq<Candle>, span: nat) returns (j: int, i: int)
    requires bars != [] && |SwingLows(bars[..|bars| - 1], span, |bars| - 1)| >= 2
    ensures var found := SwingLows(bars[..|bars| - 1], span, |bars| - 1);
            LastTwoTroughs(bars, span, j, i) && bars[j] == found[|found| - 2] && bars[i] == found[|found| - 1]
  {
    var at := TroughsAt(bars, span);
    j, i := at[|at| - 2], at[|at| - 1];
    assert j in at && i in at;
  }

  lemma {:induction false} FewTroughs(bars: seq<Candle>, span: nat, j: int, i: int)
    requires bars != [] && |SwingLows(bars[..|bars| - 1], span, |bars| - 1)| < 2
    ensures !LastTwoTroughs(bars, span, j, i)
  {
    var at := TroughsAt(bars, span);
    assert Trough(bars, span, i) ==> i in at;
  }

  // ----- levels -----

  lemma {:induction false} HighestMeans(bars: seq<Candle>)
    requires bars != []
    ensures HighestHigh(bars).Some?
    ensures exists k :: 0 <= k < |bars| && bars[k].high == HighestHigh(bars).value
    ensures forall k | 0 <= k < |bars| :: bars[k].high <= HighestHigh(bars).value
  {
    if |bars| == 1 {
      assert bars[0].high == HighestHigh(bars).value;
    } else {
      var init := bars[..|bars| - 1];
      HighestMeans(init);
      var k :| 0 <= k < |init| && init[k].high == HighestHigh(init).value;
      assert bars[if bars[|bars| - 1].high > init[k].high then |bars| - 1 else k].high == HighestHigh(bars).value;
    }
  }

  lemma {:induction false} LowestMeans(bars: seq<Candle>)
    requires bars != []
    ensures LowestLow(bars).Some?
    ensures exists k :: 0 <= k < |bars| && bars[k].low == LowestLow(bars).value
    ensures forall k | 0 <= k < |bars| :: bars[k].low >= LowestLow(bars).value
  {
    if |bars| == 1 {
      assert bars[0].low == LowestLow(bars).value;
    } else {
      var init := bars[..|bars| - 1];
      LowestMeans(init);
      var k :| 0 <= k < |init| && init[k].low == LowestLow(init).value;
      assert bars[if bars[|bars| - 1].low < init[k].low then |bars| - 1 else k].low == LowestLow(bars).value;
    }
  }

  lemma {:induction false} RecentBars(bars: seq<Candle>, k: int)
    requires Recent(bars, k)
    ensures var window := LastN(bars[..|bars| - 1], 10);
            0 <= k - (|bars| - 1 - |window|) < |window| && window[k - (|bars| - 1 - |window|)] == bars[k]
  {
  }

  lemma {:induction false} RecentExtremes(bars: seq<Candle>)
    requires |bars| >= 2
    ensures var window := LastN(bars[..|bars| - 1], 10);
            && HighestHigh(window).Some? && LowestLow(window).Some?
            && (exists k :: Recent(bars, k) && bars[k].high == HighestHigh(window).value)
            && (forall k | Recent(bars, k) :: bars[k].high <= HighestHigh(window).value)
            && (exists k :: Recent(bars, k) && bars[k].low == LowestLow(window).value)
            && (forall k | Recent(bars, k) :: bars[k].low >= LowestLow(window).value)
  {
    var window := LastN(bars[..|bars| - 1], 10);
    var start := |bars| - 1 - |window|;
    HighestMeans(window);
    LowestMeans(window);
    var h :| 0 <= h < |window| && window[h].high == HighestHigh(window).value;
    var l :| 0 <= l < |window| && window[l].low == LowestLow(window).value;
    assert Recent(bars, start + h) && bars[start + h] == window[h];
    assert Recent(bars, start + l) && bars[start + l] == window[l];
    forall k | Recent(bars, k) ensures bars[k].high <= HighestHigh(window).value && bars[k].low >= LowestLow(window).value {
      RecentBars(bars, k);
    }
  }

  lemma {:induction false} ResistanceUnique(bars: seq<Candle>, span: nat, a: real, b: real)
    requires IsResistance(bars, span, a) && IsResistance(bars, span, b)
    ensures a == b
  {
  }

  lemma {:induction false} SupportUnique(bars: seq<Candle>, span: nat, a: real, b: real)
    requires IsSupport(bars, span, a) && IsSupport(bars, span, b)
    ensures a == b
  {
  }

  lemma {:induction false} ResistanceIs(bars: seq<Candle>, span: nat)
    requires |bars| >= 2
    ensures var prior := bars[..|bars| - 1];
            var level := Resistance(prior, SwingHighs(prior, span, |prior|));
            level.Some? && IsResistance(bars, span, level.value)
  {
    if SwingHighs(bars[..|bars| - 1], span, |bars| - 1) == [] {
      forall i ensures !Peak(bars, span, i) {
        NoPeaks(bars, span, i);
      }
      RecentExtremes(bars);
    } else {
      var i := FindPeak(bars, span);
    }
  }

  lemma {:induction false} SupportIs(bars: seq<Candle>, span: nat)
    requires |bars| >= 2
    ensures var prior := bars[..|bars| - 1];
            var level := Support(prior, SwingLows(prior, span, |prior|));
            level.Some? && IsSupport(bars, span, level.value)
  {
    if SwingLows(bars[..|bars| - 1], span, |bars| - 1) == [] {
      forall i ensures !Trough(bars, span, i) {
        NoTroughs(bars, span, i);
      }
      RecentExtremes(bars);
    } else {
      var i := FindTrough(bars, span);
    }
  }

  lemma {:induction false} NoLevels(bars: seq<Candle>, span: nat, level: real)
    requires |bars| < 2
    ensures !IsResistance(bars, span, level) && !IsSupport(bars, span, level)
  {
  }

  /** The reported levels are exactly the ones the bars determine; there is none exactly while no prior bar exists. */
  lemma {:induction false} LevelsExactlyWhen(bars: seq<Candle>, span: nat, bandFraction: real, level: real)
    ensures Analyze(bars, span, bandFraction).resistance == Some(level) <==> IsResistance(bars, span, level)
    ensures Analyze(bars, span, bandFraction).support == Some(level) <==> IsSupport(bars, span, level)
    ensures Analyze(bars, span, bandFraction).resistance.Some? <==> |bars| >= 2
    ensures Analyze(bars, span, bandFraction).support.Some? <==> |bars| >= 2
  {
    if |bars| >= 2 {
      ResistanceIs(bars, span);
      SupportIs(bars, span);
      var s := Analyze(bars, span, bandFraction);
      if IsResistance(bars, span, level) {
        ResistanceUnique(bars, span, level, s.resistance.value);
      }
      if IsSupport(bars, span, level) {
        SupportUnique(bars, span, level, s.support.value);
      }
    } else {
      NoLevels(bars, span, level);
    }
  }

  // ----- direction -----

  lemma {:induction false} PeaksUnique(bars: seq<Candle>, span: nat, j: int, i: int, l: int, k: int)
    requires LastTwoPeaks(bars, span, j, i) && LastTwoPeaks(bars, span, l, k)
    ensures i == k && j == l
  {
  }

  lemma {:induction false} TroughsUnique(bars: seq<Candle>, span: nat, j: int, i: int, l: int, k: int)
    requires LastTwoTroughs(bars, span, j, i) && LastTwoTroughs(bars, span, l, k)
    ensures i == k && j == l
  {
  }

  lemma {:induction false} PeaksCompare(bars: seq<Candle>, span: nat)
    requires bars != []
    ensures var highs := SwingHighs(bars[..|bars| - 1], span, |bars| - 1);
            && (PeaksRise(bars, span) <==> |highs| >= 2 && highs[|highs| - 1].high > highs[|highs| - 2].high)
            && (PeaksFall(bars, span) <==> |highs| >= 2 && highs[|highs| - 1].high < highs[|highs| - 2].high)
  {
    var highs := SwingHighs(bars[..|bars| - 1], span, |bars| - 1);
    if |highs| >= 2 {
      var j, i := FindTwoPeaks(bars, span);
      forall l, k | LastTwoPeaks(bars, span, l, k) ensures l == j && k == i {
        PeaksUnique(bars, span, l, k, j, i);
      }
    } else {
      forall l, k ensures !LastTwoPeaks(bars, span, l, k) {
        FewPeaks(bars, span, l, k);
      }
    }
  }

  lemma {:induction false} TroughsCompare(bars: seq<Candle>, span: nat)
    requires bars != []
    ensures var lows := SwingLows(bars[..|bars| - 1], span, |bars| - 1);
            && (TroughsRise(bars, span) <==> |lows| >= 2 && lows[|lows| - 1].low > lows[|lows| - 2].low)
            && (TroughsFall(bars, span) <==> |lows| >= 2 && lows[|lows| - 1].low < lows[|lows| - 2].low)
  {
    var lows := SwingLows(bars[..|bars| - 1], span, |bars| - 1);
    if |lows| >= 2 {
      var j, i := FindTwoTroughs(bars, span);
      forall l, k | LastTwoTroughs(bars, span, l, k) ensures l == j && k == i {
        TroughsUnique(bars, span, l, k, j, i);
      }
    } else {
      forall l, k ensures !LastTwoTroughs(bars, span, l, k) {
        FewTroughs(bars, span, l, k);
      }
    }
  }

  lemma {:induction false} NoSwings(span: nat)
    ensures !PeaksRise([], span) && !PeaksFall([], span) && !TroughsRise([], span) && !TroughsFall([], span)
  {
  }

  /** The list of swing highs ends higher (or lower) than the one before, and so does the list of swing lows. */
  predicate ListsRise(highs: seq<Candle>, lows: seq<Candle>) {
    && |highs| >= 2 && highs[|highs| - 1].high > highs[|highs| - 2].high
    && |lows| >= 2 && lows[|lows| - 1].low > lows[|lows| - 2].low
  }

  predicate ListsFall(highs: seq<Candle>, lows: seq<Candle>) {
    && |highs| >= 2 && highs[|highs| - 1].high < highs[|highs| - 2].high
    && |lows| >= 2 && lows[|lows| - 1].low < lows[|lows| - 2].low
  }

  lemma {:induction false} DirectionRead(bars: seq<Candle>, highs: seq<Candle>, lows: seq<Candle>)
    requires bars != []
    ensures var n := |bars|;
            var direction := DirectionOf(bars[..n - 1], highs, lows);
            && (direction == Bullish
                <==> ListsRise(highs, lows)
                     || (!ListsFall(highs, lows) && n >= 4 && bars[n - 2].close > bars[n - 4].close))
            && (direction == Bearish
                <==> ListsFall(highs, lows)
                     || (!ListsRise(highs, lows) && n >= 4 && bars[n - 2].close < bars[n - 4].close))
  {
  }

  lemma {:induction false} SwingsDecide(bars: seq<Candle>, span: nat)
    requires bars != []
    ensures var prior := bars[..|bars| - 1];
            var highs, lows := SwingHighs(prior, span, |bars| - 1), SwingLows(prior, span, |bars| - 1);
            && (ListsRise(highs, lows) <==> SwingsRise(bars, span))
            && (ListsFall(highs, lows) <==> SwingsFall(bars, span))
  {
    var highs, lows := SwingHighs(bars[..|bars| - 1], span, |bars| - 1), SwingLows(bars[..|bars| - 1], span, |bars| - 1);
    PeaksCompare(bars, span);
    TroughsCompare(bars, span);
    assert ListsRise(highs, lows) <==> PeaksRise(bars, span) && TroughsRise(bars, span);
    assert ListsFall(highs, lows) <==> PeaksFall(bars, span) && TroughsFall(bars, span);
  }

  /**
   The reported direction: the last two peaks and troughs decide when they move
   the same way; otherwise the last prior close against the one two bars before.
   */
  lemma {:induction false} DirectionExactlyWhen(bars: seq<Candle>, span: nat, bandFraction: real)
    ensures Analyze(bars, span, bandFraction).direction == Bullish <==> Rising(bars, span)
    ensures Analyze(bars, span, bandFraction).direction == Bearish <==> Falling(bars, span)
  {
    if bars == [] {
      NoSwings(span);
    } else {
      var prior := bars[..|bars| - 1];
      SwingsDecide(bars, span);
      DirectionRead(bars, SwingHighs(prior, span, |bars| - 1), SwingLows(prior, span, |bars| - 1));
    }
  }

  // ----- breaks, changes of character, sweeps and gaps -----

  /** The latest bar closed above the resistance. */
  ghost predicate BreaksUp(bars: seq<Candle>, span: nat) {
    bars != [] && exists level :: IsResistance(bars, span, level) && bars[|bars| - 1].close > level
  }

  ghost predicate BreaksDown(bars: seq<Candle>, span: nat) {
    bars != [] && exists level :: IsSupport(bars, span, level) && bars[|bars| - 1].close < level
  }

  lemma {:induction false} UpMeans(bars: seq<Candle>, span: nat, bandFraction: real, p: real -> bool)
    ensures (exists level :: IsResistance(bars, span, level) && p(level))
            <==> Analyze(bars, span, bandFraction).resistance.Some? && p(Analyze(bars, span, bandFraction).resistance.value)
  {
    var found := Analyze(bars, span, bandFraction).resistance;
    forall level ensures found == Some(level) <==> IsResistance(bars, span, level) {
      LevelsExactlyWhen(bars, span, bandFraction, level);
    }
  }

  lemma {:induction false} DownMeans(bars: seq<Candle>, span: nat, bandFraction: real, p: real -> bool)
    ensures (exists level :: IsSupport(bars, span, level) && p(level))
            <==> Analyze(bars, span, bandFraction).support.Some? && p(Analyze(bars, span, bandFraction).support.value)
  {
    var found := Analyze(bars, span, bandFraction).support;
    forall level ensures found == Some(level) <==> IsSupport(bars, span, level) {
      LevelsExactlyWhen(bars, span, bandFraction, level);
    }
  }

  /** A structure breaks exactly when the latest close leaves the range, and its character changes exactly when that close goes against the prior direction. */
  lemma {:induction false} BreaksExactlyWhen(bars: seq<Candle>, span: nat, bandFraction: real)
    ensures var s := Analyze(bars, span, bandFraction);
            && (s.bullishBos <==> BreaksUp(bars, span))
            && (s.bearishBos <==> BreaksDown(bars, span))
            && (s.bullishChoch <==> BreaksUp(bars, span) && Falling(bars, span))
            && (s.bearishChoch <==> BreaksDown(bars, span) && Rising(bars, span))
  {
    DirectionExactlyWhen(bars, span, bandFraction);
    if bars != [] {
      var close := bars[|bars| - 1].close;
      UpMeans(bars, span, bandFraction, level => close > level);
      DownMeans(bars, span, bandFraction, level => close < level);
    }
  }

  /** The latest bar dipped below the support and closed at or above it. */
  ghost predicate SweepsLow(bars: seq<Candle>, span: nat) {
    bars != [] && exists level :: IsSupport(bars, span, level) && bars[|bars| - 1].low < level <= bars[|bars| - 1].close
  }

  /** The latest bar rose above the resistance and closed at or below it. */
  ghost predicate SweepsHigh(bars: seq<Candle>, span: nat) {
    bars != [] && exists level :: IsResistance(bars, span, level) && bars[|bars| - 1].close <= level < bars[|bars| - 1].high
  }

  lemma {:induction false} SweepsExactlyWhen(bars: seq<Candle>, span: nat, bandFraction: real)
    ensures Analyze(bars, span, bandFraction).bullishSweep <==> SweepsLow(bars, span)
    ensures Analyze(bars, span, bandFraction).bearishSweep <==> SweepsHigh(bars, span)
  {
    if bars != [] {
      var latest := bars[|bars| - 1];
      UpMeans(bars, span, bandFraction, level => latest.close <= level < latest.high);
      DownMeans(bars, span, bandFraction, level => latest.low < level <= latest.close);
    }
  }

  /** The latest bar and the one two before it leave a range of prices that neither touched. */
  lemma {:induction false} GapsExactlyWhen(bars: seq<Candle>, span: nat, bandFraction: real, lower: real, upper: real)
    ensures var s := Analyze(bars, span, bandFraction);
            var n := |bars|;
            && (s.bullishGap == Some(Range(lower, upper))
                <==> n >= 3 && bars[n - 3].high == lower < upper == bars[n - 1].low)
            && (s.bearishGap == Some(Range(lower, upper))
                <==> n >= 3 && bars[n - 1].high == lower < upper == bars[n - 3].low)
  {
  }

  // ----- zone -----

  /** The two levels span a range. */
  ghost predicate InRange(bars: seq<Candle>, span: nat, lower: real, upper: real) {
    bars != [] && IsSupport(bars, span, lower) && IsResistance(bars, span, upper) && lower < upper
  }

  lemma {:induction false} RangeMeans(bars: seq<Candle>, span: nat, bandFraction: real, lower: real, upper: real)
    ensures var s := Analyze(bars, span, bandFraction);
            InRange(bars, span, lower, upper) <==> s.support == Some(lower) && s.resistance == Some(upper) && lower < upper
  {
    LevelsExactlyWhen(bars, span, bandFraction, lower);
    LevelsExactlyWhen(bars, span, bandFraction, upper);
  }

  lemma {:induction false} BandEdges(lower: real, upper: real, bandFraction: real)
    ensures (0.5 - bandFraction) * (upper - lower) == (lower + upper) / 2.0 - (upper - lower) * bandFraction - lower
    ensures (0.5 + bandFraction) * (upper - lower) == (lower + upper) / 2.0 + (upper - lower) * bandFraction - lower
    ensures lower < upper && bandFraction >= 0.0 ==> (upper - lower) * bandFraction >= 0.0
  {
  }

  lemma {:induction false} ZoneMeans(close: real, lower: real, upper: real, bandFraction: real)
    requires bandFraction >= 0.0 && lower < upper
    ensures var zone := ZoneOf(close, Some(lower), Some(upper), bandFraction);
            && (zone == Discount <==> close - lower < (0.5 - bandFraction) * (upper - lower))
            && (zone == Premium <==> close - lower > (0.5 + bandFraction) * (upper - lower))
            && zone != UnknownZone
  {
    BandEdges(lower, upper, bandFraction);
    var band := (upper - lower) * bandFraction;
    assert (0.5 - bandFraction) * (upper - lower) == (lower + upper) / 2.0 - band - lower;
    assert (0.5 + bandFraction) * (upper - lower) == (lower + upper) / 2.0 + band - lower;
  }

  lemma {:induction false} ZoneRead(bars: seq<Candle>, span: nat, bandFraction: real)
    requires bars != []
    ensures var s := Analyze(bars, span, bandFraction);
            s.zone == ZoneOf(bars[|bars| - 1].close, s.support, s.resistance, bandFraction)
  {
  }

  /**
   Where the latest close lies in the range between the levels, as a fraction
   of its width: below one half less the band, above one half plus the band, or
   in between.  Without a range there is no zone.
   */
  lemma {:induction false} ZoneExactlyWhen(bars: seq<Candle>, span: nat, bandFraction: real, lower: real, upper: real)
    requires bandFraction >= 0.0 && InRange(bars, span, lower, upper)
    ensures var zone := Analyze(bars, span, bandFraction).zone;
            var above := bars[|bars| - 1].close - lower;
            && (zone == Discount <==> above < (0.5 - bandFraction) * (upper - lower))
            && (zone == Premium <==> above > (0.5 + bandFraction) * (upper - lower))
            && zone != UnknownZone
  {
    RangeMeans(bars, span, bandFraction, lower, upper);
    ZoneRead(bars, span, bandFraction);
    ZoneMeans(bars[|bars| - 1].close, lower, upper, bandFraction);
  }

  lemma {:induction false} NoZoneExactlyWhen(bars: seq<Candle>, span: nat, bandFraction: real)
    ensures Analyze(bars, span, bandFraction).zone == UnknownZone <==> forall lower, upper :: !InRange(bars, span, lower, upper)
  {
    var s := Analyze(bars, span, bandFraction);
    if bars != [] {
      ZoneRead(bars, span, bandFraction);
    }
    forall lower, upper
      ensures InRange(bars, span, lower, upper) <==> s.support == Some(lower) && s.resistance == Some(upper) && lower < upper
    {
      RangeMeans(bars, span, bandFraction, lower, upper);
    }
    if s.support.Some? && s.resistance.Some? && s.support.value < s.resistance.value {
      assert InRange(bars, span, s.support.value, s.resistance.value);
    }
  }

  // ----- order blocks -----

  predicate Opposite(bar: Candle, falling: bool) { if falling then bar.close < bar.open else bar.close > bar.open }

  /** Bar `k` is the last of the eight bars before the latest that closed against the move. */
  ghost predicate LastAgainst(bars: seq<Candle>, k: int, falling: bool) {
    && 0 <= k < |bars| - 1 && |bars| - 9 <= k && Opposite(bars[k], falling)
    && forall l | k < l < |bars| - 1 :: !Opposite(bars[l], falling)
  }

  lemma {:induction false} LastOppositeAt(bars: seq<Candle>, falling: bool) returns (k: int)
    ensures k == -1 <==> LastOpposite(bars, falling).None?
    ensures k != -1 ==> 0 <= k < |bars| && LastOpposite(bars, falling) == Some(bars[k]) && Opposite(bars[k], falling)
    ensures forall l | k < l < |bars| :: !Opposite(bars[l], falling)
  {
    k := -1;
    if bars != [] {
      if Opposite(bars[|bars| - 1], falling) {
        k := |bars| - 1;
      } else {
        k := LastOppositeAt(bars[..|bars| - 1], falling);
      }
    }
  }

  lemma {:induction false} AgainstAt(bars: seq<Candle>, falling: bool, block: Range)
    requires bars != []
    ensures BlockOf(LastOpposite(LastN(bars[..|bars| - 1], 8), falling)) == Some(block)
            <==> exists k :: LastAgainst(bars, k, falling) && block == Range(bars[k].low, bars[k].high)
  {
    var window := LastN(bars[..|bars| - 1], 8);
    var start := |bars| - 1 - |window|;
    var k := LastOppositeAt(window, falling);
    forall l | start + k < l < |bars| - 1 && start <= l ensures !Opposite(bars[l], falling) {
      assert window[l - start] == bars[l];
    }
    if k != -1 {
      assert LastAgainst(bars, start + k, falling);
    }
  }

  /** A block is reported exactly on a break, and is the last opposite bar of the eight before the latest. */
  lemma {:induction false} BlocksExactlyWhen(bars: seq<Candle>, span: nat, bandFraction: real, block: Range)
    ensures Analyze(bars, span, bandFraction).bullishBlock == Some(block)
            <==> BreaksUp(bars, span)
                 && exists k :: LastAgainst(bars, k, true) && block == Range(bars[k].low, bars[k].high)
    ensures Analyze(bars, span, bandFraction).bearishBlock == Some(block)
            <==> BreaksDown(bars, span)
                 && exists k :: LastAgainst(bars, k, false) && block == Range(bars[k].low, bars[k].high)
  {
    BreaksExactlyWhen(bars, span, bandFraction);
    if bars != [] {
      AgainstAt(bars, true, block);
      AgainstAt(bars, false, block);
    }
  }

  // ----- confluence -----

  /** The latest close lies within `limitBps` ten-thousandths of itself from the level. */
  predicate Within(close: real, level: real, limitBps: real) {
    -(limitBps * close) <= 10000.0 * (close - level) <= limitBps * close
  }

  lemma {:induction false} ScaleDistance(distance: real, close: real, limitBps: real)
    requires close > 0.0
    ensures distance / close * 10000.0 <= limitBps <==> 10000.0 * distance <= limitBps * close
  {
    var r := distance / close;
    assert r * close == distance;
    if r * 10000.0 <= limitBps {
      assert r * 10000.0 * close <= limitBps * close;
    } else {
      assert r * 10000.0 * close > limitBps * close;
    }
  }

  lemma {:induction false} NearMeans(close: real, level: real, limitBps: real)
    requires close > 0.0
    ensures Near(Some(close), Some(level), limitBps) <==> Within(close, level, limitBps)
  {
    var distance := if close < level then level - close else close - level;
    ScaleDistance(distance, close, limitBps);
  }

  function LastClose(bars: seq<Candle>): Option<real> {
    if bars == [] then None else Some(bars[|bars| - 1].close)
  }

  ghost predicate NearSupport(bars: seq<Candle>, span: nat, limitBps: real) {
    bars != [] && exists level :: IsSupport(bars, span, level) && Within(bars[|bars| - 1].close, level, limitBps)
  }

  ghost predicate NearResistance(bars: seq<Candle>, span: nat, limitBps: real) {
    bars != [] && exists level :: IsResistance(bars, span, level) && Within(bars[|bars| - 1].close, level, limitBps)
  }

  lemma {:induction false} NearExactlyWhen(bars: seq<Candle>, span: nat, bandFraction: real, limitBps: real)
    requires bars != [] ==> bars[|bars| - 1].close > 0.0
    ensures var s := Analyze(bars, span, bandFraction);
            && (Near(LastClose(bars), s.support, limitBps) <==> NearSupport(bars, span, limitBps))
            && (Near(LastClose(bars), s.resistance, limitBps) <==> NearResistance(bars, span, limitBps))
  {
    if bars != [] {
      var s, close := Analyze(bars, span, bandFraction), bars[|bars| - 1].close;
      UpMeans(bars, span, bandFraction, level => Within(close, level, limitBps));
      DownMeans(bars, span, bandFraction, level => Within(close, level, limitBps));
      if s.support.Some? {
        NearMeans(close, s.support.value, limitBps);
      }
      if s.resistance.Some? {
        NearMeans(close, s.resistance.value, limitBps);
      }
    }
  }

  /** The latest close is in the lower (or upper) part of the range between the levels. */
  ghost predicate Cheap(bars: seq<Candle>, span: nat, bandFraction: real) {
    exists lower, upper :: InRange(bars, span, lower, upper)
      && bars[|bars| - 1].close - lower < (0.5 - bandFraction) * (upper - lower)
  }

  ghost predicate Dear(bars: seq<Candle>, span: nat, bandFraction: real) {
    exists lower, upper :: InRange(bars, span, lower, upper)
      && bars[|bars| - 1].close - lower > (0.5 + bandFraction) * (upper - lower)
  }

  lemma {:induction false} CheapExactlyWhen(bars: seq<Candle>, span: nat, bandFraction: real)
    requires bandFraction >= 0.0
    ensures Analyze(bars, span, bandFraction).zone == Discount <==> Cheap(bars, span, bandFraction)
    ensures Analyze(bars, span, bandFraction).zone == Premium <==> Dear(bars, span, bandFraction)
  {
    NoZoneExactlyWhen(bars, span, bandFraction);
    forall lower, upper | InRange(bars, span, lower, upper)
      ensures var above := bars[|bars| - 1].close - lower;
              && (Analyze(bars, span, bandFraction).zone == Discount <==> above < (0.5 - bandFraction) * (upper - lower))
              && (Analyze(bars, span, bandFraction).zone == Premium <==> above > (0.5 + bandFraction) * (upper - lower))
    {
      ZoneExactlyWhen(bars, span, bandFraction, lower, upper);
    }
  }

  ghost predicate GapsUp(bars: seq<Candle>) { |bars| >= 3 && bars[|bars| - 3].high < bars[|bars| - 1].low }

  ghost predicate GapsDown(bars: seq<Candle>) { |bars| >= 3 && bars[|bars| - 1].high < bars[|bars| - 3].low }

  lemma {:induction false} GapExists(bars: seq<Candle>, span: nat, bandFraction: real)
    ensures Analyze(bars, span, bandFraction).bullishGap.Some? <==> GapsUp(bars)
    ensures Analyze(bars, span, bandFraction).bearishGap.Some? <==> GapsDown(bars)
  {
  }

  ghost function Points(evidence: bool, points: nat): nat { if evidence then points else 0 }

  /** What the evidence of the three timeframes is worth to one side. */
  ghost function Worth(
    bias15: bool, bias5: bool, bias1: bool, sweep5: bool, sweep1: bool, break5: bool, break1: bool, against1: bool,
    bargain5: bool, near5: bool, gap1: bool): nat
  {
    Points(bias15, 3) + Points(bias5, 1) + Points(bias1, 1) + Points(sweep5, 2) + Points(sweep1, 2)
    + Points(break5, 1) + Points(break1, if against1 then 2 else 1)
    + Points(bargain5, 1) + Points(near5, 1) + Points(gap1, 1)
  }

  ghost function LongWorth(
    one: seq<Candle>, five: seq<Candle>, fifteen: seq<Candle>, span: nat, bandFraction: real, limitBps: real): nat
  {
    Worth(Rising(fifteen, span), Rising(five, span), Rising(one, span), SweepsLow(five, span), SweepsLow(one, span),
          BreaksUp(five, span), BreaksUp(one, span), Falling(one, span),
          Cheap(five, span, bandFraction), NearSupport(five, span, limitBps), GapsUp(one))
  }

  ghost function ShortWorth(
    one: seq<Candle>, five: seq<Candle>, fifteen: seq<Candle>, span: nat, bandFraction: real, limitBps: real): nat
  {
    Worth(Falling(fifteen, span), Falling(five, span), Falling(one, span), SweepsHigh(five, span), SweepsHigh(one, span),
          BreaksDown(five, span), BreaksDown(one, span), Rising(one, span),
          Dear(five, span, bandFraction), NearResistance(five, span, limitBps), GapsDown(one))
  }

  /** What one timeframe offers the buyer and the seller, read off its bars. */
  ghost function LongView(bars: seq<Candle>, span: nat, bandFraction: real): View {
    View(Rising(bars, span), SweepsLow(bars, span), BreaksUp(bars, span),
         BreaksUp(bars, span) && Falling(bars, span), GapsUp(bars), Cheap(bars, span, bandFraction))
  }

  ghost function ShortView(bars: seq<Candle>, span: nat, bandFraction: real): View {
    View(Falling(bars, span), SweepsHigh(bars, span), BreaksDown(bars, span),
         BreaksDown(bars, span) && Rising(bars, span), GapsDown(bars), Dear(bars, span, bandFraction))
  }

  lemma {:induction false} FrameFacts(bars: seq<Candle>, span: nat, bandFraction: real)
    requires bandFraction >= 0.0
    ensures ViewOf(Analyze(bars, span, bandFraction), true) == LongView(bars, span, bandFraction)
    ensures ViewOf(Analyze(bars, span, bandFraction), false) == ShortView(bars, span, bandFraction)
  {
    DirectionExactlyWhen(bars, span, bandFraction);
    BreaksExactlyWhen(bars, span, bandFraction);
    SweepsExactlyWhen(bars, span, bandFraction);
    CheapExactlyWhen(bars, span, bandFraction);
    GapExists(bars, span, bandFraction);
  }

  lemma {:induction false} ViewsWorth(one: View, five: View, fifteen: View, near: bool, against: bool)
    requires one.choch <==> one.bos && against
    ensures ScoreViews(one, five, fifteen, near)
            == Worth(fifteen.agrees, five.agrees, one.agrees, five.sweep, one.sweep, five.bos, one.bos, against,
                     five.cheap, near, one.gap)
            <= 15
  {
  }

  lemma {:induction false} SameEvidence(a: Structure, b: Structure, c: Structure, bullish: bool, near: bool,
    one: View, five: View, fifteen: View, near5: bool, against: bool)
    requires ViewOf(a, bullish) == one && ViewOf(b, bullish) == five && ViewOf(c, bullish) == fifteen
    requires (near <==> near5) && (one.choch <==> one.bos && against)
    ensures Score(bullish, a, b, c, near)
            == Worth(fifteen.agrees, five.agrees, one.agrees, five.sweep, one.sweep, five.bos, one.bos, against,
                     five.cheap, near5, one.gap)
            <= 15
  {
    ViewsWorth(one, five, fifteen, near, against);
  }

  /** The long score is the worth of what the bars offer a buyer, and the cap of twenty is never reached. */
  lemma {:induction false} LongScoreExactly(
    one: seq<Candle>, five: seq<Candle>, fifteen: seq<Candle>, span: nat, bandFraction: real, limitBps: real)
    requires bandFraction >= 0.0 && (five != [] ==> five[|five| - 1].close > 0.0)
    ensures var a, b, c := Analyze(one, span, bandFraction), Analyze(five, span, bandFraction), Analyze(fifteen, span, bandFraction);
            Score(true, a, b, c, Near(LastClose(five), b.support, limitBps))
            == LongWorth(one, five, fifteen, span, bandFraction, limitBps) <= 15
  {
    var a, b, c := Analyze(one, span, bandFraction), Analyze(five, span, bandFraction), Analyze(fifteen, span, bandFraction);
    FrameFacts(one, span, bandFraction);
    FrameFacts(five, span, bandFraction);
    FrameFacts(fifteen, span, bandFraction);
    NearExactlyWhen(five, span, bandFraction, limitBps);
    SameEvidence(a, b, c, true, Near(LastClose(five), b.support, limitBps),
                 LongView(one, span, bandFraction), LongView(five, span, bandFraction), LongView(fifteen, span, bandFraction),
                 NearSupport(five, span, limitBps), Falling(one, span));
  }

  /** The short score, in the same way. */
  lemma {:induction false} ShortScoreExactly(
    one: seq<Candle>, five: seq<Candle>, fifteen: seq<Candle>, span: nat, bandFraction: real, limitBps: real)
    requires bandFraction >= 0.0 && (five != [] ==> five[|five| - 1].close > 0.0)
    ensures var a, b, c := Analyze(one, span, bandFraction), Analyze(five, span, bandFraction), Analyze(fifteen, span, bandFraction);
            Score(false, a, b, c, Near(LastClose(five), b.resistance, limitBps))
            == ShortWorth(one, five, fifteen, span, bandFraction, limitBps) <= 15
  {
    var a, b, c := Analyze(one, span, bandFraction), Analyze(five, span, bandFraction), Analyze(fifteen, span, bandFraction);
    FrameFacts(one, span, bandFraction);
    FrameFacts(five, span, bandFraction);
    FrameFacts(fifteen, span, bandFraction);
    NearExactlyWhen(five, span, bandFraction, limitBps);
    SameEvidence(a, b, c, false, Near(LastClose(five), b.resistance, limitBps),
                 ShortView(one, span, bandFraction), ShortView(five, span, bandFraction), ShortView(fifteen, span, bandFraction),
                 NearResistance(five, span, limitBps), Rising(one, span));
  }
}
