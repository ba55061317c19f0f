/**
 Timeframes nest: without a restore every five- or fifteen-minute bar is the
 merge of the one-minute bars inside it.
 */
module CandleNesting {
  import opened Wrappers
  import opened Market
  import opened Candles
  import opened CandleBatch

  /** The bars that open in [lo, hi). */
  function Within(bars: seq<Candle>, lo: nat, hi: nat): seq<Candle> {
    if bars == [] then []
    else
      var last := bars[|bars| - 1];
      Within(bars[..|bars| - 1], lo, hi) + if lo <= last.openTs < hi then [last] else []
  }

  function Combine(a: Candle, b: Candle): Candle {
    a.(high := MaxR(a.high, b.high), low := MinR(a.low, b.low), close := b.close,
       volume := a.volume + b.volume, signedVolume := a.signedVolume + b.signedVolume, count := a.count + b.count)
  }

  /** One bar over consecutive bars: first open, extreme prices, last close, summed volumes and counts. */
  function MergeBars(parts: seq<Candle>): Candle
    requires parts != []
  {
    if |parts| == 1 then parts[0] else Combine(MergeBars(parts[..|parts| - 1]), parts[|parts| - 1])
  }

  ghost predicate IsMerge(bar: Candle, parts: seq<Candle>, duration: nat) {
    parts != [] && bar == MergeBars(parts).(openTs := bar.openTs, closeTs := bar.openTs + duration)
  }

  lemma {:induction false} WithinAppend(a: seq<Candle>, b: seq<Candle>, lo: nat, hi: nat)
    ensures Within(a + b, lo, hi) == Within(a, lo, hi) + Within(b, lo, hi)
  {
    if b == [] {
      assert a + b == a;
    } else {
      WithinAppend(a, b[..|b| - 1], lo, hi);
      assert (a + b)[..|a + b| - 1] == a + b[..|b| - 1];
    }
  }

  lemma {:induction false} NoneWithin(bars: seq<Candle>, lo: nat, hi: nat)
    requires forall i | 0 <= i < |bars| :: !(lo <= bars[i].openTs < hi)
    ensures Within(bars, lo, hi) == []
  {
    if bars != [] {
      NoneWithin(bars[..|bars| - 1], lo, hi);
    }
  }

  lemma {:induction false} MergeExtends(bar: Candle, parts: seq<Candle>, o: Tick, duration: nat)
    requires o.prices != [] && IsMerge(bar, parts, duration)
    ensures IsMerge(Extend(bar, o), parts[..|parts| - 1] + [Extend(parts[|parts| - 1], o)], duration)
  {
    var next := parts[..|parts| - 1] + [Extend(parts[|parts| - 1], o)];
    assert next[..|next| - 1] == parts[..|parts| - 1];
  }

  lemma {:induction false} MergeAppends(bar: Candle, parts: seq<Candle>, o: Tick, duration: nat, small: nat)
    requires o.prices != [] && IsMerge(bar, parts, duration)
    ensures IsMerge(Extend(bar, o), parts + [OpenCandle(o, small)], duration)
  {
    assert (parts + [OpenCandle(o, small)])[..|parts|] == parts;
  }

  // ----- one observation seen by two timeframes -----

  /** The same observations in a small and in a large timeframe. */
  ghost predicate Paired(xs: seq<Tick>, ys: seq<Tick>, large: nat) {
    && |xs| == |ys|
    && (forall i | 0 <= i < |xs| ::
          && xs[i] == ys[i].(start := xs[i].start)
          && ys[i].start <= xs[i].start < ys[i].start + large)
    && (forall i, j | 0 <= i < j < |ys| :: ys[i].start == ys[j].start || ys[i].start + large <= ys[j].start)
  }

  /** The newest small bar, seen from the range of one large bucket. */
  lemma {:induction false} WithinSnoc(bars: seq<Candle>, o: Tick, small: nat, lo: nat, hi: nat)
    requires o.prices != []
    ensures !(lo <= o.start < hi) ==> Within(SnocBar(bars, o, small), lo, hi) == Within(bars, lo, hi)
    ensures lo <= o.start < hi && bars != [] && bars[|bars| - 1].openTs == o.start ==>
              && Within(bars, lo, hi) == Within(bars[..|bars| - 1], lo, hi) + [bars[|bars| - 1]]
              && Within(SnocBar(bars, o, small), lo, hi)
                 == Within(bars[..|bars| - 1], lo, hi) + [Extend(bars[|bars| - 1], o)]
    ensures lo <= o.start < hi && (bars == [] || bars[|bars| - 1].openTs != o.start) ==>
              Within(SnocBar(bars, o, small), lo, hi) == Within(bars, lo, hi) + [OpenCandle(o, small)]
  {
    var next := SnocBar(bars, o, small);
    if bars != [] && bars[|bars| - 1].openTs == o.start {
      assert next[..|next| - 1] == bars[..|bars| - 1];
    } else {
      assert next[..|next| - 1] == bars;
    }
  }

  lemma {:induction false} LargeBarGrows(bar: Candle, bars: seq<Candle>, x: Tick, small: nat, large: nat)
    requires x.prices != [] && bar.openTs <= x.start < bar.openTs + large
    requires IsMerge(bar, Within(bars, bar.openTs, bar.openTs + large), large)
    ensures IsMerge(Extend(bar, x), Within(SnocBar(bars, x, small), bar.openTs, bar.openTs + large), large)
  {
    var lo, hi := bar.openTs, bar.openTs + large;
    var parts := Within(bars, lo, hi);
    WithinSnoc(bars, x, small, lo, hi);
    if bars != [] && bars[|bars| - 1].openTs == x.start {
      MergeExtends(bar, parts, x, large);
      assert parts[..|parts| - 1] == Within(bars[..|bars| - 1], lo, hi);
    } else {
      MergeAppends(bar, parts, x, large, small);
    }
  }

  lemma {:induction false} BarWitness(obs: seq<Tick>, duration: nat, i: nat) returns (j: nat)
    requires ValidStream(obs) && i < |Bars(obs, duration)|
    ensures j < |obs| && obs[j].start == Bars(obs, duration)[i].openTs
  {
    BarsFold(obs, duration, i);
    j := FoldWitness(obs, Bars(obs, duration)[i].openTs);
  }

  lemma {:induction false} LaterLargeBucket(xs: seq<Tick>, ys: seq<Tick>, large: nat, i: nat)
    requires ValidStream(ys) && Paired(xs, ys, large) && i < |Bars(ys, large)| - 1
    ensures Bars(ys, large)[i].openTs + large <= ys[|ys| - 1].start
  {
    BarsOrdered(ys, large);
    var j := BarWitness(ys, large, i);
    assert ys[j].start < ys[|ys| - 1].start;
    assert j < |ys| - 1;
  }

  ghost predicate AllBefore(bars: seq<Candle>, start: nat) {
    forall k | 0 <= k < |bars| :: bars[k].openTs < start
  }

  lemma {:induction false} SmallBarsBehind(xs: seq<Tick>, ys: seq<Tick>, small: nat, large: nat)
    requires ValidStream(xs) && ValidStream(ys) && Paired(xs, ys, large) && |xs| >= 2
    requires ys[|ys| - 2].start != ys[|ys| - 1].start
    ensures AllValid(xs[..|xs| - 1]) && AllBefore(Bars(xs[..|xs| - 1], small), ys[|ys| - 1].start)
  {
    var init := xs[..|xs| - 1];
    BarsOrdered(init, small);
    assert init[|init| - 1] == xs[|xs| - 2];
    assert ys[|ys| - 2].start + large <= ys[|ys| - 1].start;
  }

  /** The observation that opens a large bar also opens a small one, alone in the large bucket. */
  lemma {:induction false} FirstOfBucket(bars: seq<Candle>, x: Tick, y: Tick, small: nat, large: nat)
    requires x.prices != [] && x == y.(start := x.start) && y.start <= x.start < y.start + large
    requires AllBefore(bars, y.start)
    ensures IsMerge(OpenCandle(y, large), Within(SnocBar(bars, x, small), y.start, y.start + large), large)
  {
    WithinSnoc(bars, x, small, y.start, y.start + large);
    NoneWithin(bars, y.start, y.start + large);
    var parts := Within(SnocBar(bars, x, small), y.start, y.start + large);
    assert parts == [OpenCandle(x, small)];
    assert MergeBars(parts) == OpenCandle(x, small);
  }

  /** `bar` is the merge of the small bars inside it. */
  ghost predicate Nested(bar: Candle, smalls: seq<Candle>, large: nat) {
    IsMerge(bar, Within(smalls, bar.openTs, bar.openTs + large), large)
  }

  lemma {:induction false} LargeStep(smalls: seq<Candle>, x: Tick, bars: seq<Candle>, y: Tick, small: nat, large: nat, i: nat)
    requires x.prices != [] && x == y.(start := x.start) && y.start <= x.start < y.start + large
    requires i < |SnocBar(bars, y, large)|
    requires i < |bars| ==> Nested(bars[i], smalls, large)
    requires i < |SnocBar(bars, y, large)| - 1 ==> SnocBar(bars, y, large)[i].openTs + large <= y.start
    requires i >= |bars| ==> AllBefore(smalls, y.start)
    ensures Nested(SnocBar(bars, y, large)[i], SnocBar(smalls, x, small), large)
  {
    var bar := SnocBar(bars, y, large)[i];
    if i < |SnocBar(bars, y, large)| - 1 {
      assert bar == bars[i];
      WithinSnoc(smalls, x, small, bar.openTs, bar.openTs + large);
    } else if i < |bars| {
      assert bar == Extend(bars[i], x);
      LargeBarGrows(bars[i], smalls, x, small, large);
    } else {
      assert bar == OpenCandle(y, large);
      FirstOfBucket(smalls, x, y, small, large);
    }
  }

  lemma {:induction false} Shorten(xs: seq<Tick>, ys: seq<Tick>, large: nat, n: nat)
    requires ValidStream(xs) && ValidStream(ys) && Paired(xs, ys, large) && n <= |xs|
    ensures ValidStream(xs[..n]) && ValidStream(ys[..n]) && Paired(xs[..n], ys[..n], large)
  {
  }

  /** Without a restore every large bar is the merge of the small bars inside it. */
  lemma {:induction false} LargeBarsMergeSmall(xs: seq<Tick>, ys: seq<Tick>, small: nat, large: nat, i: nat)
    requires ValidStream(xs) && ValidStream(ys) && Paired(xs, ys, large) && i < |Bars(ys, large)|
    ensures Nested(Bars(ys, large)[i], Bars(xs, small), large)
  {
    var n := |xs| - 1;
    var xi, yi, x, y := xs[..n], ys[..n], xs[n], ys[n];
    Shorten(xs, ys, large, n);
    if i < |Bars(yi, large)| {
      LargeBarsMergeSmall(xi, yi, small, large, i);
    }
    if i < |Bars(ys, large)| - 1 {
      LaterLargeBucket(xs, ys, large, i);
    }
    if i >= |Bars(yi, large)| && n > 0 {
      BarsOrdered(yi, large);
      assert yi[n - 1] == ys[n - 1];
      SmallBarsBehind(xs, ys, small, large);
    }
    LargeStep(Bars(xi, small), x, Bars(yi, large), y, small, large, i);
  }

  // ----- the retained lists of the engine -----

  lemma {:induction false} WithinTrim(front: seq<Candle>, kept: seq<Candle>, last: Candle, lo: nat, hi: nat)
    requires forall k | 0 <= k < |front| :: front[k].openTs < lo
    requires last.openTs >= hi
    ensures Within(front + kept + [last], lo, hi) == Within(kept, lo, hi)
  {
    WithinAppend(front + kept, [last], lo, hi);
    WithinAppend(front, kept, lo, hi);
    NoneWithin([last], lo, hi);
    NoneWithin(front, lo, hi);
  }

  /** Neither the bars cut from the front nor the open bar lie in the range. */
  lemma {:induction false} TrimRetained(all: seq<Candle>, maximum: nat, lo: nat, hi: nat)
    requires all != [] && all[|all| - 1].openTs >= hi
    requires Increasing(all)
    requires var ones := LastN(DropLast(all), maximum);
             |ones| < maximum || (ones != [] && ones[0].openTs <= lo)
    ensures Within(LastN(DropLast(all), maximum), lo, hi) == Within(all, lo, hi)
  {
    var ones := LastN(DropLast(all), maximum);
    var cut := |all| - 1 - |ones|;
    if cut > 0 {
      assert ones[0] == all[cut];
    }
    assert all == all[..cut] + ones + [all[|all| - 1]];
    WithinTrim(all[..cut], ones, all[|all| - 1], lo, hi);
  }

  /** No small bar from the opening of `bar` on has been cut from the retained list. */
  ghost predicate StillRetained(bar: Candle, smalls: seq<Candle>, maximum: nat) {
    |smalls| < maximum || (smalls != [] && smalls[0].openTs <= bar.openTs)
  }

  lemma {:induction false} RetainedNested(bar: Candle, all: seq<Candle>, maximum: nat, large: nat)
    requires all != [] && all[|all| - 1].openTs >= bar.openTs + large && Increasing(all)
    requires StillRetained(bar, LastN(DropLast(all), maximum), maximum)
    requires Nested(bar, all, large)
    ensures Nested(bar, LastN(DropLast(all), maximum), large)
  {
    TrimRetained(all, maximum, bar.openTs, bar.openTs + large);
  }

  /**
   Without a restore, every closed large bar is the merge of its small bars as
   long as the retained small list has not been cut inside it.
   */
  lemma {:induction false} ClosedBarsNest(xs: seq<Tick>, ys: seq<Tick>, small: nat, large: nat, maximum: nat, k: nat)
    requires ValidStream(xs) && ValidStream(ys) && Paired(xs, ys, large) && k < |DropLast(Bars(ys, large))|
    requires StillRetained(Bars(ys, large)[k], LastN(DropLast(Bars(xs, small)), maximum), maximum)
    ensures Nested(Bars(ys, large)[k], LastN(DropLast(Bars(xs, small)), maximum), large)
  {
    LargeBarsMergeSmall(xs, ys, small, large, k);
    LaterLargeBucket(xs, ys, large, k);
    BarsOrdered(xs, small);
    RetainedNested(Bars(ys, large)[k], Bars(xs, small), maximum, large);
  }

  lemma {:induction false} RetainedBarNests(xs: seq<Tick>, ys: seq<Tick>, small: nat, large: nat, maximum: nat, bar: Candle)
    requires ValidStream(xs) && ValidStream(ys) && Paired(xs, ys, large)
    requires bar in LastN(DropLast(Bars(ys, large)), maximum)
    requires StillRetained(bar, LastN(DropLast(Bars(xs, small)), maximum), maximum)
    ensures Nested(bar, LastN(DropLast(Bars(xs, small)), maximum), large)
  {
    var k :| 0 <= k < |DropLast(Bars(ys, large))| && Bars(ys, large)[k] == bar;
    ClosedBarsNest(xs, ys, small, large, maximum, k);
  }
}
