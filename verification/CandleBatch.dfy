/**
 The incremental candles are a batch group-by.

 `Group` selects the observations of one time bucket and `Fold` reduces them to
 an open/max/min/last/sum bar.  A run is a list of lives separated by crash
 restores; a life's first bucket is lost when the previous life ended inside it.
 */
module CandleBatch {
  import opened Wrappers
  import opened Market
  import opened Candles

  // ----- the batch reference -----

  ghost predicate AllValid(obs: seq<Tick>) {
    forall i | 0 <= i < |obs| :: obs[i].prices != []
  }

  ghost predicate ValidStream(obs: seq<Tick>) {
    && AllValid(obs)
    && (forall i, j | 0 <= i < j < |obs| :: obs[i].start <= obs[j].start)
  }

  /** The observations whose bucket starts at `start`, in order. */
  function Group(obs: seq<Tick>, start: nat): seq<Tick>
  {
    if obs == [] then []
    else
      var o := obs[|obs| - 1];
      Group(obs[..|obs| - 1], start) + if o.start == start then [o] else []
  }

  function AllPrices(obs: seq<Tick>): seq<real> {
    if obs == [] then [] else AllPrices(obs[..|obs| - 1]) + obs[|obs| - 1].prices
  }

  function TotalVolume(obs: seq<Tick>): real {
    if obs == [] then 0.0 else TotalVolume(obs[..|obs| - 1]) + obs[|obs| - 1].volume
  }

  function TotalSigned(obs: seq<Tick>): real {
    if obs == [] then 0.0 else TotalSigned(obs[..|obs| - 1]) + obs[|obs| - 1].signedVolume
  }

  ghost predicate IsMax(x: real, prices: seq<real>) {
    x in prices && forall i | 0 <= i < |prices| :: prices[i] <= x
  }

  ghost predicate IsMin(x: real, prices: seq<real>) {
    x in prices && forall i | 0 <= i < |prices| :: x <= prices[i]
  }

  /** `bar` summarizes exactly the observations of one bucket. */
  ghost predicate IsFold(bar: Candle, group: seq<Tick>, duration: nat) {
    var prices := AllPrices(group);
    && prices != []
    && bar.closeTs == bar.openTs + duration
    && bar.open == prices[0]
    && bar.close == prices[|prices| - 1]
    && IsMax(bar.high, prices)
    && IsMin(bar.low, prices)
    && bar.volume == TotalVolume(group)
    && bar.signedVolume == TotalSigned(group)
    && bar.count == |group|
  }

  /** `bars` lists, in time order, one fold for each bucket that holds an observation. */
  ghost predicate IsGroupBy(bars: seq<Candle>, obs: seq<Tick>, duration: nat)
  {
    && (forall i, j | 0 <= i < j < |bars| :: bars[i].openTs < bars[j].openTs)
    && (forall i | 0 <= i < |bars| :: FoldOf(bars[i], obs, duration))
    && (forall i | 0 <= i < |obs| :: exists j :: 0 <= j < |bars| && bars[j].openTs == obs[i].start)
  }

  /** One more observation: it extends the last bar when it falls in the same bucket. */
  function SnocBar(bars: seq<Candle>, o: Tick, duration: nat): seq<Candle>
    requires o.prices != []
  {
    if bars != [] && bars[|bars| - 1].openTs == o.start
    then bars[..|bars| - 1] + [Extend(bars[|bars| - 1], o)]
    else bars + [OpenCandle(o, duration)]
  }

  /** All bars of one uninterrupted stream, the last of them still open. */
  function Bars(obs: seq<Tick>, duration: nat): seq<Candle>
    requires AllValid(obs)
  {
    if obs == [] then [] else SnocBar(Bars(obs[..|obs| - 1], duration), obs[|obs| - 1], duration)
  }

  lemma {:induction false} InOrder(obs: seq<Tick>, i: nat, j: nat)
    requires ValidStream(obs) && i <= j < |obs|
    ensures obs[i].start <= obs[j].start
  {
    if i < j {
      assert obs[i].start <= obs[j].start;
    }
  }

  lemma {:induction false} MaxOfBoth(x: real, p: seq<real>, y: real, q: seq<real>)
    requires IsMax(x, p) && IsMax(y, q)
    ensures IsMax(MaxR(x, y), p + q)
  {
    assert forall z | z in p || z in q :: z in p + q;
  }

  lemma {:induction false} MinOfBoth(x: real, p: seq<real>, y: real, q: seq<real>)
    requires IsMin(x, p) && IsMin(y, q)
    ensures IsMin(MinR(x, y), p + q)
  {
    assert forall z | z in p || z in q :: z in p + q;
  }

  lemma {:induction false} Extremes(prices: seq<real>)
    requires prices != []
    ensures IsMax(Highest(prices), prices) && IsMin(Lowest(prices), prices)
  {
    if |prices| > 1 {
      var init, last := prices[..|prices| - 1], prices[|prices| - 1];
      Extremes(init);
      MaxOfBoth(Highest(init), init, last, [last]);
      MinOfBoth(Lowest(init), init, last, [last]);
      assert prices == init + [last];
    }
  }

  lemma {:induction false} SingleTick(o: Tick)
    ensures AllPrices([o]) == o.prices && TotalVolume([o]) == o.volume && TotalSigned([o]) == o.signedVolume
  {
    assert [o][..0] == [];
  }

  lemma {:induction false} OpenCandleFolds(o: Tick, duration: nat)
    requires o.prices != []
    ensures IsFold(OpenCandle(o, duration), [o], duration)
  {
    SingleTick(o);
    Extremes(o.prices);
  }

  lemma {:induction false} ExtendFolds(bar: Candle, group: seq<Tick>, o: Tick, duration: nat)
    requires o.prices != [] && IsFold(bar, group, duration)
    ensures IsFold(Extend(bar, o), group + [o], duration)
  {
    var next := group + [o];
    assert next[..|group|] == group;
    assert AllPrices(next) == AllPrices(group) + o.prices;
    Extremes(o.prices);
    MaxOfBoth(bar.high, AllPrices(group), Highest(o.prices), o.prices);
    MinOfBoth(bar.low, AllPrices(group), Lowest(o.prices), o.prices);
  }

  lemma {:induction false} EmptyGroup(obs: seq<Tick>, start: nat)
    requires forall i | 0 <= i < |obs| :: obs[i].start != start
    ensures Group(obs, start) == []
  {
    if obs != [] {
      EmptyGroup(obs[..|obs| - 1], start);
    }
  }

  /** Bars come out in strictly increasing bucket order and end with the current bucket. */
  lemma {:induction false} BarsOrdered(obs: seq<Tick>, duration: nat)
    requires ValidStream(obs)
    ensures obs == [] <==> Bars(obs, duration) == []
    ensures obs != [] ==> Bars(obs, duration)[|Bars(obs, duration)| - 1].openTs == obs[|obs| - 1].start
    ensures Increasing(Bars(obs, duration))
  {
    if obs != [] {
      var init, o := obs[..|obs| - 1], obs[|obs| - 1];
      BarsOrdered(init, duration);
      if init != [] {
        assert init[|init| - 1] == obs[|obs| - 2];
      }
      IncreasingSnoc(Bars(init, duration), o, duration);
    }
  }

  ghost predicate Increasing(bars: seq<Candle>) {
    forall i, j | 0 <= i < j < |bars| :: bars[i].openTs < bars[j].openTs
  }

  lemma {:induction false} IncreasingSnoc(bars: seq<Candle>, o: Tick, duration: nat)
    requires Increasing(bars) && o.prices != []
    requires bars != [] ==> bars[|bars| - 1].openTs <= o.start
    ensures Increasing(SnocBar(bars, o, duration))
    ensures SnocBar(bars, o, duration) != []
    ensures SnocBar(bars, o, duration)[|SnocBar(bars, o, duration)| - 1].openTs == o.start
  {
  }

  /** No earlier observation falls in a bucket later than the last one seen. */
  lemma {:induction false} BucketsBehind(obs: seq<Tick>, start: nat)
    requires ValidStream(obs) && obs != []
    requires obs[|obs| - 1].start < start
    ensures Group(obs, start) == []
  {
    forall i | 0 <= i < |obs| ensures obs[i].start != start {
      InOrder(obs, i, |obs| - 1);
    }
    EmptyGroup(obs, start);
  }

  /** `bar` is the fold of its own bucket. */
  ghost predicate FoldOf(bar: Candle, obs: seq<Tick>, duration: nat) {
    IsFold(bar, Group(obs, bar.openTs), duration)
  }

  lemma {:induction false} GroupSnoc(obs: seq<Tick>, o: Tick, start: nat)
    ensures Group(obs + [o], start) == Group(obs, start) + if o.start == start then [o] else []
  {
    assert (obs + [o])[..|obs|] == obs;
  }

  lemma {:induction false} FoldKept(bar: Candle, obs: seq<Tick>, o: Tick, duration: nat)
    requires FoldOf(bar, obs, duration) && bar.openTs != o.start
    ensures FoldOf(bar, obs + [o], duration)
  {
    GroupSnoc(obs, o, bar.openTs);
    assert Group(obs, bar.openTs) + [] == Group(obs, bar.openTs);
  }

  lemma {:induction false} FoldExtended(bar: Candle, obs: seq<Tick>, o: Tick, duration: nat)
    requires o.prices != [] && FoldOf(bar, obs, duration) && bar.openTs == o.start
    ensures FoldOf(Extend(bar, o), obs + [o], duration)
  {
    GroupSnoc(obs, o, o.start);
    ExtendFolds(bar, Group(obs, o.start), o, duration);
  }

  lemma {:induction false} FoldOpened(obs: seq<Tick>, o: Tick, duration: nat)
    requires o.prices != [] && Group(obs, o.start) == []
    ensures FoldOf(OpenCandle(o, duration), obs + [o], duration)
  {
    GroupSnoc(obs, o, o.start);
    assert [] + [o] == [o];
    OpenCandleFolds(o, duration);
  }

  /** Where one more observation lands: on a new bar, on the last one, or elsewhere. */
  lemma {:induction false} SnocAt(bars: seq<Candle>, o: Tick, duration: nat, i: nat)
    requires o.prices != [] && i < |SnocBar(bars, o, duration)|
    requires Increasing(bars) && (bars != [] ==> bars[|bars| - 1].openTs <= o.start)
    ensures i <= |bars|
    ensures SnocBar(bars, o, duration)[i]
            == if i == |bars| then OpenCandle(o, duration)
               else if bars[i].openTs == o.start then Extend(bars[i], o)
               else bars[i]
    ensures i == |bars| ==> bars == [] || bars[|bars| - 1].openTs < o.start
  {
  }

  /** One more observation on a list of bars, whichever bar it lands on. */
  lemma {:induction false} SnocFolds(bars: seq<Candle>, obs: seq<Tick>, o: Tick, duration: nat, i: nat)
    requires o.prices != [] && i < |SnocBar(bars, o, duration)|
    requires Increasing(bars) && (bars != [] ==> bars[|bars| - 1].openTs <= o.start)
    requires i < |bars| ==> FoldOf(bars[i], obs, duration)
    requires (bars == [] || bars[|bars| - 1].openTs < o.start) ==> Group(obs, o.start) == []
    ensures FoldOf(SnocBar(bars, o, duration)[i], obs + [o], duration)
  {
    SnocAt(bars, o, duration, i);
    if i == |bars| {
      FoldOpened(obs, o, duration);
    } else if bars[i].openTs == o.start {
      FoldExtended(bars[i], obs, o, duration);
    } else {
      FoldKept(bars[i], obs, o, duration);
    }
  }

  lemma {:induction false} BarsFold(obs: seq<Tick>, duration: nat, i: nat)
    requires ValidStream(obs) && i < |Bars(obs, duration)|
    ensures FoldOf(Bars(obs, duration)[i], obs, duration)
  {
    var init, o := obs[..|obs| - 1], obs[|obs| - 1];
    var before := Bars(init, duration);
    BarsOrdered(init, duration);
    if i < |before| {
      BarsFold(init, duration, i);
    }
    if init != [] {
      InOrder(obs, |init| - 1, |init|);
      if init[|init| - 1].start < o.start {
        BucketsBehind(init, o.start);
      }
    }
    assert init + [o] == obs;
    SnocFolds(before, init, o, duration, i);
  }

  lemma {:induction false} BarsCover(obs: seq<Tick>, duration: nat, i: nat) returns (j: nat)
    requires ValidStream(obs) && i < |obs|
    ensures j < |Bars(obs, duration)| && Bars(obs, duration)[j].openTs == obs[i].start
  {
    if i == |obs| - 1 {
      BarsOrdered(obs, duration);
      j := |Bars(obs, duration)| - 1;
    } else {
      j := BarsCover(obs[..|obs| - 1], duration, i);
    }
  }

  /** The incremental list is the group-by. */
  lemma {:induction false} BarsGroupBy(obs: seq<Tick>, duration: nat)
    requires ValidStream(obs)
    ensures IsGroupBy(Bars(obs, duration), obs, duration)
  {
    var bars := Bars(obs, duration);
    BarsOrdered(obs, duration);
    forall i | 0 <= i < |bars| ensures FoldOf(bars[i], obs, duration) {
      BarsFold(obs, duration, i);
    }
    forall i | 0 <= i < |obs| ensures exists j :: 0 <= j < |bars| && bars[j].openTs == obs[i].start {
      var j := BarsCover(obs, duration, i);
    }
  }

  // ----- runs with crash restores -----

  function RunFrame(s: BarState, obs: seq<Tick>, maximum: nat): (r: BarState)
    requires AllValid(obs)
    ensures r.duration == s.duration
  {
    if obs == [] then s
    else UpdateTimeframe(RunFrame(s, obs[..|obs| - 1], maximum), obs[|obs| - 1], maximum).0
  }

  function Flatten(lives: seq<seq<Tick>>): seq<Tick> {
    if lives == [] then [] else Flatten(lives[..|lives| - 1]) + lives[|lives| - 1]
  }

  ghost predicate ValidLives(lives: seq<seq<Tick>>) { ValidStream(Flatten(lives)) }

  /** One timeframe over several lives, each starting from the quarantined state of the one before. */
  ghost function RunLives(lives: seq<seq<Tick>>, duration: nat, maximum: nat): (r: BarState)
    requires forall i | 0 <= i < |lives| :: AllValid(lives[i])
    ensures r.duration == duration
  {
    if lives == [] then BarState(duration, None, true, [])
    else RunFrame(Quarantine(RunLives(lives[..|lives| - 1], duration, maximum)), lives[|lives| - 1], maximum)
  }

  /** The observations of one life that do not fall in the quarantined bucket. */
  function Live(obs: seq<Tick>, quarantined: Option<nat>): seq<Tick>
  {
    if obs == [] then []
    else
      var o := obs[|obs| - 1];
      Live(obs[..|obs| - 1], quarantined)
      + if quarantined == Some(o.start) then [] else [o]
  }

  function DropLast<T>(s: seq<T>): seq<T> { if s == [] then [] else s[..|s| - 1] }

  lemma {:induction false} LiveFrom(obs: seq<Tick>, quarantined: Option<nat>)
    ensures forall o | o in Live(obs, quarantined) :: o in obs && quarantined != Some(o.start)
  {
    if obs != [] {
      LiveFrom(obs[..|obs| - 1], quarantined);
    }
  }

  lemma {:induction false} StreamSnoc(obs: seq<Tick>, o: Tick)
    requires ValidStream(obs) && o.prices != []
    requires forall p | p in obs :: p.start <= o.start
    ensures ValidStream(obs + [o])
  {
  }

  lemma {:induction false} LastIsLatest(obs: seq<Tick>, o: Tick)
    requires ValidStream(obs) && o in obs
    ensures o.start <= obs[|obs| - 1].start
  {
    var k :| 0 <= k < |obs| && obs[k] == o;
    InOrder(obs, k, |obs| - 1);
  }

  lemma {:induction false} LiveSorted(obs: seq<Tick>, quarantined: Option<nat>)
    requires ValidStream(obs)
    ensures ValidStream(Live(obs, quarantined))
  {
    if obs != [] {
      var init, o := obs[..|obs| - 1], obs[|obs| - 1];
      LiveSorted(init, quarantined);
      LiveFrom(init, quarantined);
      forall p | p in Live(init, quarantined) ensures p.start <= o.start {
        assert p in init && p in obs;
        LastIsLatest(obs, p);
      }
      StreamSnoc(Live(init, quarantined), o);
    }
  }

  lemma {:induction false} LiveValid(obs: seq<Tick>, quarantined: Option<nat>)
    requires ValidStream(obs)
    ensures ValidStream(Live(obs, quarantined))
    ensures Live(obs, quarantined) != [] && quarantined != Some(obs[|obs| - 1].start) ==>
              Live(obs, quarantined)[|Live(obs, quarantined)| - 1] == obs[|obs| - 1]
    ensures forall i | 0 <= i < |Live(obs, quarantined)| ::
              Live(obs, quarantined)[i] in obs
              && quarantined != Some(Live(obs, quarantined)[i].start)
  {
    LiveFrom(obs, quarantined);
    LiveSorted(obs, quarantined);
  }

  lemma {:induction false} LastNTwice<T>(a: seq<T>, b: seq<T>, n: nat)
    ensures LastN(LastN(a, n) + b, n) == LastN(a + b, n)
  {
  }

  lemma {:induction false} LastNShort<T>(a: seq<T>, n: nat)
    requires |a| <= n
    ensures LastN(a + [], n) == a
  {
    assert a + [] == a;
  }

  /** Observations never precede the bucket a restored state was interrupted in. */
  ghost predicate After(obs: seq<Tick>, quarantined: Option<nat>)
  {
    forall i | 0 <= i < |obs| :: quarantined.Some? ==> quarantined.value <= obs[i].start
  }

  /** What one life makes of a quarantined timeframe. */
  ghost predicate LifeResult(r: BarState, s: BarState, live: seq<Tick>, maximum: nat)
    requires AllValid(live)
  {
    var bars := Bars(live, s.duration);
    if live == [] then
      && r.closed == s.closed && !r.valid
      && (s.current.Some? ==> r.current.Some? && r.current.value.openTs == s.current.value.openTs)
    else
      Splits(r, s.closed, bars, maximum)
  }

  ghost function OpenBucket(s: BarState): Option<nat> {
    if s.current.None? then None else Some(s.current.value.openTs)
  }

  lemma {:induction false} LifeFolds(s: BarState, obs: seq<Tick>, maximum: nat)
    requires !s.valid && |s.closed| <= maximum
    requires ValidStream(obs) && After(obs, OpenBucket(s))
    ensures ValidStream(Live(obs, OpenBucket(s)))
    ensures LifeResult(RunFrame(s, obs, maximum), s, Live(obs, OpenBucket(s)), maximum)
  {
    LiveValid(obs, OpenBucket(s));
    if obs != [] {
      var init, o := obs[..|obs| - 1], obs[|obs| - 1];
      var q := OpenBucket(s);
      LifeFolds(s, init, maximum);
      var before, live := Live(init, q), Live(obs, q);
      var start := o.start;
      if before == [] {
        LastNShort(s.closed, maximum);
        if live != [] {
          assert live == [o] && live[..0] == [];
          assert Bars(live, s.duration) == [OpenCandle(o, s.duration)];
          assert DropLast(Bars(live, s.duration)) == [];
        }
      } else {
        BucketNotReopened(obs, q);
        assert live[..|live| - 1] == before;
        LifeStep(RunFrame(s, init, maximum), s.closed, before, o, maximum);
      }
    }
  }

  /** Once a life has left the quarantined bucket it never comes back to it. */
  lemma {:induction false} BucketNotReopened(obs: seq<Tick>, q: Option<nat>)
    requires obs != [] && ValidStream(obs) && After(obs, q)
    requires Live(obs[..|obs| - 1], q) != []
    ensures q != Some(obs[|obs| - 1].start)
  {
    var n := |obs| - 1;
    var init := obs[..n];
    LiveValid(init, q);
    var o := Live(init, q)[0];
    var k :| 0 <= k < n && init[k] == o;
    InOrder(obs, k, n);
  }

  /** The open candle and the closed ones always concatenate to the bars so far. */
  ghost predicate Splits(r: BarState, closed: seq<Candle>, bars: seq<Candle>, maximum: nat) {
    && r.valid && bars != [] && r.current == Some(bars[|bars| - 1])
    && r.closed == LastN(closed + DropLast(bars), maximum)
  }

  lemma {:induction false} SplitsStep(r: BarState, closed: seq<Candle>, bars: seq<Candle>, o: Tick, maximum: nat)
    requires o.prices != [] && Splits(r, closed, bars, maximum)
    ensures Splits(UpdateTimeframe(r, o, maximum).0, closed, SnocBar(bars, o, r.duration), maximum)
  {
    var last := bars[|bars| - 1];
    LastNTwice(closed + DropLast(bars), [last], maximum);
    assert closed + DropLast(bars) + [last] == closed + bars;
  }

  lemma {:induction false} LifeStep(r: BarState, closed: seq<Candle>, live: seq<Tick>, o: Tick, maximum: nat)
    requires AllValid(live) && o.prices != []
    requires Splits(r, closed, Bars(live, r.duration), maximum)
    ensures AllValid(live + [o])
    ensures Splits(UpdateTimeframe(r, o, maximum).0, closed, Bars(live + [o], r.duration), maximum)
  {
    assert (live + [o])[..|live|] == live;
    SplitsStep(r, closed, Bars(live, r.duration), o, maximum);
  }

  /** The bucket of the last observation before the next restore. */
  ghost function Interrupted(lives: seq<seq<Tick>>): Option<nat>
  {
    var all := Flatten(lives);
    if all == [] then None else Some(all[|all| - 1].start)
  }

  ghost function Emitted(obs: seq<Tick>, duration: nat, quarantined: Option<nat>): seq<Candle>
    requires ValidStream(obs)
  {
    LiveValid(obs, quarantined);
    DropLast(Bars(Live(obs, quarantined), duration))
  }

  ghost predicate AllPrecede(head: seq<Tick>, tail: seq<Tick>) {
    forall i, j | 0 <= i < |head| && 0 <= j < |tail| :: head[i].start <= tail[j].start
  }

  lemma {:induction false} ConcatValid(head: seq<Tick>, tail: seq<Tick>)
    requires ValidStream(head + tail)
    ensures ValidStream(head) && ValidStream(tail) && AllPrecede(head, tail)
  {
    var all := head + tail;
    assert forall i | 0 <= i < |head| :: all[i] == head[i];
    assert forall i | 0 <= i < |tail| :: all[|head| + i] == tail[i];
  }

  lemma {:induction false} LivesValid(lives: seq<seq<Tick>>)
    requires lives != [] && ValidLives(lives)
    ensures ValidLives(lives[..|lives| - 1]) && ValidStream(lives[|lives| - 1])
    ensures AllPrecede(Flatten(lives[..|lives| - 1]), lives[|lives| - 1])
  {
    ConcatValid(Flatten(lives[..|lives| - 1]), lives[|lives| - 1]);
  }

  /** Every bar ever closed, life after life. */
  ghost function AllEmitted(lives: seq<seq<Tick>>, duration: nat): seq<Candle>
    requires ValidLives(lives)
  {
    if lives == [] then []
    else
      LivesValid(lives);
      var earlier := lives[..|lives| - 1];
      AllEmitted(earlier, duration) + Emitted(lives[|lives| - 1], duration, Interrupted(earlier))
  }

  lemma {:induction false} EachLifeValid(lives: seq<seq<Tick>>)
    requires ValidLives(lives)
    ensures forall i | 0 <= i < |lives| :: AllValid(lives[i])
  {
    if lives != [] {
      LivesValid(lives);
      EachLifeValid(lives[..|lives| - 1]);
    }
  }

  lemma {:induction false} NextLifeAfter(lives: seq<seq<Tick>>)
    requires lives != [] && ValidLives(lives)
    ensures After(lives[|lives| - 1], Interrupted(lives[..|lives| - 1]))
  {
    LivesValid(lives);
    var head, obs := Flatten(lives[..|lives| - 1]), lives[|lives| - 1];
    if head != [] {
      assert AllPrecede(head, obs);
      forall i | 0 <= i < |obs| ensures head[|head| - 1].start <= obs[i].start {
      }
    }
  }

  /**
   Main result for one timeframe: over any number of crash restores the closed
   bars are the last `maximum` of all bars the lives completed, each life
   contributing the group-by of its observations outside the bucket the
   previous life was interrupted in.
   */
  lemma {:induction false} ClosedBarsAreBatchFolds(lives: seq<seq<Tick>>, duration: nat, maximum: nat)
    requires ValidLives(lives)
    ensures forall i | 0 <= i < |lives| :: AllValid(lives[i])
    ensures RunLives(lives, duration, maximum).closed == LastN(AllEmitted(lives, duration), maximum)
    ensures OpenBucket(RunLives(lives, duration, maximum)) == Interrupted(lives)
  {
    EachLifeValid(lives);
    if lives != [] {
      LivesValid(lives);
      var earlier, obs := lives[..|lives| - 1], lives[|lives| - 1];
      ClosedBarsAreBatchFolds(earlier, duration, maximum);
      NextLifeAfter(lives);
      var s := Quarantine(RunLives(earlier, duration, maximum));
      LifeFolds(s, obs, maximum);
      var live := Live(obs, OpenBucket(s));
      LastNTwice(AllEmitted(earlier, duration), Emitted(obs, duration, OpenBucket(s)), maximum);
      LastNShort(s.closed, maximum);
      LifeEndsIn(s, obs, maximum);
    }
  }

  /** The open candle is always in the bucket of the newest observation. */
  lemma {:induction false} LifeEndsIn(s: BarState, obs: seq<Tick>, maximum: nat)
    requires AllValid(obs)
    ensures OpenBucket(RunFrame(s, obs, maximum)) ==
            if obs == [] then OpenBucket(s) else Some(obs[|obs| - 1].start)
  {
  }

  lemma {:induction false} LiveNotBefore(obs: seq<Tick>, q: Option<nat>, o: Tick)
    requires ValidStream(obs) && After(obs, q) && o in Live(obs, q)
    ensures obs != [] && o.start <= obs[|obs| - 1].start
    ensures q.Some? ==> q.value < o.start
  {
    LiveValid(obs, q);
    var i :| 0 <= i < |obs| && obs[i] == o;
    InOrder(obs, i, |obs| - 1);
  }

  /** A life's completed bars lie strictly between the interrupted bucket and the bucket still open. */
  lemma {:induction false} EmittedStrictlyInside(obs: seq<Tick>, duration: nat, q: Option<nat>, k: nat)
    requires ValidStream(obs) && After(obs, q)
    requires k < |Emitted(obs, duration, q)|
    ensures obs != []
    ensures Emitted(obs, duration, q)[k].openTs < obs[|obs| - 1].start
    ensures q.Some? ==> q.value < Emitted(obs, duration, q)[k].openTs
  {
    LiveValid(obs, q);
    var live := Live(obs, q);
    BarsOrdered(live, duration);
    LiveNotBefore(obs, q, live[|live| - 1]);
    BarsFold(live, duration, k);
    var j := FoldWitness(live, Bars(live, duration)[k].openTs);
    LiveNotBefore(obs, q, live[j]);
  }

  lemma {:induction false} FoldWitness(obs: seq<Tick>, start: nat) returns (j: nat)
    requires AllPrices(Group(obs, start)) != []
    ensures j < |obs| && obs[j].start == start
  {
    var o := obs[|obs| - 1];
    if o.start == start {
      j := |obs| - 1;
    } else {
      assert Group(obs, start) == Group(obs[..|obs| - 1], start);
      j := FoldWitness(obs[..|obs| - 1], start);
    }
  }

  lemma {:induction false} InterruptedGrows(lives: seq<seq<Tick>>, k: nat)
    requires ValidLives(lives) && k <= |lives|
    requires Interrupted(lives[..k]).Some?
    ensures Interrupted(lives).Some?
    ensures Interrupted(lives[..k]).value <= Interrupted(lives).value
  {
    if k < |lives| {
      LivesValid(lives);
      var earlier, obs := lives[..|lives| - 1], lives[|lives| - 1];
      assert earlier[..k] == lives[..k];
      InterruptedGrows(earlier, k);
      NextLifeAfter(lives);
      if obs != [] {
        assert Flatten(lives)[|Flatten(lives)| - 1] == obs[|obs| - 1];
      } else {
        assert Flatten(lives) == Flatten(earlier);
      }
    } else {
      assert lives[..k] == lives;
    }
  }

  lemma {:induction false} LastLifeEmitsLater(lives: seq<seq<Tick>>, duration: nat, k: nat, m: nat)
    requires lives != [] && ValidLives(lives) && k < |lives|
    requires ValidLives(lives[..|lives| - 1]) && ValidStream(lives[|lives| - 1])
    requires m < |Emitted(lives[|lives| - 1], duration, Interrupted(lives[..|lives| - 1]))|
    ensures Interrupted(lives[..k]) !=
            Some(Emitted(lives[|lives| - 1], duration, Interrupted(lives[..|lives| - 1]))[m].openTs)
  {
    var earlier, obs := lives[..|lives| - 1], lives[|lives| - 1];
    NextLifeAfter(lives);
    EmittedStrictlyInside(obs, duration, Interrupted(earlier), m);
    assert earlier[..k] == lives[..k];
    if Interrupted(lives[..k]).Some? {
      InterruptedGrows(earlier, k);
    }
  }

  /** The bucket a restore interrupts is never emitted, before or after the restore. */
  lemma {:induction false} InterruptedBucketNeverEmitted(lives: seq<seq<Tick>>, duration: nat, k: nat, i: nat)
    requires ValidLives(lives) && k < |lives|
    requires i < |AllEmitted(lives, duration)|
    ensures Interrupted(lives[..k]) != Some(AllEmitted(lives, duration)[i].openTs)
  {
    LivesValid(lives);
    var n := |lives| - 1;
    var earlier := lives[..n];
    var before := AllEmitted(earlier, duration);
    if i >= |before| {
      LastLifeEmitsLater(lives, duration, k, i - |before|);
    } else if k < n {
      assert earlier[..k] == lives[..k];
      InterruptedBucketNeverEmitted(earlier, duration, k, i);
    } else {
      EmittedBeforeOpen(earlier, duration, i);
    }
  }

  lemma {:induction false} EmittedBeforeOpen(lives: seq<seq<Tick>>, duration: nat, i: nat)
    requires ValidLives(lives) && i < |AllEmitted(lives, duration)|
    ensures Interrupted(lives).Some?
    ensures AllEmitted(lives, duration)[i].openTs < Interrupted(lives).value
  {
    LivesValid(lives);
    NextLifeAfter(lives);
    var n := |lives| - 1;
    var earlier, obs := lives[..n], lives[n];
    var before := AllEmitted(earlier, duration);
    if i < |before| {
      EmittedBeforeOpen(earlier, duration, i);
      assert lives[..n] == earlier;
      InterruptedGrows(lives, n);
    } else {
      EmittedStrictlyInside(obs, duration, Interrupted(earlier), i - |before|);
      assert Flatten(lives)[|Flatten(lives)| - 1] == obs[|obs| - 1];
    }
  }
}
