/**
 The structure engine as a whole: three timeframes over real observation times,
 and the engine inside the paper runtime, which saves the structure state only
 when a bar closed and restores the saved state after a crash.
 */
module CandleEngine {
  import opened Wrappers
  import opened Market
  import opened Candles
  import opened CandleBatch
  import opened CandleNesting

  /** A strictly increasing stream of observations. */
  ghost predicate Stream(obs: seq<Obs>) {
    && (forall i | 0 <= i < |obs| :: obs[i].prices != [])
    && (forall i, j | 0 <= i < j < |obs| :: obs[i].ts < obs[j].ts)
  }

  function Ticks(obs: seq<Obs>, frame: Timeframe): (ticks: seq<Tick>)
    ensures |ticks| == |obs|
    ensures forall i | 0 <= i < |obs| :: ticks[i] == InFrame(obs[i], frame)
  {
    if obs == [] then [] else Ticks(obs[..|obs| - 1], frame) + [InFrame(obs[|obs| - 1], frame)]
  }

  lemma {:induction false} BucketFacts(a: nat, b: nat, frame: Timeframe)
    requires a <= b
    ensures BucketStart(a, frame) <= a < BucketStart(a, frame) + frame.Duration()
    ensures BucketStart(a, frame) == BucketStart(b, frame)
         || BucketStart(a, frame) + frame.Duration() <= BucketStart(b, frame)
  {
  }

  /** A bucket starts at a multiple of its length. */
  lemma {:induction false} BucketsAligned(ts: nat, frame: Timeframe) returns (q: nat)
    ensures BucketStart(ts, frame) == q * frame.Duration()
  {
    q := ts / frame.Duration();
  }

  lemma {:induction false} MinuteInside(ts: nat, large: Timeframe)
    requires large != OneMinute
    ensures BucketStart(ts, large) <= BucketStart(ts, OneMinute) < BucketStart(ts, large) + large.Duration()
  {
  }

  lemma {:induction false} TicksValid(obs: seq<Obs>, frame: Timeframe)
    requires Stream(obs)
    ensures ValidStream(Ticks(obs, frame))
  {
    var ticks := Ticks(obs, frame);
    forall i, j | 0 <= i < j < |ticks| ensures ticks[i].start <= ticks[j].start {
      BucketFacts(obs[i].ts, obs[j].ts, frame);
    }
  }

  lemma {:induction false} TicksPaired(obs: seq<Obs>, large: Timeframe)
    requires Stream(obs) && large != OneMinute
    ensures Paired(Ticks(obs, OneMinute), Ticks(obs, large), large.Duration())
  {
    var xs, ys := Ticks(obs, OneMinute), Ticks(obs, large);
    forall i | 0 <= i < |xs|
      ensures xs[i] == ys[i].(start := xs[i].start) && ys[i].start <= xs[i].start < ys[i].start + large.Duration()
    {
      MinuteInside(obs[i].ts, large);
    }
    forall i, j | 0 <= i < j < |ys|
      ensures ys[i].start == ys[j].start || ys[i].start + large.Duration() <= ys[j].start
    {
      BucketFacts(obs[i].ts, obs[j].ts, large);
    }
  }

  // ----- the engine over several lives -----

  function RunState(s: StructureState, obs: seq<Obs>, maximum: nat): (r: StructureState)
    requires s.Valid() && forall i | 0 <= i < |obs| :: obs[i].prices != []
    ensures r.Valid()
  {
    if obs == [] then s else UpdateState(RunState(s, obs[..|obs| - 1], maximum), obs[|obs| - 1], maximum)
  }

  lemma {:induction false} UpdateStateFrame(s: StructureState, o: Obs, maximum: nat, f: nat)
    requires s.Valid() && f < 3 && o.prices != []
    ensures UpdateState(s, o, maximum).frames[f] == UpdateTimeframe(s.frames[f], InFrame(o, TIMEFRAMES[f]), maximum).0
  {
  }

  lemma {:induction false} RunStateFrame(s: StructureState, obs: seq<Obs>, maximum: nat, f: nat)
    requires s.Valid() && f < 3 && forall i | 0 <= i < |obs| :: obs[i].prices != []
    ensures AllValid(Ticks(obs, TIMEFRAMES[f]))
    ensures RunState(s, obs, maximum).frames[f] == RunFrame(s.frames[f], Ticks(obs, TIMEFRAMES[f]), maximum)
  {
    if obs != [] {
      var init, o := obs[..|obs| - 1], obs[|obs| - 1];
      RunStateFrame(s, init, maximum, f);
      UpdateStateFrame(RunState(s, init, maximum), o, maximum, f);
      assert Ticks(obs, TIMEFRAMES[f])[..|obs| - 1] == Ticks(init, TIMEFRAMES[f]);
    }
  }

  function FlatObs(lives: seq<seq<Obs>>): seq<Obs> {
    if lives == [] then [] else FlatObs(lives[..|lives| - 1]) + lives[|lives| - 1]
  }

  function LifeTicks(lives: seq<seq<Obs>>, frame: Timeframe): seq<seq<Tick>> {
    if lives == [] then [] else LifeTicks(lives[..|lives| - 1], frame) + [Ticks(lives[|lives| - 1], frame)]
  }

  ghost predicate NonEmptyPrices(lives: seq<seq<Obs>>) {
    forall i, j | 0 <= i < |lives| && 0 <= j < |lives[i]| :: lives[i][j].prices != []
  }

  /** Each life restores the state the previous one left behind. */
  ghost function RunEngine(lives: seq<seq<Obs>>, maximum: nat): (r: StructureState)
    requires NonEmptyPrices(lives)
    ensures r.Valid()
  {
    if lives == [] then FRESH
    else RunState(Restore(RunEngine(lives[..|lives| - 1], maximum)), lives[|lives| - 1], maximum)
  }

  lemma {:induction false} RunEngineFrame(lives: seq<seq<Obs>>, maximum: nat, f: nat)
    requires NonEmptyPrices(lives) && f < 3
    ensures |LifeTicks(lives, TIMEFRAMES[f])| == |lives|
    ensures forall i | 0 <= i < |lives| :: AllValid(LifeTicks(lives, TIMEFRAMES[f])[i])
    ensures RunEngine(lives, maximum).frames[f]
         == RunLives(LifeTicks(lives, TIMEFRAMES[f]), TIMEFRAMES[f].Duration(), maximum)
  {
    if lives != [] {
      var init, last := lives[..|lives| - 1], lives[|lives| - 1];
      RunEngineFrame(init, maximum, f);
      RunStateFrame(Restore(RunEngine(init, maximum)), last, maximum, f);
      var ticks := LifeTicks(lives, TIMEFRAMES[f]);
      assert ticks[..|ticks| - 1] == LifeTicks(init, TIMEFRAMES[f]);
      assert AllValid(Ticks(last, TIMEFRAMES[f]));
    }
  }

  lemma {:induction false} TicksSnoc(obs: seq<Obs>, o: Obs, frame: Timeframe)
    ensures Ticks(obs + [o], frame) == Ticks(obs, frame) + [InFrame(o, frame)]
  {
  }

  lemma {:induction false} TicksAppend(a: seq<Obs>, b: seq<Obs>, frame: Timeframe)
    ensures Ticks(a + b, frame) == Ticks(a, frame) + Ticks(b, frame)
  {
  }

  lemma {:induction false} FlattenTicks(lives: seq<seq<Obs>>, frame: Timeframe)
    ensures Flatten(LifeTicks(lives, frame)) == Ticks(FlatObs(lives), frame)
  {
    if lives != [] {
      var init, last := lives[..|lives| - 1], lives[|lives| - 1];
      FlattenTicks(init, frame);
      TicksAppend(FlatObs(init), last, frame);
      assert LifeTicks(lives, frame)[..|LifeTicks(lives, frame)| - 1] == LifeTicks(init, frame);
    }
  }

  /**
   Main result for the engine: over any number of crash restores, the closed
   bars of every timeframe are the last `maximum` batch folds of all lives, and
   no bucket that a restore interrupted is among the emitted bars.
   */
  lemma {:induction false} EngineEmitsBatchFolds(lives: seq<seq<Obs>>, maximum: nat, f: nat)
    requires NonEmptyPrices(lives) && Stream(FlatObs(lives)) && f < 3
    ensures var ticks, duration := LifeTicks(lives, TIMEFRAMES[f]), TIMEFRAMES[f].Duration();
            && ValidLives(ticks) && |ticks| == |lives|
            && RunEngine(lives, maximum).frames[f].closed == LastN(AllEmitted(ticks, duration), maximum)
            && forall k, i | 0 <= k < |lives| && 0 <= i < |AllEmitted(ticks, duration)| ::
                 Interrupted(ticks[..k]) != Some(AllEmitted(ticks, duration)[i].openTs)
  {
    var ticks, duration := LifeTicks(lives, TIMEFRAMES[f]), TIMEFRAMES[f].Duration();
    RunEngineFrame(lives, maximum, f);
    FlattenTicks(lives, TIMEFRAMES[f]);
    TicksValid(FlatObs(lives), TIMEFRAMES[f]);
    ClosedBarsAreBatchFolds(ticks, duration, maximum);
    forall k, i | 0 <= k < |lives| && 0 <= i < |AllEmitted(ticks, duration)|
      ensures Interrupted(ticks[..k]) != Some(AllEmitted(ticks, duration)[i].openTs)
    {
      InterruptedBucketNeverEmitted(ticks, duration, k, i);
    }
  }

  lemma {:induction false} NothingQuarantined(ticks: seq<Tick>)
    ensures Live(ticks, None) == ticks
  {
    if ticks != [] {
      NothingQuarantined(ticks[..|ticks| - 1]);
    }
  }

  lemma {:induction false} OneLifeClosed(obs: seq<Obs>, maximum: nat, f: nat)
    requires Stream(obs) && f < 3
    ensures ValidStream(Ticks(obs, TIMEFRAMES[f])) && NonEmptyPrices([obs])
    ensures RunEngine([obs], maximum).frames[f].closed
         == LastN(DropLast(Bars(Ticks(obs, TIMEFRAMES[f]), TIMEFRAMES[f].Duration())), maximum)
  {
    var frame := TIMEFRAMES[f];
    TicksValid(obs, frame);
    assert [obs][..0] == [];
    assert FlatObs([obs]) == obs;
    EngineEmitsBatchFolds([obs], maximum, f);
    var ticks := LifeTicks([obs], frame);
    assert ticks == [Ticks(obs, frame)] && ticks[..0] == [];
    NothingQuarantined(Ticks(obs, frame));
    assert AllEmitted(ticks, frame.Duration()) == DropLast(Bars(Ticks(obs, frame), frame.Duration()));
  }

  /**
   Without a restore, every retained five- or fifteen-minute bar is the merge of
   its one-minute bars, as long as none of those has been cut from the list.
   */
  lemma {:induction false} RetainedBarsNest(obs: seq<Obs>, maximum: nat, f: nat, smalls: seq<Candle>, larges: seq<Candle>, bar: Candle)
    requires Stream(obs) && 1 <= f < 3 && NonEmptyPrices([obs])
    requires smalls == RunEngine([obs], maximum).frames[0].closed
    requires larges == RunEngine([obs], maximum).frames[f].closed
    requires bar in larges && StillRetained(bar, smalls, maximum)
    ensures Nested(bar, smalls, TIMEFRAMES[f].Duration())
  {
    var frame := TIMEFRAMES[f];
    OneLifeClosed(obs, maximum, 0);
    OneLifeClosed(obs, maximum, f);
    TicksPaired(obs, frame);
    RetainedBarNests(Ticks(obs, OneMinute), Ticks(obs, frame), OneMinute.Duration(), frame.Duration(), maximum, bar);
  }

  // ----- the engine inside the paper runtime -----

  /** `delivered` remembers every observation any life has processed. */
  datatype Runtime = Runtime(mem: StructureState, disk: Option<StructureState>, persisted: int, delivered: seq<Obs>)
  {
    predicate DiskValid() { disk.Some? ==> disk.value.Valid() }

    ghost predicate Valid() { mem.Valid() && DiskValid() && Stream(delivered) }
  }

  const BOOT: Runtime := Runtime(FRESH, None, -1, [])

  /** The engine takes one market state in memory. */
  function Observed(r: Runtime, o: Obs, maximum: nat): (after: Runtime)
    requires r.mem.Valid() && o.prices != []
    ensures after.mem.Valid()
  {
    Runtime(UpdateState(r.mem, o, maximum), r.disk, r.persisted, r.delivered + [o])
  }

  /** The runtime saves the engine, in a transaction of its own, if its revision moved. */
  function Saved(r: Runtime): Runtime {
    if r.mem.revision != r.persisted then Runtime(r.mem, Some(r.mem), r.mem.revision, r.delivered) else r
  }

  /** One market state: update the engine, then save it. */
  function OnMarket(r: Runtime, o: Obs, maximum: nat): (after: Runtime)
    requires r.mem.Valid() && o.prices != []
    ensures after.mem.Valid()
    ensures r.DiskValid() ==> after.DiskValid()
  {
    Saved(Observed(r, o, maximum))
  }

  /** A crash loses the memory; the restart restores whatever was saved. */
  function Restart(r: Runtime): (after: Runtime)
    requires r.DiskValid()
    ensures after.mem.Valid() && after.DiskValid()
  {
    if r.disk.None? then Runtime(FRESH, None, -1, r.delivered)
    else Runtime(Restore(r.disk.value), r.disk, r.disk.value.revision, r.delivered)
  }

  /** The next observation closes a bar that misses delivered observations of its bucket. */
  ghost predicate Truncates(r: Runtime, o: Obs, f: nat)
    requires f < 3 && r.mem.Valid()
  {
    var s := r.mem.frames[f];
    && s.valid && s.current.Some? && s.current.value.openTs != InFrame(o, TIMEFRAMES[f]).start
    && !FoldOf(s.current.value, Ticks(r.delivered, TIMEFRAMES[f]), s.duration)
  }

  ghost predicate TruncatesIn(r: Runtime, future: seq<Obs>, maximum: nat, f: nat)
    requires f < 3 && r.mem.Valid() && forall i | 0 <= i < |future| :: future[i].prices != []
    decreases |future|
  {
    future != [] && (Truncates(r, future[0], f) || TruncatesIn(OnMarket(r, future[0], maximum), future[1..], maximum, f))
  }

  /** The open candle lies in the newest bucket, and is complete unless quarantined. */
  ghost predicate SoundFrame(s: BarState, ticks: seq<Tick>) {
    && (ticks != [] ==> s.current.Some? && s.current.value.openTs == ticks[|ticks| - 1].start)
    && (s.valid && s.current.Some? ==> FoldOf(s.current.value, ticks, s.duration))
  }

  lemma {:induction false} NewBucketIsSound(s: BarState, ticks: seq<Tick>, tick: Tick, maximum: nat)
    requires tick.prices != [] && ValidStream(ticks)
    requires ticks != [] ==> ticks[|ticks| - 1].start < tick.start
    requires s.current.Some? ==> s.current.value.openTs != tick.start
    ensures SoundFrame(UpdateTimeframe(s, tick, maximum).0, ticks + [tick])
  {
    if ticks != [] {
      BucketsBehind(ticks, tick.start);
    }
    FoldOpened(ticks, tick, s.duration);
  }

  lemma {:induction false} SoundFrameStep(s: BarState, ticks: seq<Tick>, tick: Tick, maximum: nat)
    requires tick.prices != [] && ValidStream(ticks) && SoundFrame(s, ticks)
    requires ticks != [] ==> ticks[|ticks| - 1].start <= tick.start
    ensures SoundFrame(UpdateTimeframe(s, tick, maximum).0, ticks + [tick])
  {
    if s.current.None? || s.current.value.openTs != tick.start {
      NewBucketIsSound(s, ticks, tick, maximum);
    } else if s.valid {
      FoldExtended(s.current.value, ticks, tick, s.duration);
    }
  }

  lemma {:induction false} SoundFrameObserves(s: BarState, obs: seq<Obs>, o: Obs, frame: Timeframe, maximum: nat)
    requires Stream(obs) && o.prices != [] && (obs != [] ==> obs[|obs| - 1].ts < o.ts)
    requires SoundFrame(s, Ticks(obs, frame))
    ensures SoundFrame(UpdateTimeframe(s, InFrame(o, frame), maximum).0, Ticks(obs + [o], frame))
  {
    TicksValid(obs, frame);
    if obs != [] {
      BucketFacts(obs[|obs| - 1].ts, o.ts, frame);
    }
    SoundFrameStep(s, Ticks(obs, frame), InFrame(o, frame), maximum);
    TicksSnoc(obs, o, frame);
  }

  /** Once a bucket is used up the next observation starts a new one, whatever was restored. */
  lemma {:induction false} UsedUpFrameObserves(s: BarState, obs: seq<Obs>, o: Obs, frame: Timeframe, maximum: nat)
    requires Stream(obs) && obs != [] && o.prices != []
    requires var last := obs[|obs| - 1].ts;
             && last < o.ts && BucketStart(last + 1, frame) != BucketStart(last, frame)
             && (s.current.Some? ==> s.current.value.openTs <= BucketStart(last, frame))
    ensures SoundFrame(UpdateTimeframe(s, InFrame(o, frame), maximum).0, Ticks(obs + [o], frame))
  {
    var last := obs[|obs| - 1].ts;
    BucketFacts(last, last + 1, frame);
    BucketFacts(last + 1, o.ts, frame);
    TicksValid(obs, frame);
    NewBucketIsSound(s, Ticks(obs, frame), InFrame(o, frame), maximum);
    TicksSnoc(obs, o, frame);
  }

  ghost predicate Sound(r: Runtime, f: nat)
    requires f < 3 && r.mem.Valid()
  {
    SoundFrame(r.mem.frames[f], Ticks(r.delivered, TIMEFRAMES[f]))
  }

  lemma {:induction false} StreamSnoc(obs: seq<Obs>, o: Obs)
    requires Stream(obs) && o.prices != [] && (obs != [] ==> obs[|obs| - 1].ts < o.ts)
    ensures Stream(obs + [o])
  {
  }

  lemma {:induction false} UpdatesFrame(r: Runtime, o: Obs, maximum: nat, f: nat)
    requires f < 3 && r.Valid() && o.prices != []
    requires r.delivered != [] ==> r.delivered[|r.delivered| - 1].ts < o.ts
    ensures OnMarket(r, o, maximum).Valid()
    ensures OnMarket(r, o, maximum).delivered == r.delivered + [o]
    ensures OnMarket(r, o, maximum).mem.frames[f] == UpdateTimeframe(r.mem.frames[f], InFrame(o, TIMEFRAMES[f]), maximum).0
  {
    StreamSnoc(r.delivered, o);
    UpdateStateFrame(r.mem, o, maximum, f);
  }

  lemma {:induction false} SoundStep(r: Runtime, o: Obs, maximum: nat, f: nat)
    requires f < 3 && r.Valid() && Sound(r, f)
    requires o.prices != [] && (r.delivered != [] ==> r.delivered[|r.delivered| - 1].ts < o.ts)
    ensures OnMarket(r, o, maximum).Valid() && Sound(OnMarket(r, o, maximum), f)
  {
    UpdatesFrame(r, o, maximum, f);
    SoundFrameObserves(r.mem.frames[f], r.delivered, o, TIMEFRAMES[f], maximum);
  }

  ghost predicate Continues(delivered: seq<Obs>, future: seq<Obs>) { Stream(delivered + future) }

  lemma {:induction false} ContinuesStep(delivered: seq<Obs>, future: seq<Obs>)
    requires Continues(delivered, future) && future != []
    ensures forall i | 0 <= i < |future| :: future[i].prices != []
    ensures delivered != [] ==> delivered[|delivered| - 1].ts < future[0].ts
    ensures Continues(delivered + [future[0]], future[1..])
  {
    var all := delivered + future;
    assert forall i | 0 <= i < |future| :: future[i] == all[|delivered| + i];
    if delivered != [] {
      assert all[|delivered| - 1].ts < all[|delivered|].ts;
    }
    assert delivered + [future[0]] + future[1..] == all;
  }

  lemma {:induction false} SoundNeverTruncates(r: Runtime, future: seq<Obs>, maximum: nat, f: nat)
    requires f < 3 && r.Valid() && Sound(r, f) && Continues(r.delivered, future)
    ensures forall i | 0 <= i < |future| :: future[i].prices != []
    ensures !TruncatesIn(r, future, maximum, f)
    decreases |future|
  {
    if future != [] {
      ContinuesStep(r.delivered, future);
      SoundStep(r, future[0], maximum, f);
      SoundNeverTruncates(OnMarket(r, future[0], maximum), future[1..], maximum, f);
    }
  }

  /**
   The check that decides whether a crash is harmless for one timeframe: the
   saved candle is in the bucket of the last processed observation, or that
   bucket has no nanosecond left for another observation.
   */
  ghost predicate SafeToRestart(r: Runtime, f: nat)
    requires f < 3 && r.Valid()
  {
    var frame := TIMEFRAMES[f];
    SavedInNewestBucket(r, f) ||
    var last := r.delivered[|r.delivered| - 1].ts;
    BucketStart(last + 1, frame) != BucketStart(last, frame)
  }

  /** No candle lies in a bucket later than the last processed observation. */
  ghost predicate NotAhead(s: BarState, delivered: seq<Obs>, frame: Timeframe) {
    s.current.Some? ==>
      delivered != [] && s.current.value.openTs <= BucketStart(delivered[|delivered| - 1].ts, frame)
  }

  ghost predicate Behind(r: Runtime, f: nat)
    requires f < 3 && r.Valid()
  {
    r.disk.Some? ==> NotAhead(r.disk.value.frames[f], r.delivered, TIMEFRAMES[f])
  }

  lemma {:induction false} NotAheadLater(s: BarState, delivered: seq<Obs>, o: Obs, frame: Timeframe)
    requires NotAhead(s, delivered, frame) && (delivered != [] ==> delivered[|delivered| - 1].ts < o.ts)
    ensures NotAhead(s, delivered + [o], frame)
  {
    if delivered != [] {
      BucketFacts(delivered[|delivered| - 1].ts, o.ts, frame);
    }
  }

  lemma {:induction false} UpdatedNotAhead(s: BarState, delivered: seq<Obs>, o: Obs, frame: Timeframe, maximum: nat)
    requires o.prices != []
    ensures NotAhead(UpdateTimeframe(s, InFrame(o, frame), maximum).0, delivered + [o], frame)
  {
  }

  /** Every step of the runtime keeps the saved candles behind the observations. */
  lemma {:induction false} BehindKept(r: Runtime, o: Obs, maximum: nat, f: nat)
    requires f < 3 && r.Valid() && Behind(r, f)
    requires o.prices != [] && (r.delivered != [] ==> r.delivered[|r.delivered| - 1].ts < o.ts)
    ensures BOOT.Valid() && Behind(BOOT, f)
    ensures Observed(r, o, maximum).Valid() && Behind(Observed(r, o, maximum), f)
    ensures OnMarket(r, o, maximum).Valid() && Behind(OnMarket(r, o, maximum), f)
    ensures Restart(r).Valid() && Behind(Restart(r), f)
  {
    UpdatesFrame(r, o, maximum, f);
    UpdatedNotAhead(r.mem.frames[f], r.delivered, o, TIMEFRAMES[f], maximum);
    if r.disk.Some? {
      NotAheadLater(r.disk.value.frames[f], r.delivered, o, TIMEFRAMES[f]);
    }
  }

  lemma {:induction false} RestartedFrame(r: Runtime, f: nat)
    requires f < 3 && r.Valid()
    ensures Restart(r).Valid()
    ensures Restart(r).mem.frames[f].current.Some? ==> !Restart(r).mem.frames[f].valid
    ensures r.disk.None? ==> Restart(r).mem.frames[f].current.None?
    ensures r.disk.Some? ==> Restart(r).mem.frames[f].current == r.disk.value.frames[f].current
    ensures Restart(r).mem.frames[f].duration == TIMEFRAMES[f].Duration()
  {
  }

  ghost predicate SavedInNewestBucket(r: Runtime, f: nat)
    requires f < 3 && r.Valid()
  {
    r.delivered == [] ||
    (r.disk.Some? && r.disk.value.frames[f].current.Some?
     && r.disk.value.frames[f].current.value.openTs
        == BucketStart(r.delivered[|r.delivered| - 1].ts, TIMEFRAMES[f]))
  }

  lemma {:induction false} RestartSound(r: Runtime, f: nat)
    requires f < 3 && r.Valid() && SavedInNewestBucket(r, f)
    ensures Restart(r).Valid() && Sound(Restart(r), f)
  {
    RestartedFrame(r, f);
  }

  lemma {:induction false} UsedUpBucketSound(r: Runtime, o: Obs, maximum: nat, f: nat)
    requires f < 3 && r.Valid() && Behind(r, f) && r.delivered != [] && o.prices != []
    requires var last := r.delivered[|r.delivered| - 1].ts;
             last < o.ts && BucketStart(last + 1, TIMEFRAMES[f]) != BucketStart(last, TIMEFRAMES[f])
    ensures Restart(r).Valid()
    ensures OnMarket(Restart(r), o, maximum).Valid() && Sound(OnMarket(Restart(r), o, maximum), f)
  {
    RestartedFrame(r, f);
    UpdatesFrame(Restart(r), o, maximum, f);
    UsedUpFrameObserves(Restart(r).mem.frames[f], r.delivered, o, TIMEFRAMES[f], maximum);
  }

  lemma {:induction false} SafeMeansWhole(r: Runtime, future: seq<Obs>, maximum: nat, f: nat)
    requires f < 3 && r.Valid() && Behind(r, f) && SafeToRestart(r, f) && Continues(r.delivered, future)
    ensures Restart(r).Valid() && forall i | 0 <= i < |future| :: future[i].prices != []
    ensures !TruncatesIn(Restart(r), future, maximum, f)
  {
    RestartedFrame(r, f);
    if future != [] {
      ContinuesStep(r.delivered, future);
      if SavedInNewestBucket(r, f) {
        RestartSound(r, f);
        SoundNeverTruncates(Restart(r), future, maximum, f);
      } else {
        UsedUpBucketSound(r, future[0], maximum, f);
        SoundNeverTruncates(OnMarket(Restart(r), future[0], maximum), future[1..], maximum, f);
      }
    }
  }

  /** The two observations that expose an unsafe restart. */
  function Witness(last: nat, frame: Timeframe): seq<Obs> {
    [Obs(last + 1, [1.0], 0.0, 0.0), Obs(BucketStart(last, frame) + frame.Duration(), [1.0], 0.0, 0.0)]
  }

  lemma {:induction false} WitnessContinues(delivered: seq<Obs>, frame: Timeframe)
    requires Stream(delivered) && delivered != []
    requires var last := delivered[|delivered| - 1].ts; BucketStart(last + 1, frame) == BucketStart(last, frame)
    ensures var last := delivered[|delivered| - 1].ts;
            var future := Witness(last, frame);
            && Continues(delivered, future)
            && InFrame(future[0], frame).start == BucketStart(last, frame) < InFrame(future[1], frame).start
  {
    var last := delivered[|delivered| - 1].ts;
    var future := Witness(last, frame);
    BucketFacts(last + 1, last + 1, frame);
    BucketFacts(future[1].ts, future[1].ts, frame);
    BucketFacts(last, future[1].ts, frame);
    StreamSnoc(delivered, future[0]);
    StreamSnoc(delivered + [future[0]], future[1]);
    assert delivered + future == delivered + [future[0]] + [future[1]];
  }

  /** An observation in the bucket of the last delivered one reopens that bucket after a restart. */
  lemma {:induction false} ReopensBucket(r: Runtime, o: Obs, maximum: nat, f: nat)
    requires f < 3 && r.Valid() && o.prices != [] && r.delivered != [] && !SavedInNewestBucket(r, f)
    requires InFrame(o, TIMEFRAMES[f]).start == BucketStart(r.delivered[|r.delivered| - 1].ts, TIMEFRAMES[f])
    ensures Restart(r).Valid()
    ensures var r1 := OnMarket(Restart(r), o, maximum);
            && r1.mem.Valid() && r1.delivered == r.delivered + [o]
            && r1.mem.frames[f].valid && r1.mem.frames[f].current.Some?
            && r1.mem.frames[f].current.value.openTs == InFrame(o, TIMEFRAMES[f]).start
            && r1.mem.frames[f].current.value.count == 1
  {
    RestartedFrame(r, f);
    UpdateStateFrame(Restart(r).mem, o, maximum, f);
  }

  lemma {:induction false} UnsafeMeansTruncated(r: Runtime, maximum: nat, f: nat)
    requires f < 3 && r.Valid() && !SafeToRestart(r, f)
    ensures r.delivered != [] && Restart(r).Valid()
    ensures var future := Witness(r.delivered[|r.delivered| - 1].ts, TIMEFRAMES[f]);
            Continues(r.delivered, future) && TruncatesIn(Restart(r), future, maximum, f)
  {
    var frame := TIMEFRAMES[f];
    var future := Witness(r.delivered[|r.delivered| - 1].ts, frame);
    WitnessContinues(r.delivered, frame);
    ReopensBucket(r, future[0], maximum, f);
    TwoInBucket(r.delivered, future[0], frame);
    var r1 := OnMarket(Restart(r), future[0], maximum);
    assert Truncates(r1, future[1], f);
    assert TruncatesIn(r1, future[1..], maximum, f);
  }

  lemma {:induction false} TwoInBucket(obs: seq<Obs>, o: Obs, frame: Timeframe)
    requires obs != [] && InFrame(obs[|obs| - 1], frame).start == InFrame(o, frame).start
    ensures |Group(Ticks(obs + [o], frame), InFrame(o, frame).start)| >= 2
  {
    var n := |obs|;
    var ticks := Ticks(obs + [o], frame);
    assert ticks[..n][..n - 1] == ticks[..n - 1];
    assert ticks[..n][n - 1].start == InFrame(o, frame).start;
    assert ticks[n].start == InFrame(o, frame).start;
  }

  /**
   Exactly when a crash leaves the candles whole: no continuation ever emits a
   bar that misses processed observations if and only if the saved candle is in
   the bucket of the last processed observation (or that bucket is used up).
   */
  lemma {:induction false} CrashSafeExactlyWhen(r: Runtime, maximum: nat, f: nat)
    requires f < 3 && r.Valid() && Behind(r, f)
    ensures Restart(r).Valid()
    ensures SafeToRestart(r, f) <==>
              forall future: seq<Obs> | Continues(r.delivered, future) ::
                (forall i | 0 <= i < |future| :: future[i].prices != [])
                && !TruncatesIn(Restart(r), future, maximum, f)
  {
    RestartedFrame(r, f);
    if SafeToRestart(r, f) {
      forall future: seq<Obs> | Continues(r.delivered, future)
        ensures (forall i | 0 <= i < |future| :: future[i].prices != [])
             && !TruncatesIn(Restart(r), future, maximum, f)
      {
        SafeMeansWhole(r, future, maximum, f);
      }
    } else {
      UnsafeMeansTruncated(r, maximum, f);
    }
  }

  // ----- where the check holds and where it fails -----

  /** One timeframe of memory and of disk agree on the open bucket. */
  ghost predicate SameBucket(a: BarState, b: BarState, start: nat) {
    a.valid && a.current.Some? && b.current.Some? && a.current.value.openTs == b.current.value.openTs == start
  }

  ghost predicate InStep(r: Runtime) {
    && r.Valid() && r.disk.Some? && r.persisted == r.mem.revision && r.delivered != []
    && forall f: nat | f < 3 ::
         SameBucket(r.mem.frames[f], r.disk.value.frames[f],
                    BucketStart(r.delivered[|r.delivered| - 1].ts, TIMEFRAMES[f]))
  }

  /** While every candle is valid, entering a new bucket closes a bar and moves the revision. */
  lemma {:induction false} InStepKept(r: Runtime, o: Obs, maximum: nat)
    requires InStep(r) && o.prices != [] && r.delivered[|r.delivered| - 1].ts < o.ts
    ensures InStep(OnMarket(r, o, maximum))
  {
    StreamSnoc(r.delivered, o);
    var after := OnMarket(r, o, maximum);
    forall f: nat | f < 3
      ensures SameBucket(after.mem.frames[f], after.disk.value.frames[f], BucketStart(o.ts, TIMEFRAMES[f]))
    {
      UpdatesFrame(r, o, maximum, f);
      assert SameBucket(r.mem.frames[f], r.disk.value.frames[f],
                        BucketStart(r.delivered[|r.delivered| - 1].ts, TIMEFRAMES[f]));
      if r.mem.frames[f].current.value.openTs != InFrame(o, TIMEFRAMES[f]).start {
        ClosingMovesRevision(r.mem, o, maximum, f);
      }
    }
  }

  lemma {:induction false} ClosingMovesRevision(s: StructureState, o: Obs, maximum: nat, f: nat)
    requires s.Valid() && f < 3 && o.prices != []
    requires UpdateTimeframe(s.frames[f], InFrame(o, TIMEFRAMES[f]), maximum).1
    ensures UpdateState(s, o, maximum).revision == s.revision + 1
  {
  }

  lemma {:induction false} FirstObservationInStep(o: Obs, maximum: nat)
    requires o.prices != []
    ensures InStep(OnMarket(BOOT, o, maximum))
  {
    var after := OnMarket(BOOT, o, maximum);
    forall f: nat | f < 3
      ensures SameBucket(after.mem.frames[f], after.disk.value.frames[f], BucketStart(o.ts, TIMEFRAMES[f]))
    {
      UpdatesFrame(BOOT, o, maximum, f);
    }
  }

  lemma {:induction false} StreamInit(obs: seq<Obs>)
    requires Stream(obs) && obs != []
    ensures Stream(obs[..|obs| - 1]) && obs[|obs| - 1].prices != []
    ensures |obs| > 1 ==> obs[..|obs| - 1][|obs| - 2].ts < obs[|obs| - 1].ts
  {
  }

  lemma {:induction false} FirstLifeInStep(obs: seq<Obs>, maximum: nat)
    requires Stream(obs) && obs != []
    ensures InStep(RunMarkets(BOOT, obs, maximum)) && RunMarkets(BOOT, obs, maximum).delivered == obs
  {
    var init, o := obs[..|obs| - 1], obs[|obs| - 1];
    StreamInit(obs);
    assert init + [o] == obs;
    if init == [] {
      FirstObservationInStep(o, maximum);
    } else {
      FirstLifeInStep(init, maximum);
      InStepKept(RunMarkets(BOOT, init, maximum), o, maximum);
    }
  }

  /** During the first life every moment between two market states is a safe moment to crash. */
  lemma {:induction false} FirstLifeIsSafe(obs: seq<Obs>, maximum: nat, f: nat)
    requires Stream(obs) && obs != [] && f < 3
    ensures var r := RunMarkets(BOOT, obs, maximum);
            r.Valid() && r.delivered == obs && SafeToRestart(r, f)
  {
    FirstLifeInStep(obs, maximum);
    var r := RunMarkets(BOOT, obs, maximum);
    assert SameBucket(r.mem.frames[f], r.disk.value.frames[f], BucketStart(obs[|obs| - 1].ts, TIMEFRAMES[f]));
  }

  /** An observation in memory only, on top of a saved state that was in step. */
  lemma {:induction false} UnsavedSafeExactlyWhen(r: Runtime, o: Obs, maximum: nat, f: nat)
    requires InStep(r) && o.prices != [] && r.delivered[|r.delivered| - 1].ts < o.ts && f < 3
    ensures var mid, frame := Observed(r, o, maximum), TIMEFRAMES[f];
            && mid.Valid() && Behind(mid, f) && mid.delivered == r.delivered + [o]
            && (SafeToRestart(mid, f) <==>
                  BucketStart(o.ts, frame) == BucketStart(r.delivered[|r.delivered| - 1].ts, frame)
                  || BucketStart(o.ts + 1, frame) != BucketStart(o.ts, frame))
  {
    StreamSnoc(r.delivered, o);
    assert SameBucket(r.mem.frames[f], r.disk.value.frames[f],
                      BucketStart(r.delivered[|r.delivered| - 1].ts, TIMEFRAMES[f]));
    NotAheadLater(r.disk.value.frames[f], r.delivered, o, TIMEFRAMES[f]);
  }

  /** The very first observation, in memory only. */
  lemma {:induction false} FirstUnsavedSafeExactlyWhen(o: Obs, maximum: nat, f: nat)
    requires o.prices != [] && f < 3
    ensures var mid, frame := Observed(BOOT, o, maximum), TIMEFRAMES[f];
            && mid.Valid() && Behind(mid, f) && mid.delivered == [o]
            && (SafeToRestart(mid, f) <==> BucketStart(o.ts + 1, frame) != BucketStart(o.ts, frame))
  {
    assert [] + [o] == [o];
  }

  /**
   A first-life crash between the engine update and its save is harmless for a
   timeframe if and only if the new observation stayed in the bucket of the one
   before it, or was the last nanosecond of its own.
   */
  lemma {:induction false} MidCycleSafeExactlyWhen(obs: seq<Obs>, o: Obs, maximum: nat, f: nat)
    requires Stream(obs) && o.prices != [] && (obs != [] ==> obs[|obs| - 1].ts < o.ts) && f < 3
    ensures var mid, frame := Observed(RunMarkets(BOOT, obs, maximum), o, maximum), TIMEFRAMES[f];
            && mid.Valid() && Behind(mid, f) && mid.delivered == obs + [o]
            && (SafeToRestart(mid, f) <==>
                  (obs != [] && BucketStart(o.ts, frame) == BucketStart(obs[|obs| - 1].ts, frame))
                  || BucketStart(o.ts + 1, frame) != BucketStart(o.ts, frame))
  {
    if obs == [] {
      FirstUnsavedSafeExactlyWhen(o, maximum, f);
      assert obs + [o] == [o];
    } else {
      FirstLifeInStep(obs, maximum);
      UnsavedSafeExactlyWhen(RunMarkets(BOOT, obs, maximum), o, maximum, f);
    }
  }

  function RunMarkets(r: Runtime, obs: seq<Obs>, maximum: nat): (after: Runtime)
    requires r.mem.Valid() && forall i | 0 <= i < |obs| :: obs[i].prices != []
    ensures after.mem.Valid()
  {
    if obs == [] then r else OnMarket(RunMarkets(r, obs[..|obs| - 1], maximum), obs[|obs| - 1], maximum)
  }

  function At(seconds: nat): Obs { Obs(seconds * NANOSECONDS_PER_SECOND, [1.0], 1.0, 0.0) }

  lemma {:induction false} RestartQuarantines(r: Runtime)
    requires r.DiskValid()
    ensures forall f | 0 <= f < 3 && r.disk.Some? :: !Restart(r).mem.frames[f].valid
  {
  }

  /** The first observation is saved at once, and the restart quarantines it. */
  lemma {:induction false} FirstCrash(o: Obs, maximum: nat)
    requires o.prices != []
    ensures var one := OnMarket(BOOT, o, maximum);
            && one.Valid() && one.disk == Some(one.mem) && one.delivered == [o]
            && Restart(one).persisted == Restart(one).mem.revision
  {
    UpdatesFrame(BOOT, o, maximum, 0);
  }

  lemma {:induction false} FirstMinute(maximum: nat)
    ensures var s := OnMarket(BOOT, At(0), maximum).mem.frames[0]; s.current.Some? && s.current.value.openTs == 0
  {
    UpdatesFrame(BOOT, At(0), maximum, 0);
    assert BucketStart(0, OneMinute) == 0;
  }

  /** Rolling out of quarantined buckets closes no bar, so nothing new is saved. */
  lemma {:induction false} QuarantinedRollsSilently(r: Runtime, o: Obs, maximum: nat)
    requires r.mem.Valid() && o.prices != [] && r.persisted == r.mem.revision
    requires forall f | 0 <= f < 3 :: !r.mem.frames[f].valid
    ensures OnMarket(r, o, maximum).disk == r.disk && OnMarket(r, o, maximum).delivered == r.delivered + [o]
  {
  }

  /** Seventy seconds in, a save of the first minute is stale and its bucket has time left. */
  lemma {:induction false} StaleSaveIsUnsafe(r: Runtime)
    requires r.Valid() && r.delivered == [At(0), At(70)]
    requires r.disk.Some? && r.disk.value.frames[0].current.Some? && r.disk.value.frames[0].current.value.openTs == 0
    ensures Behind(r, 0) && !SafeToRestart(r, 0)
  {
    assert r.delivered[|r.delivered| - 1].ts == 70 * NANOSECONDS_PER_SECOND;
    assert BucketStart(70 * NANOSECONDS_PER_SECOND, OneMinute) == 60 * NANOSECONDS_PER_SECOND;
    assert BucketStart(70 * NANOSECONDS_PER_SECOND + 1, OneMinute) == 60 * NANOSECONDS_PER_SECOND;
  }

  lemma {:induction false} SecondLife(a: Obs, b: Obs, maximum: nat, one: Runtime, first: Runtime, second: Runtime)
    requires a.prices != [] && b.prices != [] && a.ts < b.ts
    requires one == OnMarket(BOOT, a, maximum) && first == Restart(one) && second == OnMarket(first, b, maximum)
    ensures second.Valid() && second.delivered == [a, b] && second.disk == Some(one.mem)
  {
    FirstCrash(a, maximum);
    RestartQuarantines(one);
    UpdatesFrame(first, b, maximum, 0);
    QuarantinedRollsSilently(first, b, maximum);
  }

  /**
   A second crash can be unsafe.  Rolling out of a quarantined bucket closes no
   bar, so nothing is saved; crashing before the next close restores the older
   bucket, and the one-minute bar cut by the second crash is emitted.
   */
  lemma {:induction false} SecondCrashCanTruncate(maximum: nat, one: Runtime, first: Runtime, second: Runtime)
    requires one == OnMarket(BOOT, At(0), maximum) && first == Restart(one)
    requires second == OnMarket(first, At(70), maximum)
    ensures second.Valid() && Behind(second, 0) && !SafeToRestart(second, 0)
    ensures TruncatesIn(Restart(second), Witness(70 * NANOSECONDS_PER_SECOND, OneMinute), maximum, 0)
  {
    FirstMinute(maximum);
    SecondLife(At(0), At(70), maximum, one, first, second);
    StaleSaveIsUnsafe(second);
    UnsafeMeansTruncated(second, maximum, 0);
  }
}
