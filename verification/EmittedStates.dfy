/**
 What every emitted live state shows, told from positions in the event history:
 which events trigger a state, which trades it carries, and which quote and
 which snapshot its sides come from.
 */
module EmittedStates {
  import opened Wrappers
  import opened Market
  import opened LiveAssembler

  // ----- which events trigger a state -----

  /** A book event received no later than the age limit after it was produced. */
  predicate FreshBook(c: Config, e: Event) { !e.Trade? && e.receiveTs <= e.eventTs + c.maximumAge }

  /** Position `n` of the list is the last one before `k`. */
  ghost predicate LastBefore(at: seq<nat>, n: int, k: int) {
    0 <= n < |at| && at[n] < k && (n + 1 < |at| ==> k <= at[n + 1])
  }

  /** The trigger before `k`, if there was one, was received at least the minimum interval before it. */
  ghost predicate LongEnough(c: Config, events: seq<Event>, at: seq<nat>, k: nat)
    requires k < |events| && forall n | 0 <= n < |at| :: at[n] < |events|
  {
    forall n | LastBefore(at, n, k) :: events[at[n]].receiveTs + c.minimumInterval <= events[k].receiveTs
  }

  ghost predicate Increasing(at: seq<nat>, size: nat) {
    (forall n | 0 <= n < |at| :: at[n] < size) && forall m, n | 0 <= m < n < |at| :: at[m] < at[n]
  }

  /**
   `at` lists, in order, the positions that trigger a state: the first fresh
   book, and then each fresh book received at least the minimum interval after
   the one that triggered the state before it.
   */
  ghost predicate Triggers(c: Config, events: seq<Event>, at: seq<nat>) {
    && Increasing(at, |events|)
    && forall k: nat | k < |events| :: k in at <==> FreshBook(c, events[k]) && LongEnough(c, events, at, k)
  }

  lemma {:induction false} LongEnoughStays(c: Config, init: seq<Event>, e: Event, before: seq<nat>, at: seq<nat>, k: nat)
    requires Increasing(before, |init|) && k < |init| && (at == before || at == before + [|init|])
    ensures LongEnough(c, init + [e], at, k) <==> LongEnough(c, init, before, k)
  {
    var events := init + [e];
    assert forall i | 0 <= i < |init| :: events[i] == init[i];
    forall n ensures LastBefore(at, n, k) <==> LastBefore(before, n, k) {
    }
    assert forall n | 0 <= n < |before| :: at[n] == before[n];
  }

  lemma {:induction false} LongEnoughNow(c: Config, init: seq<Event>, e: Event, before: seq<nat>, at: seq<nat>)
    requires Increasing(before, |init|) && (at == before || at == before + [|init|])
    ensures LongEnough(c, init + [e], at, |init|)
            <==> before == [] || init[before[|before| - 1]].receiveTs + c.minimumInterval <= e.receiveTs
  {
    var events := init + [e];
    forall n ensures LastBefore(at, n, |init|) <==> n == |before| - 1 && before != [] {
    }
    if before != [] {
      assert LastBefore(at, |before| - 1, |init|);
      assert events[at[|before| - 1]] == init[before[|before| - 1]];
    }
  }

  lemma {:induction false} TriggersSnoc(c: Config, init: seq<Event>, e: Event, before: seq<nat>, at: seq<nat>)
    requires Triggers(c, init, before)
    requires at == if FreshBook(c, e) && (before == [] || init[before[|before| - 1]].receiveTs + c.minimumInterval <= e.receiveTs)
                   then before + [|init|] else before
    ensures Triggers(c, init + [e], at)
  {
    var events := init + [e];
    forall k: nat | k < |events| ensures k in at <==> FreshBook(c, events[k]) && LongEnough(c, events, at, k) {
      if k < |init| {
        LongEnoughStays(c, init, e, before, at, k);
        assert k in before <==> FreshBook(c, init[k]) && LongEnough(c, init, before, k);
      } else {
        LongEnoughNow(c, init, e, before, at);
      }
    }
  }

  // ----- the trades of a state -----

  /** The trades that arrived at position `since` or later and are within the age limit at `observed`, field by field. */
  ghost function TradesSince(events: seq<Event>, since: nat, observed: nat, maximumAge: nat): seq<KernelTrade> {
    if |events| <= since then []
    else
      var e := events[|events| - 1];
      TradesSince(events[..|events| - 1], since, observed, maximumAge) +
      if e.Trade? && observed <= e.eventTs + maximumAge
      then [KernelTrade(e.eventTs, e.receiveTs, e.price, e.size, e.aggressor)]
      else []
  }

  /** The trade events at position `since` or later. */
  ghost function WaitingSince(events: seq<Event>, since: nat): seq<Event> {
    if |events| <= since then []
    else WaitingSince(events[..|events| - 1], since) + if events[|events| - 1].Trade? then [events[|events| - 1]] else []
  }

  lemma {:induction false} WaitingMeans(events: seq<Event>, since: nat, observed: nat, maximumAge: nat)
    ensures AllTrades(WaitingSince(events, since))
    ensures AllTrades(Fresh(WaitingSince(events, since), observed, maximumAge))
    ensures AsTrades(Fresh(WaitingSince(events, since), observed, maximumAge))
            == TradesSince(events, since, observed, maximumAge)
    decreases |events|
  {
    if |events| > since {
      var init, e := events[..|events| - 1], events[|events| - 1];
      WaitingMeans(init, since, observed, maximumAge);
      if e.Trade? {
        FreshSnoc(WaitingSince(init, since), e, observed, maximumAge);
        AsTradesSnoc(Fresh(WaitingSince(init, since), observed, maximumAge), e);
      } else {
        assert WaitingSince(events, since) == WaitingSince(init, since);
      }
    }
  }

  // ----- the sides of a state -----

  function Least(m: nat, n: nat): nat { if m < n then m else n }

  /** Position of the last snapshot that was within the age limit when it arrived. */
  ghost predicate LastSnapshot(c: Config, events: seq<Event>, d: int) {
    && 0 <= d < |events| && events[d].L2Book? && FreshBook(c, events[d])
    && forall j | d < j < |events| :: !(events[j].L2Book? && FreshBook(c, events[j]))
  }

  /** The last snapshot is not newer than the quote, and still within the age limit when the quote arrives. */
  ghost predicate Usable(c: Config, before: seq<Event>, quote: Event, d: int) {
    && LastSnapshot(c, before, d)
    && before[d].eventTs <= quote.eventTs && quote.receiveTs <= before[d].eventTs + c.maximumAge
  }

  /** The quote, and then from position `m` on the levels that are strictly worse, at most `depth` levels in all. */
  ghost predicate QuoteThenWorse(side: Side, quote: Level, deeper: seq<Level>, m: nat, depth: nat, levels: seq<Level>)
    requires depth >= 1
  {
    && m <= |deeper|
    && (forall i | 0 <= i < m :: !Better(side, quote.price, deeper[i].price))
    && (forall i | m <= i < |deeper| :: Better(side, quote.price, deeper[i].price))
    && levels == [quote] + deeper[m..m + Least(depth - 1, |deeper| - m)]
  }

  function QuoteOn(side: Side, e: Event): Level
    requires e.Bbo?
  {
    if side == Bid then e.bid else e.ask
  }

  function SnapshotOn(side: Side, e: Event): seq<Level>
    requires e.L2Book?
  {
    if side == Bid then e.bids else e.asks
  }

  /** The side of a quote for which the snapshot at `d` is usable. */
  ghost predicate Deepened(c: Config, before: seq<Event>, e: Event, side: Side, d: int, levels: seq<Level>)
    requires c.Valid() && e.Bbo?
  {
    && Usable(c, before, e, d)
    && exists m: nat :: QuoteThenWorse(side, QuoteOn(side, e), SnapshotOn(side, before[d]), m, c.depthLevels, levels)
  }

  ghost predicate SideShows(c: Config, before: seq<Event>, e: Event, side: Side, levels: seq<Level>)
    requires c.Valid() && !e.Trade?
  {
    if e.L2Book? then levels == SnapshotOn(side, e)[..Least(c.depthLevels, |SnapshotOn(side, e)|)]
    else if exists d :: Usable(c, before, e, d) then exists d :: Deepened(c, before, e, side, d, levels)
    else levels == [QuoteOn(side, e)]
  }

  /** The book time: the snapshot's when its depth is used, the event's own otherwise. */
  ghost predicate BookTimeShows(c: Config, before: seq<Event>, e: Event, bookTs: nat) {
    if e.Bbo? && exists d :: Usable(c, before, e, d)
    then exists d :: Usable(c, before, e, d) && bookTs == before[d].eventTs
    else bookTs == e.eventTs
  }

  /** The latest exchange time among the book event and the trades of the state. */
  ghost predicate LatestTime(e: Event, trades: seq<KernelTrade>, ts: nat) {
    && e.eventTs <= ts && (forall i | 0 <= i < |trades| :: trades[i].exchangeTs <= ts)
    && (ts == e.eventTs || exists i :: 0 <= i < |trades| && trades[i].exchangeTs == ts)
  }

  /** The state that book `e` gives rise to after `before`, when the state before it was triggered ahead of `since`. */
  ghost predicate Shows(c: Config, before: seq<Event>, since: nat, n: nat, e: Event, state: KernelState)
    requires c.Valid() && !e.Trade?
  {
    && state.observedTs == e.receiveTs && state.sequence == n
    && state.trades == TradesSince(before, since, e.receiveTs, c.maximumAge)
    && LatestTime(e, state.trades, state.exchangeTs)
    && BookTimeShows(c, before, e, state.bookExchangeTs)
    && SideShows(c, before, e, Bid, state.bids) && SideShows(c, before, e, Ask, state.asks)
  }

  lemma {:induction false} LastDepthMeans(c: Config, events: seq<Event>)
    ensures LastDepth(c, events).None? ==> forall d :: !LastSnapshot(c, events, d)
    ensures LastDepth(c, events).Some? ==>
              exists d :: LastSnapshot(c, events, d) && events[d] == LastDepth(c, events).value
  {
    if events != [] {
      var init, e := events[..|events| - 1], events[|events| - 1];
      if e.L2Book? && FreshBook(c, e) {
        assert LastSnapshot(c, events, |init|);
      } else {
        LastDepthMeans(c, init);
        forall d ensures LastSnapshot(c, events, d) <==> LastSnapshot(c, init, d) {
        }
      }
    }
  }

  lemma {:induction false} OneSnapshot(c: Config, events: seq<Event>, d: int, k: int)
    requires LastSnapshot(c, events, d) && LastSnapshot(c, events, k)
    ensures d == k
  {
  }

  lemma {:induction false} WorseFromHere(side: Side, levels: seq<Level>, price: real)
    requires BestFirst(side, levels) && levels != [] && Better(side, price, levels[0].price)
    ensures forall i | 0 <= i < |levels| :: Better(side, price, levels[i].price)
    ensures Beyond(side, levels, price) == levels
    decreases |levels|
  {
    forall i | 0 <= i < |levels| ensures Better(side, price, levels[i].price) {
      assert i > 0 ==> Better(side, levels[0].price, levels[i].price);
    }
    assert levels == [levels[0]] + levels[1..];
    if |levels| > 1 {
      assert levels[1..][0] == levels[1];
      WorseFromHere(side, levels[1..], price);
    }
  }

  /** On a book sorted from the best price, what is worse than a price is everything from some position on. */
  lemma {:induction false} BeyondIsSuffix(side: Side, levels: seq<Level>, price: real) returns (m: nat)
    requires BestFirst(side, levels)
    ensures m <= |levels| && Beyond(side, levels, price) == levels[m..]
    ensures forall i | 0 <= i < m :: !Better(side, price, levels[i].price)
    ensures forall i | m <= i < |levels| :: Better(side, price, levels[i].price)
  {
    m := 0;
    if levels != [] {
      if Better(side, price, levels[0].price) {
        WorseFromHere(side, levels, price);
      } else {
        var rest := BeyondIsSuffix(side, levels[1..], price);
        m := rest + 1;
        forall i | 0 <= i < m ensures !Better(side, price, levels[i].price) {
          assert i > 0 ==> levels[1..][i - 1] == levels[i];
        }
        forall i | m <= i < |levels| ensures Better(side, price, levels[i].price) {
          assert levels[1..][i - 1] == levels[i];
        }
      }
    }
  }

  // ----- every emitted state -----

  lemma {:induction false} UsableMeans(c: Config, before: seq<Event>, e: Event)
    requires e.Bbo?
    ensures DepthUsable(c, LastDepth(c, before), e) <==> exists d :: Usable(c, before, e, d)
    ensures DepthUsable(c, LastDepth(c, before), e) ==> exists d :: Usable(c, before, e, d) && before[d] == LastDepth(c, before).value
  {
    LastDepthMeans(c, before);
    if DepthUsable(c, LastDepth(c, before), e) {
      var d :| LastSnapshot(c, before, d) && before[d] == LastDepth(c, before).value;
      assert Usable(c, before, e, d);
    }
    forall d | Usable(c, before, e, d) ensures DepthUsable(c, LastDepth(c, before), e) {
      var k :| LastSnapshot(c, before, k) && before[k] == LastDepth(c, before).value;
      OneSnapshot(c, before, d, k);
    }
  }

  lemma {:induction false} QuoteSide(c: Config, depth: Option<Event>, e: Event, side: Side)
    requires c.Valid() && e.Bbo? && DepthUsable(c, depth, e) && depth.value.L2Book?
    ensures BookSide(c, depth, e, side)
            == [QuoteOn(side, e)] + Take(Beyond(side, SnapshotOn(side, depth.value), QuoteOn(side, e).price), c.depthLevels - 1)
  {
  }

  lemma {:induction false} TakeIsSlice<T>(items: seq<T>, m: nat, n: nat)
    requires m <= |items|
    ensures Take(items[m..], n) == items[m..m + Least(n, |items| - m)]
  {
  }

  lemma {:induction false} WorseLevels(side: Side, quote: Level, deeper: seq<Level>, depth: nat) returns (m: nat)
    requires BestFirst(side, deeper) && depth >= 1
    ensures QuoteThenWorse(side, quote, deeper, m, depth, [quote] + Take(Beyond(side, deeper, quote.price), depth - 1))
  {
    m := BeyondIsSuffix(side, deeper, quote.price);
    TakeIsSlice(deeper, m, depth - 1);
  }

  lemma {:induction false} DeepenedBy(c: Config, before: seq<Event>, e: Event, side: Side, d: int)
    requires c.Valid() && e.Bbo? && Usable(c, before, e, d) && LastDepth(c, before) == Some(before[d])
    requires BestFirst(side, SnapshotOn(side, before[d]))
    ensures Deepened(c, before, e, side, d, BookSide(c, LastDepth(c, before), e, side))
  {
    QuoteSide(c, LastDepth(c, before), e, side);
    var m := WorseLevels(side, QuoteOn(side, e), SnapshotOn(side, before[d]), c.depthLevels);
  }

  lemma {:induction false} QuoteSideMeans(c: Config, before: seq<Event>, e: Event, side: Side)
    requires c.Valid() && e.Bbo? && Ordered(before)
    ensures SideShows(c, before, e, side, BookSide(c, LastDepth(c, before), e, side))
  {
    UsableMeans(c, before, e);
    if DepthUsable(c, LastDepth(c, before), e) {
      var d :| Usable(c, before, e, d) && before[d] == LastDepth(c, before).value;
      assert before[d].Valid();
      DeepenedBy(c, before, e, side, d);
    }
  }

  lemma {:induction false} SnapshotSideMeans(c: Config, before: seq<Event>, e: Event, side: Side)
    requires c.Valid() && e.L2Book?
    ensures SideShows(c, before, e, side, BookSide(c, Some(e), e, side))
  {
  }

  lemma {:induction false} LatestMeans(e: Event, ts: nat, trades: seq<KernelTrade>)
    requires ts == e.eventTs
    ensures LatestTime(e, trades, LatestOf(ts, trades))
  {
    if trades != [] {
      var init := trades[..|trades| - 1];
      LatestMeans(e, ts, init);
      if trades[|trades| - 1].exchangeTs < LatestOf(ts, init) && LatestOf(ts, init) != e.eventTs {
        var i :| 0 <= i < |init| && init[i].exchangeTs == LatestOf(ts, init);
        assert trades[i].exchangeTs == LatestOf(ts, trades);
      }
    }
  }

  /** What the state expected of a fresh book shows. */
  lemma {:induction false} StateShows(c: Config, before: seq<Event>, since: nat, n: nat, e: Event)
    requires c.Valid() && Ordered(before + [e]) && FreshBook(c, e) && Waiting(c, before) == WaitingSince(before, since)
    ensures Shows(c, before, since, n, e, StateFor(c, before, n, e))
  {
    var all := before + [e];
    assert all[..|before|] == before && all[|before|] == e;
    PrefixOrdered(all);
    WaitingMeans(before, since, e.receiveTs, c.maximumAge);
    LatestMeans(e, e.eventTs, TradesSince(before, since, e.receiveTs, c.maximumAge));
    if e.Bbo? {
      QuoteSideMeans(c, before, e, Bid);
      QuoteSideMeans(c, before, e, Ask);
      UsableMeans(c, before, e);
    } else {
      SnapshotSideMeans(c, before, e, Bid);
      SnapshotSideMeans(c, before, e, Ask);
    }
  }

  /** Where the trades of state number `n` start: right after the book that triggered the state before it. */
  function SinceOf(at: seq<nat>, n: nat): nat
    requires n <= |at|
  {
    if n == 0 then 0 else at[n - 1] + 1
  }

  ghost predicate ShowsAt(c: Config, events: seq<Event>, at: seq<nat>, n: nat, state: KernelState)
    requires c.Valid() && n < |at|
  {
    at[n] < |events| && !events[at[n]].Trade?
    && Shows(c, events[..at[n]], SinceOf(at, n), n, events[at[n]], state)
  }

  lemma {:induction false} ShowsAtStays(c: Config, init: seq<Event>, e: Event, before: seq<nat>, at: seq<nat>, n: nat, state: KernelState)
    requires c.Valid() && n < |before| && before <= at && ShowsAt(c, init, before, n, state)
    ensures ShowsAt(c, init + [e], at, n, state)
  {
    assert (init + [e])[..at[n]] == init[..at[n]];
  }

  lemma {:induction false} ShowsAtLast(c: Config, init: seq<Event>, e: Event, before: seq<nat>)
    requires c.Valid() && Ordered(init + [e]) && FreshBook(c, e) && Waiting(c, init) == WaitingSince(init, SinceOf(before, |before|))
    ensures ShowsAt(c, init + [e], before + [|init|], |before|, StateFor(c, init, |before|, e))
  {
    StateShows(c, init, SinceOf(before, |before|), |before|, e);
    assert (init + [e])[..|init|] == init && (init + [e])[|init|] == e;
  }

  lemma {:induction false} WaitingSnoc(c: Config, init: seq<Event>, e: Event, before: seq<nat>, at: seq<nat>)
    requires Increasing(before, |init|) && Waiting(c, init) == WaitingSince(init, SinceOf(before, |before|))
    requires at == if Emits(c, LastEmit(c, init), e) then before + [|init|] else before
    ensures Waiting(c, init + [e]) == WaitingSince(init + [e], SinceOf(at, |at|))
  {
    var events := init + [e];
    assert events[..|init|] == init;
    if !Emits(c, LastEmit(c, init), e) && !e.Trade? {
      assert WaitingSince(events, SinceOf(at, |at|)) == WaitingSince(init, SinceOf(at, |at|));
    }
  }

  /** The states that the listed positions trigger are these. */
  ghost predicate AllShow(c: Config, events: seq<Event>, at: seq<nat>, states: seq<KernelState>)
    requires c.Valid()
  {
    |at| == |states| && forall n: nat | n < |at| :: ShowsAt(c, events, at, n, states[n])
  }

  lemma {:induction false} AllShowSnoc(c: Config, init: seq<Event>, e: Event, before: seq<nat>, states: seq<KernelState>)
    requires c.Valid() && Ordered(init + [e]) && FreshBook(c, e) && AllShow(c, init, before, states)
    requires Waiting(c, init) == WaitingSince(init, SinceOf(before, |before|))
    ensures AllShow(c, init + [e], before + [|init|], states + [StateFor(c, init, |before|, e)])
  {
    var at := before + [|init|];
    forall n: nat | n < |at| ensures ShowsAt(c, init + [e], at, n, (states + [StateFor(c, init, |before|, e)])[n]) {
      if n < |before| {
        ShowsAtStays(c, init, e, before, at, n, states[n]);
      } else {
        ShowsAtLast(c, init, e, before);
      }
    }
  }

  lemma {:induction false} AllShowStays(c: Config, init: seq<Event>, e: Event, at: seq<nat>, states: seq<KernelState>)
    requires c.Valid() && AllShow(c, init, at, states)
    ensures AllShow(c, init + [e], at, states)
  {
    forall n: nat | n < |at| ensures ShowsAt(c, init + [e], at, n, states[n]) {
      ShowsAtStays(c, init, e, at, at, n, states[n]);
    }
  }

  /** `at` are the positions that trigger the expected states, each of which shows what it should. */
  ghost predicate Traced(c: Config, events: seq<Event>, at: seq<nat>)
    requires c.Valid()
  {
    && Triggers(c, events, at) && AllShow(c, events, at, Expected(c, events))
    && LastEmit(c, events) == (if at == [] then None else Some(events[at[|at| - 1]].receiveTs))
    && Waiting(c, events) == WaitingSince(events, SinceOf(at, |at|))
  }

  lemma {:induction false} ExpectedSnoc(c: Config, init: seq<Event>, e: Event)
    requires c.Valid()
    ensures Emits(c, LastEmit(c, init), e) ==>
              e.IsBook() && Expected(c, init + [e]) == Expected(c, init) + [StateFor(c, init, |Expected(c, init)|, e)]
              && LastEmit(c, init + [e]) == Some(e.receiveTs)
    ensures !Emits(c, LastEmit(c, init), e) ==>
              Expected(c, init + [e]) == Expected(c, init) && LastEmit(c, init + [e]) == LastEmit(c, init)
  {
    assert (init + [e])[..|init|] == init;
  }

  lemma {:induction false} NothingTraced(c: Config)
    requires c.Valid()
    ensures Traced(c, [], [])
  {
  }

  lemma {:induction false} TracedEmit(c: Config, init: seq<Event>, e: Event, before: seq<nat>)
    requires c.Valid() && Ordered(init + [e]) && Traced(c, init, before) && Emits(c, LastEmit(c, init), e)
    ensures Traced(c, init + [e], before + [|init|])
  {
    var states := Expected(c, init);
    TriggersSnoc(c, init, e, before, before + [|init|]);
    WaitingSnoc(c, init, e, before, before + [|init|]);
    AllShowSnoc(c, init, e, before, states);
    ExpectedSnoc(c, init, e);
  }

  lemma {:induction false} TracedSkip(c: Config, init: seq<Event>, e: Event, before: seq<nat>)
    requires c.Valid() && Traced(c, init, before) && !Emits(c, LastEmit(c, init), e)
    ensures Traced(c, init + [e], before)
  {
    TriggersSnoc(c, init, e, before, before);
    WaitingSnoc(c, init, e, before, before);
    AllShowStays(c, init, e, before, Expected(c, init));
    ExpectedSnoc(c, init, e);
  }

  lemma {:induction false} TriggersOf(c: Config, events: seq<Event>) returns (at: seq<nat>)
    requires c.Valid() && Ordered(events)
    ensures Traced(c, events, at)
    decreases |events|
  {
    if events == [] {
      NothingTraced(c);
      at := [];
    } else {
      var init, e := events[..|events| - 1], events[|events| - 1];
      assert events == init + [e];
      PrefixOrdered(events);
      var before := TriggersOf(c, init);
      if Emits(c, LastEmit(c, init), e) {
        TracedEmit(c, init, e, before);
        at := before + [|init|];
      } else {
        TracedSkip(c, init, e, before);
        at := before;
      }
    }
  }

  /**
   Every state emitted on ordered input: which book triggers it, and that its
   number, times, trades and sides are those of that book, of the trades since
   the book before it, and of the last usable snapshot.
   */
  lemma {:induction false} EmittedStatesShow(c: Config, events: seq<Event>) returns (at: seq<nat>)
    requires c.Valid() && Ordered(events)
    ensures Triggers(c, events, at) && AllShow(c, events, at, Run(c, events).1)
  {
    EmitsExactlyTheExpected(c, events);
    at := TriggersOf(c, events);
  }

  // ----- refusals and counters -----

  /**
   Before any state is built, an event is refused exactly when a book's receipt
   does not advance or an exchange time follows its receipt; a refusal here
   changes nothing.
   */
  lemma {:induction false} RefusesExactlyWhen(c: Config, s: State, e: Event)
    requires c.Valid() && WellTyped(s)
    ensures var (next, outcome) := Observe(c, s, e);
            var stuck := !e.Trade? && s.lastBookReceive.Some? && e.receiveTs <= s.lastBookReceive.value;
            && (stuck ==> outcome == Raised(ReceiptNotIncreasing))
            && (!stuck && e.receiveTs < e.eventTs ==> outcome == Raised(ClockSkew))
            && (stuck || e.receiveTs < e.eventTs ==> next == s)
            && (e.Trade? && e.eventTs <= e.receiveTs ==> outcome == Nothing)
            && (!stuck && !e.Trade? && e.eventTs <= e.receiveTs ==> next.lastBookReceive == Some(e.receiveTs))
            && (outcome == Raised(ReceiptNotIncreasing) ==> stuck)
  {
  }

  /** How many snapshots (or quotes) arrived older than the age limit, and when the last fresh quote arrived. */
  ghost function TooLate(c: Config, events: seq<Event>, snapshots: bool): nat {
    if events == [] then 0
    else
      var e := events[|events| - 1];
      TooLate(c, events[..|events| - 1], snapshots)
      + if !e.Trade? && (e.L2Book? <==> snapshots) && !FreshBook(c, e) then 1 else 0
  }

  ghost predicate LastQuote(c: Config, events: seq<Event>, d: int) {
    && 0 <= d < |events| && events[d].Bbo? && FreshBook(c, events[d])
    && forall j | d < j < |events| :: !(events[j].Bbo? && FreshBook(c, events[j]))
  }

  ghost predicate QuoteTimeIs(c: Config, events: seq<Event>, ts: Option<nat>) {
    if ts.None? then forall d :: !LastQuote(c, events, d)
    else exists d :: LastQuote(c, events, d) && events[d].receiveTs == ts.value
  }

  lemma {:induction false} QuoteTimeSnoc(c: Config, init: seq<Event>, e: Event, ts: Option<nat>)
    requires QuoteTimeIs(c, init, ts)
    ensures QuoteTimeIs(c, init + [e], if e.Bbo? && FreshBook(c, e) then Some(e.receiveTs) else ts)
  {
    var events := init + [e];
    if e.Bbo? && FreshBook(c, e) {
      assert LastQuote(c, events, |init|);
    } else {
      assert forall i | 0 <= i < |init| :: init[i] == events[i];
      forall d ensures LastQuote(c, events, d) <==> LastQuote(c, init, d) {
      }
      if ts.Some? {
        var d :| LastQuote(c, init, d) && init[d].receiveTs == ts.value;
        assert LastQuote(c, events, d) && events[d].receiveTs == ts.value;
      }
    }
  }

  lemma {:induction false} RunSnoc(c: Config, init: seq<Event>, e: Event)
    requires c.Valid()
    ensures Run(c, init + [e]).0 == Observe(c, Run(c, init).0, e).0
  {
    assert (init + [e])[..|init|] == init;
  }

  lemma {:induction false} EmitKeepsCounters(c: Config, s: State, e: Event)
    requires c.Valid() && WellTyped(s) && e.IsBook()
    ensures var next := Emit(c, s, e).0;
            next.staleBooks == s.staleBooks && next.staleBbos == s.staleBbos
            && next.latestBboReceive == s.latestBboReceive
  {
  }

  lemma {:induction false} CountersStep(c: Config, init: seq<Event>, s: State, e: Event)
    requires c.Valid() && Ordered(init + [e]) && Tracks(c, init, s) && WellTyped(s)
    ensures var next := Observe(c, s, e).0;
            && next.staleBooks == s.staleBooks + (if e.L2Book? && !FreshBook(c, e) then 1 else 0)
            && next.staleBbos == s.staleBbos + (if e.Bbo? && !FreshBook(c, e) then 1 else 0)
            && next.latestBboReceive == (if e.Bbo? && FreshBook(c, e) then Some(e.receiveTs) else s.latestBboReceive)
  {
    if e.IsBook() {
      BookAccepted(c, init, s, e);
      FreshAreTrades(s.pending, e.receiveTs, c.maximumAge);
      var kept := Expire(s.(lastBookReceive := Some(e.receiveTs)), e.receiveTs, c.maximumAge);
      EmitKeepsCounters(c, Refresh(kept, e), e);
    }
  }

  /** On ordered input the exclusion counters count exactly the late snapshots and quotes, and the quote time is the last fresh quote's. */
  lemma {:induction false} CountersExactly(c: Config, events: seq<Event>)
    requires c.Valid() && Ordered(events)
    ensures Run(c, events).0.staleBooks == TooLate(c, events, true)
    ensures Run(c, events).0.staleBbos == TooLate(c, events, false)
    ensures QuoteTimeIs(c, events, Run(c, events).0.latestBboReceive)
    decreases |events|
  {
    if events != [] {
      var init, e := events[..|events| - 1], events[|events| - 1];
      assert events == init + [e];
      PrefixOrdered(events);
      CountersExactly(c, init);
      EmitsExactlyTheExpected(c, init);
      var s := Run(c, init).0;
      CountersStep(c, init, s, e);
      RunSnoc(c, init, e);
      QuoteTimeSnoc(c, init, e, s.latestBboReceive);
    }
  }

  /** A state is marked as using depth exactly when its book is a snapshot or a usable snapshot stands behind its quote. */
  lemma {:induction false} DepthMarkExactlyWhen(c: Config, init: seq<Event>, e: Event)
    requires c.Valid() && Ordered(init + [e]) && Observe(c, Run(c, init).0, e).1.Emitted?
    ensures Observe(c, Run(c, init).0, e).0.usedDepth <==> e.L2Book? || (e.Bbo? && exists d :: Usable(c, init, e, d))
  {
    var s := Run(c, init).0;
    assert (init + [e])[..|init|] == init;
    PrefixOrdered(init + [e]);
    EmitsExactlyTheExpected(c, init);
    if e.Bbo? {
      UsableMeans(c, init, e);
    }
  }
}
