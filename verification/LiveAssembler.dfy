/**
 The live market-state assembler: trades wait for the next emitted book, stale
 input is counted and dropped, and depth is borrowed from the latest fresh
 snapshot.
 */
module LiveAssembler {
  import opened Wrappers
  import opened Market

  datatype Config = Config(depthLevels: nat, maximumAge: nat, minimumInterval: nat)
  {
    predicate Valid() { 1 <= depthLevels <= 10 && maximumAge > 0 && minimumInterval > 0 }
  }

  datatype State = State(
    pending: seq<Event>, staleTrades: nat, staleBooks: nat, staleBbos: nat, sequence: nat,
    lastObserved: Option<nat>, lastBookReceive: Option<nat>, latestDepth: Option<Event>,
    latestBboReceive: Option<nat>, usedDepth: bool)

  const INITIAL := State([], 0, 0, 0, 0, None, None, None, None, false)

  datatype Failure = ClockSkew | ReceiptNotIncreasing | InvalidState

  datatype Outcome = Nothing | Emitted(state: KernelState) | Raised(failure: Failure)

  // ----- the assembler as a function -----

  predicate TooOld(e: Event, observed: nat, maximumAge: nat) {
    e.eventTs + maximumAge < observed
  }

  function Fresh(trades: seq<Event>, observed: nat, maximumAge: nat): seq<Event> {
    if trades == [] then []
    else
      var last := trades[|trades| - 1];
      var before := Fresh(trades[..|trades| - 1], observed, maximumAge);
      if TooOld(last, observed, maximumAge) then before else before + [last]
  }

  lemma {:induction false} FreshNoLonger(trades: seq<Event>, observed: nat, maximumAge: nat)
    ensures |Fresh(trades, observed, maximumAge)| <= |trades|
  {
    if trades != [] {
      FreshNoLonger(trades[..|trades| - 1], observed, maximumAge);
    }
  }

  function Expire(s: State, observed: nat, maximumAge: nat): State {
    var kept := Fresh(s.pending, observed, maximumAge);
    FreshNoLonger(s.pending, observed, maximumAge);
    s.(pending := kept, staleTrades := s.staleTrades + |s.pending| - |kept|)
  }

  function ObserveTrade(c: Config, s: State, e: Event): (State, Outcome)
    requires e.Trade?
  {
    if e.eventTs > e.receiveTs then (s, Raised(ClockSkew))
    else
      var kept := Expire(s, e.receiveTs, c.maximumAge);
      if TooOld(e, e.receiveTs, c.maximumAge) then (kept.(staleTrades := kept.staleTrades + 1), Nothing)
      else (kept.(pending := kept.pending + [e]), Nothing)
  }

  predicate Due(c: Config, lastObserved: Option<nat>, observed: nat) {
    lastObserved.None? || observed - lastObserved.value >= c.minimumInterval
  }

  function Take<T>(items: seq<T>, n: nat): seq<T> { if |items| <= n then items else items[..n] }

  /** The levels strictly worse than a price, in their order. */
  function Beyond(side: Side, levels: seq<Level>, price: real): seq<Level> {
    if levels == [] then []
    else (if Better(side, price, levels[0].price) then [levels[0]] else []) + Beyond(side, levels[1..], price)
  }

  predicate DepthUsable(c: Config, depth: Option<Event>, e: Event) {
    depth.Some? && depth.value.eventTs <= e.eventTs && e.receiveTs - depth.value.eventTs <= c.maximumAge
  }

  /** One side of the book an event gives rise to. */
  function BookSide(c: Config, depth: Option<Event>, e: Event, side: Side): seq<Level>
    requires c.Valid() && e.IsBook() && (depth.Some? ==> depth.value.L2Book?)
  {
    if e.L2Book? then Take(e.Levels(side), c.depthLevels)
    else
      var best := e.Levels(side);
      if DepthUsable(c, depth, e)
      then best + Take(Beyond(side, depth.value.Levels(side), best[0].price), c.depthLevels - 1)
      else best
  }

  function BookTs(c: Config, depth: Option<Event>, e: Event): nat {
    if e.Bbo? && DepthUsable(c, depth, e) then depth.value.eventTs else e.eventTs
  }

  function AsTrade(e: Event): KernelTrade
    requires e.Trade?
  {
    KernelTrade(e.eventTs, e.receiveTs, e.price, e.size, e.aggressor)
  }

  predicate AllTrades(events: seq<Event>) { forall i | 0 <= i < |events| :: events[i].Trade? }

  function AsTrades(events: seq<Event>): seq<KernelTrade>
    requires AllTrades(events)
  {
    seq(|events|, i requires 0 <= i < |events| => AsTrade(events[i]))
  }

  function LatestOf(ts: nat, trades: seq<KernelTrade>): nat {
    if trades == [] then ts else Max(LatestOf(ts, trades[..|trades| - 1]), trades[|trades| - 1].exchangeTs)
  }

  function Candidate(c: Config, trades: seq<Event>, depth: Option<Event>, sequence: nat, e: Event): KernelState
    requires c.Valid() && e.IsBook() && (depth.Some? ==> depth.value.L2Book?) && AllTrades(trades)
  {
    var ts := AsTrades(trades);
    KernelState(LatestOf(e.eventTs, ts), BookTs(c, depth, e), e.receiveTs, sequence,
                BookSide(c, depth, e, Bid), BookSide(c, depth, e, Ask), ts)
  }

  predicate WellTyped(s: State) {
    AllTrades(s.pending) && (s.latestDepth.Some? ==> s.latestDepth.value.L2Book?)
  }

  function Emit(c: Config, s: State, e: Event): (State, Outcome)
    requires c.Valid() && e.IsBook() && WellTyped(s)
  {
    var state := Candidate(c, s.pending, s.latestDepth, s.sequence, e);
    if state.exchangeTs > e.receiveTs then (s, Raised(ClockSkew))
    else if !state.Valid() then (s, Raised(InvalidState))
    else
      (s.(pending := [], sequence := s.sequence + 1, lastObserved := Some(e.receiveTs),
          usedDepth := e.L2Book? || DepthUsable(c, s.latestDepth, e)),
       Emitted(state))
  }

  function Refresh(s: State, e: Event): State
    requires e.IsBook()
  {
    if e.L2Book? then s.(latestDepth := Some(e)) else s.(latestBboReceive := Some(e.receiveTs))
  }

  function ObserveBook(c: Config, s: State, e: Event): (State, Outcome)
    requires c.Valid() && e.IsBook() && WellTyped(s)
  {
    if s.lastBookReceive.Some? && e.receiveTs <= s.lastBookReceive.value then (s, Raised(ReceiptNotIncreasing))
    else if e.eventTs > e.receiveTs then (s, Raised(ClockSkew))
    else
      var kept := Expire(s.(lastBookReceive := Some(e.receiveTs)), e.receiveTs, c.maximumAge);
      if TooOld(e, e.receiveTs, c.maximumAge) then
        (if e.L2Book? then kept.(staleBooks := kept.staleBooks + 1) else kept.(staleBbos := kept.staleBbos + 1), Nothing)
      else
        FreshAreTrades(s.pending, e.receiveTs, c.maximumAge);
        var refreshed := Refresh(kept, e);
        if Due(c, s.lastObserved, e.receiveTs) then Emit(c, refreshed, e) else (refreshed, Nothing)
  }

  function Observe(c: Config, s: State, e: Event): (State, Outcome)
    requires c.Valid() && WellTyped(s)
  {
    if e.Trade? then ObserveTrade(c, s, e) else ObserveBook(c, s, e)
  }

  lemma {:induction false} FreshAreTrades(trades: seq<Event>, observed: nat, maximumAge: nat)
    ensures AllTrades(trades) ==> AllTrades(Fresh(trades, observed, maximumAge))
    ensures forall i | 0 <= i < |Fresh(trades, observed, maximumAge)| ::
              !TooOld(Fresh(trades, observed, maximumAge)[i], observed, maximumAge)
              && Fresh(trades, observed, maximumAge)[i] in trades
  {
    if trades != [] {
      FreshAreTrades(trades[..|trades| - 1], observed, maximumAge);
    }
  }

  lemma {:induction false} StaysWellTyped(c: Config, s: State, e: Event)
    requires c.Valid() && WellTyped(s)
    ensures WellTyped(Observe(c, s, e).0)
  {
    FreshAreTrades(s.pending, e.receiveTs, c.maximumAge);
  }

  // ----- what should be emitted, told from the event history alone -----

  /** The receipt time of the last emitted state. */
  function LastEmit(c: Config, events: seq<Event>): Option<nat> {
    if events == [] then None
    else
      var init, e := events[..|events| - 1], events[|events| - 1];
      if Emits(c, LastEmit(c, init), e) then Some(e.receiveTs) else LastEmit(c, init)
  }

  predicate Emits(c: Config, lastEmit: Option<nat>, e: Event) {
    e.IsBook() && !TooOld(e, e.receiveTs, c.maximumAge) && Due(c, lastEmit, e.receiveTs)
  }

  /** The trades that arrived since the last emitted state. */
  function Waiting(c: Config, events: seq<Event>): (trades: seq<Event>)
    ensures AllTrades(trades)
  {
    if events == [] then []
    else
      var init, e := events[..|events| - 1], events[|events| - 1];
      if e.Trade? then Waiting(c, init) + [e]
      else if Emits(c, LastEmit(c, init), e) then []
      else Waiting(c, init)
  }

  /** The last snapshot that was fresh when it arrived. */
  function LastDepth(c: Config, events: seq<Event>): (depth: Option<Event>)
    ensures depth.Some? ==> depth.value.L2Book? && depth.value in events
  {
    if events == [] then None
    else
      var e := events[|events| - 1];
      if e.L2Book? && !TooOld(e, e.receiveTs, c.maximumAge) then Some(e) else LastDepth(c, events[..|events| - 1])
  }

  /** The state a book event gives rise to after `before`: its trades are the waiting ones still fresh by then. */
  function StateFor(c: Config, before: seq<Event>, sequence: nat, e: Event): KernelState
    requires c.Valid() && e.IsBook()
  {
    FreshAreTrades(Waiting(c, before), e.receiveTs, c.maximumAge);
    Candidate(c, Fresh(Waiting(c, before), e.receiveTs, c.maximumAge), LastDepth(c, before + [e]), sequence, e)
  }

  function Expected(c: Config, events: seq<Event>): seq<KernelState>
    requires c.Valid()
  {
    if events == [] then []
    else
      var init, e := events[..|events| - 1], events[|events| - 1];
      var before := Expected(c, init);
      if Emits(c, LastEmit(c, init), e) then before + [StateFor(c, init, |before|, e)] else before
  }

  // ----- running the assembler -----

  /** States emitted so far, and the first failure if there was one. */
  function Run(c: Config, events: seq<Event>): (r: (State, seq<KernelState>, Option<Failure>))
    requires c.Valid()
    ensures WellTyped(r.0)
  {
    if events == [] then (INITIAL, [], None)
    else
      var (s, states, failure) := Run(c, events[..|events| - 1]);
      var e := events[|events| - 1];
      StaysWellTyped(c, s, e);
      var (next, outcome) := Observe(c, s, e);
      match outcome
      case Nothing => (next, states, failure)
      case Emitted(state) => (next, states + [state], failure)
      case Raised(f) => (next, states, if failure.None? then Some(f) else failure)
  }

  /** Receipt times never run backwards and strictly increase between books; no exchange time follows its receipt. */
  ghost predicate Ordered(events: seq<Event>) {
    && (forall i | 0 <= i < |events| :: events[i].Valid() && events[i].eventTs <= events[i].receiveTs)
    && (forall i, j | 0 <= i < j < |events| :: events[i].receiveTs <= events[j].receiveTs)
    && (forall i, j | 0 <= i < j < |events| && events[i].IsBook() && events[j].IsBook() ::
          events[i].receiveTs < events[j].receiveTs)
  }

  function Now(events: seq<Event>): nat {
    if events == [] then 0 else events[|events| - 1].receiveTs
  }

  function LastBookReceive(events: seq<Event>): Option<nat> {
    if events == [] then None
    else if events[|events| - 1].IsBook() then Some(events[|events| - 1].receiveTs)
    else LastBookReceive(events[..|events| - 1])
  }

  ghost predicate Tracks(c: Config, events: seq<Event>, s: State)
    requires c.Valid()
  {
    && s.pending == Fresh(Waiting(c, events), Now(events), c.maximumAge)
    && s.lastObserved == LastEmit(c, events)
    && s.latestDepth == LastDepth(c, events)
    && s.lastBookReceive == LastBookReceive(events)
    && s.sequence == |Expected(c, events)|
  }

  // ----- filters -----

  lemma {:induction false} FreshTwice(trades: seq<Event>, earlier: nat, later: nat, maximumAge: nat)
    requires earlier <= later
    ensures Fresh(Fresh(trades, earlier, maximumAge), later, maximumAge) == Fresh(trades, later, maximumAge)
  {
    if trades != [] {
      var init, last := trades[..|trades| - 1], trades[|trades| - 1];
      FreshTwice(init, earlier, later, maximumAge);
      if !TooOld(last, earlier, maximumAge) {
        FreshSnoc(Fresh(init, earlier, maximumAge), last, later, maximumAge);
      }
    }
  }

  lemma {:induction false} FreshSnoc(trades: seq<Event>, e: Event, observed: nat, maximumAge: nat)
    ensures TooOld(e, observed, maximumAge) ==>
              Fresh(trades + [e], observed, maximumAge) == Fresh(trades, observed, maximumAge)
    ensures !TooOld(e, observed, maximumAge) ==>
              Fresh(trades + [e], observed, maximumAge) == Fresh(trades, observed, maximumAge) + [e]
  {
    assert (trades + [e])[..|trades|] == trades;
  }

  // ----- every emitted state is valid -----

  lemma {:induction false} BeyondOk(side: Side, levels: seq<Level>, price: real)
    requires BestFirst(side, levels) && forall i | 0 <= i < |levels| :: ValidLevel(levels[i])
    ensures var rest := Beyond(side, levels, price);
            && BestFirst(side, rest)
            && (forall i | 0 <= i < |rest| :: ValidLevel(rest[i]) && Better(side, price, rest[i].price) && rest[i] in levels)
  {
    if levels != [] {
      BeyondOk(side, levels[1..], price);
      assert forall x :: x in levels[1..] ==> x in levels;
      forall x | x in levels[1..] ensures Better(side, levels[0].price, x.price) {
        var k :| 0 <= k < |levels[1..]| && levels[1..][k] == x;
        assert levels[k + 1] == x;
      }
    }
  }

  lemma {:induction false} SideOk(c: Config, depth: Option<Event>, e: Event, side: Side)
    requires c.Valid() && e.IsBook() && e.Valid() && (depth.Some? ==> depth.value.L2Book? && depth.value.Valid())
    ensures var levels := BookSide(c, depth, e, side);
            && BestFirst(side, levels) && 0 < |levels| <= c.depthLevels
            && levels[0] == e.Levels(side)[0]
            && forall i | 0 <= i < |levels| :: ValidLevel(levels[i])
  {
    if e.Bbo? && DepthUsable(c, depth, e) {
      var best := e.Levels(side);
      BeyondOk(side, depth.value.Levels(side), best[0].price);
    }
  }

  ghost predicate TradesOk(trades: seq<Event>, observed: nat) {
    forall i | 0 <= i < |trades| ::
      trades[i].Trade? && trades[i].Valid() && trades[i].eventTs <= trades[i].receiveTs <= observed
  }

  lemma {:induction false} LatestBounds(ts: nat, trades: seq<KernelTrade>, observed: nat)
    requires ts <= observed && forall i | 0 <= i < |trades| :: trades[i].exchangeTs <= observed
    ensures ts <= LatestOf(ts, trades) <= observed
    ensures forall i | 0 <= i < |trades| :: trades[i].exchangeTs <= LatestOf(ts, trades)
  {
    if trades != [] {
      LatestBounds(ts, trades[..|trades| - 1], observed);
    }
  }

  lemma {:induction false} CandidateValid(c: Config, trades: seq<Event>, depth: Option<Event>, sequence: nat, e: Event)
    requires c.Valid() && e.IsBook() && e.Valid() && e.eventTs <= e.receiveTs
    requires depth.Some? ==> depth.value.L2Book? && depth.value.Valid()
    requires TradesOk(trades, e.receiveTs)
    ensures var state := Candidate(c, trades, depth, sequence, e);
            state.Valid() && state.exchangeTs <= e.receiveTs
  {
    var ts := AsTrades(trades);
    LatestBounds(e.eventTs, ts, e.receiveTs);
    SideOk(c, depth, e, Bid);
    SideOk(c, depth, e, Ask);
  }

  /** Building a state fails exactly when a waiting trade was received after the book that triggers it. */
  lemma {:induction false} EmitFailsExactlyWhen(c: Config, s: State, e: Event)
    requires c.Valid() && WellTyped(s) && e.IsBook() && e.Valid() && e.eventTs <= e.receiveTs
    requires s.latestDepth.Some? ==> s.latestDepth.value.Valid()
    requires forall i | 0 <= i < |s.pending| :: s.pending[i].Valid() && s.pending[i].eventTs <= s.pending[i].receiveTs
    ensures Emit(c, s, e).1.Raised? <==> exists i :: 0 <= i < |s.pending| && s.pending[i].receiveTs > e.receiveTs
  {
    if forall i | 0 <= i < |s.pending| :: s.pending[i].receiveTs <= e.receiveTs {
      CandidateValid(c, s.pending, s.latestDepth, s.sequence, e);
    } else {
      var i :| 0 <= i < |s.pending| && s.pending[i].receiveTs > e.receiveTs;
      assert Candidate(c, s.pending, s.latestDepth, s.sequence, e).trades[i].observedTs > e.receiveTs;
    }
  }

  // ----- the main results -----

  lemma {:induction false} WaitingArrived(c: Config, events: seq<Event>)
    requires Ordered(events)
    ensures TradesOk(Waiting(c, events), Now(events))
    decreases |events|
  {
    if events != [] {
      var init := events[..|events| - 1];
      WaitingArrived(c, init);
      assert Now(init) <= Now(events) by {
        if init != [] {
          assert events[|init| - 1].receiveTs <= events[|init|].receiveTs;
        }
      }
    }
  }

  lemma {:induction false} DepthValid(c: Config, events: seq<Event>)
    requires Ordered(events)
    ensures LastDepth(c, events).Some? ==> LastDepth(c, events).value.Valid()
  {
  }

  lemma {:induction false} FreshOk(trades: seq<Event>, now: nat, observed: nat, maximumAge: nat)
    requires TradesOk(trades, now) && now <= observed
    ensures TradesOk(Fresh(trades, observed, maximumAge), observed)
  {
    FreshAreTrades(trades, observed, maximumAge);
  }

  lemma {:induction false} PrefixOrdered(events: seq<Event>)
    requires Ordered(events) && events != []
    ensures Ordered(events[..|events| - 1]) && Now(events[..|events| - 1]) <= Now(events)
  {
    var init := events[..|events| - 1];
    assert forall i | 0 <= i < |init| :: init[i] == events[i];
  }

  lemma {:induction false} BookReceiveKnown(events: seq<Event>)
    ensures LastBookReceive(events).Some? ==>
              exists i :: 0 <= i < |events| && events[i].IsBook() && events[i].receiveTs == LastBookReceive(events).value
  {
    if events != [] && !events[|events| - 1].IsBook() {
      BookReceiveKnown(events[..|events| - 1]);
      if LastBookReceive(events).Some? {
        var i :| 0 <= i < |events| - 1 && events[i].IsBook() && events[i].receiveTs == LastBookReceive(events).value;
      }
    }
  }

  lemma {:induction false} TradeStep(c: Config, init: seq<Event>, s: State, e: Event)
    requires c.Valid() && Ordered(init + [e]) && Tracks(c, init, s) && WellTyped(s) && e.Trade?
    ensures Observe(c, s, e).1 == Nothing && Tracks(c, init + [e], Observe(c, s, e).0)
  {
    var events := init + [e];
    assert events[..|init|] == init;
    PrefixOrdered(events);
    FreshTwice(Waiting(c, init), Now(init), e.receiveTs, c.maximumAge);
    FreshSnoc(Waiting(c, init), e, e.receiveTs, c.maximumAge);
  }

  lemma {:induction false} BookAccepted(c: Config, init: seq<Event>, s: State, e: Event)
    requires Ordered(init + [e]) && e.IsBook() && s.lastBookReceive == LastBookReceive(init)
    ensures !(s.lastBookReceive.Some? && e.receiveTs <= s.lastBookReceive.value) && e.eventTs <= e.receiveTs && e.Valid()
  {
    var events := init + [e];
    BookReceiveKnown(init);
    assert events[|init|] == e;
    if s.lastBookReceive.Some? {
      var i :| 0 <= i < |init| && init[i].IsBook() && init[i].receiveTs == s.lastBookReceive.value;
      assert events[i] == init[i];
    }
  }

  /** The state is built from the trades and the depth the history calls for, and passes every check. */
  lemma {:induction false} EmitsExpected(c: Config, init: seq<Event>, s: State, e: Event)
    requires c.Valid() && Ordered(init + [e]) && e.IsBook() && WellTyped(s)
    requires s.pending == Fresh(Waiting(c, init), e.receiveTs, c.maximumAge) && s.latestDepth == LastDepth(c, init + [e])
    ensures var state := StateFor(c, init, s.sequence, e);
            Emit(c, s, e).1 == Emitted(state) && state.Valid()
            && Emit(c, s, e).0.pending == [] && Emit(c, s, e).0.lastObserved == Some(e.receiveTs)
            && Emit(c, s, e).0.sequence == s.sequence + 1
            && Emit(c, s, e).0.latestDepth == s.latestDepth && Emit(c, s, e).0.lastBookReceive == s.lastBookReceive
  {
    var events := init + [e];
    assert events[..|init|] == init && events[|init|] == e;
    PrefixOrdered(events);
    WaitingArrived(c, init);
    FreshOk(Waiting(c, init), Now(init), e.receiveTs, c.maximumAge);
    DepthValid(c, events);
    CandidateValid(c, s.pending, s.latestDepth, s.sequence, e);
  }

  ghost predicate Follows(c: Config, init: seq<Event>, e: Event, outcome: Outcome)
    requires c.Valid()
  {
    outcome == if Emits(c, LastEmit(c, init), e)
               then Emitted(StateFor(c, init, |Expected(c, init)|, e))
               else Nothing
  }

  lemma {:induction false} BookStep(c: Config, init: seq<Event>, s: State, e: Event)
    requires c.Valid() && Ordered(init + [e]) && Tracks(c, init, s) && WellTyped(s) && e.IsBook()
    ensures Follows(c, init, e, Observe(c, s, e).1) && Tracks(c, init + [e], Observe(c, s, e).0)
  {
    var events := init + [e];
    assert events[..|init|] == init;
    PrefixOrdered(events);
    BookAccepted(c, init, s, e);
    FreshTwice(Waiting(c, init), Now(init), e.receiveTs, c.maximumAge);
    if !TooOld(e, e.receiveTs, c.maximumAge) {
      FreshAreTrades(s.pending, e.receiveTs, c.maximumAge);
      var kept := Expire(s.(lastBookReceive := Some(e.receiveTs)), e.receiveTs, c.maximumAge);
      if Due(c, s.lastObserved, e.receiveTs) {
        EmitsExpected(c, init, Refresh(kept, e), e);
      }
    }
  }

  lemma {:induction false} ObserveStep(c: Config, init: seq<Event>, s: State, e: Event)
    requires c.Valid() && Ordered(init + [e]) && Tracks(c, init, s) && WellTyped(s)
    ensures Follows(c, init, e, Observe(c, s, e).1) && Tracks(c, init + [e], Observe(c, s, e).0)
  {
    if e.Trade? {
      TradeStep(c, init, s, e);
    } else {
      BookStep(c, init, s, e);
    }
  }

  /**
   On ordered input the assembler never fails and emits exactly the states the
   history calls for: one per fresh book that is due, each carrying, in arrival
   order, every trade received since the previous state and still fresh.
   */
  lemma {:induction false} EmitsExactlyTheExpected(c: Config, events: seq<Event>)
    requires c.Valid() && Ordered(events)
    ensures Run(c, events).1 == Expected(c, events) && Run(c, events).2.None?
    ensures Tracks(c, events, Run(c, events).0)
    decreases |events|
  {
    if events != [] {
      var init, e := events[..|events| - 1], events[|events| - 1];
      assert events == init + [e];
      PrefixOrdered(events);
      EmitsExactlyTheExpected(c, init);
      ObserveStep(c, init, Run(c, init).0, e);
    }
  }

  // ----- properties of the expected states -----

  /** No part of a state is older than the limit when the state is observed. */
  ghost predicate InAge(state: KernelState, maximumAge: nat) {
    && state.bookExchangeTs + maximumAge >= state.observedTs
    && forall i | 0 <= i < |state.trades| :: state.trades[i].exchangeTs + maximumAge >= state.observedTs
  }

  /** What the feature engine demands of its next input. */
  ghost predicate FeatureReady(previous: Option<nat>, state: KernelState, maximumAge: nat) {
    (previous.Some? ==> previous.value < state.observedTs) && InAge(state, maximumAge)
  }

  function LastOf(states: seq<KernelState>): Option<nat> {
    if states == [] then None else Some(states[|states| - 1].observedTs)
  }

  lemma {:induction false} CandidateInAge(c: Config, trades: seq<Event>, depth: Option<Event>, sequence: nat, e: Event)
    requires c.Valid() && e.IsBook() && (depth.Some? ==> depth.value.L2Book?) && AllTrades(trades)
    requires !TooOld(e, e.receiveTs, c.maximumAge)
    requires forall i | 0 <= i < |trades| :: !TooOld(trades[i], e.receiveTs, c.maximumAge)
    ensures InAge(Candidate(c, trades, depth, sequence, e), c.maximumAge)
  {
  }

  lemma {:induction false} StateForOk(c: Config, init: seq<Event>, sequence: nat, e: Event)
    requires c.Valid() && Ordered(init + [e]) && Emits(c, LastEmit(c, init), e)
    ensures StateFor(c, init, sequence, e).Valid()
  {
    var events := init + [e];
    assert events[..|init|] == init && events[|init|] == e;
    PrefixOrdered(events);
    WaitingArrived(c, init);
    FreshOk(Waiting(c, init), Now(init), e.receiveTs, c.maximumAge);
    DepthValid(c, events);
    CandidateValid(c, Fresh(Waiting(c, init), e.receiveTs, c.maximumAge), LastDepth(c, events), sequence, e);
  }

  lemma {:induction false} StateForInAge(c: Config, init: seq<Event>, sequence: nat, e: Event)
    requires c.Valid() && Emits(c, LastEmit(c, init), e)
    ensures InAge(StateFor(c, init, sequence, e), c.maximumAge)
  {
    FreshAreTrades(Waiting(c, init), e.receiveTs, c.maximumAge);
    CandidateInAge(c, Fresh(Waiting(c, init), e.receiveTs, c.maximumAge), LastDepth(c, init + [e]), sequence, e);
  }

  ghost predicate Spaced(states: seq<KernelState>, minimumInterval: nat) {
    forall i, j | 0 <= i < j < |states| :: states[i].observedTs + minimumInterval <= states[j].observedTs
  }

  /** The state is valid, carries its position as its number and suits the feature engine after the one before it. */
  ghost predicate Suits(states: seq<KernelState>, i: nat, maximumAge: nat)
    requires i < |states|
  {
    states[i].Valid() && states[i].sequence == i && FeatureReady(LastOf(states[..i]), states[i], maximumAge)
  }

  ghost predicate EachSuits(states: seq<KernelState>, maximumAge: nat) {
    forall i | 0 <= i < |states| :: Suits(states, i, maximumAge)
  }

  lemma {:induction false} SpacedSnoc(states: seq<KernelState>, state: KernelState, minimumInterval: nat)
    requires Spaced(states, minimumInterval)
    requires LastOf(states).None? || state.observedTs - LastOf(states).value >= minimumInterval
    ensures Spaced(states + [state], minimumInterval)
  {
  }

  lemma {:induction false} SuitsSnoc(states: seq<KernelState>, state: KernelState, c: Config)
    requires c.Valid() && EachSuits(states, c.maximumAge)
    requires state.Valid() && state.sequence == |states| && InAge(state, c.maximumAge)
    requires Due(c, LastOf(states), state.observedTs)
    ensures EachSuits(states + [state], c.maximumAge)
  {
    var all := states + [state];
    forall i | 0 <= i < |all| ensures Suits(all, i, c.maximumAge) {
      if i < |states| {
        assert all[..i] == states[..i];
        assert Suits(states, i, c.maximumAge);
      } else {
        assert all[..i] == states;
      }
    }
  }

  lemma {:induction false} ExpectedAreSpaced(c: Config, events: seq<Event>)
    requires c.Valid() && Ordered(events)
    ensures LastOf(Expected(c, events)) == LastEmit(c, events)
    ensures EachSuits(Expected(c, events), c.maximumAge) && Spaced(Expected(c, events), c.minimumInterval)
    decreases |events|
  {
    if events != [] {
      var init, e := events[..|events| - 1], events[|events| - 1];
      assert events == init + [e];
      PrefixOrdered(events);
      ExpectedAreSpaced(c, init);
      if Emits(c, LastEmit(c, init), e) {
        var before := Expected(c, init);
        StateForOk(c, init, |before|, e);
        StateForInAge(c, init, |before|, e);
        SuitsSnoc(before, StateFor(c, init, |before|, e), c);
        SpacedSnoc(before, StateFor(c, init, |before|, e), c.minimumInterval);
      }
    }
  }

  /**
   Every emitted state is valid, numbered consecutively, at least the minimum
   interval after the previous one, and accepted by the feature engine under
   the same age limit.
   */
  lemma {:induction false} EmittedStatesMeetTheNextStage(c: Config, events: seq<Event>)
    requires c.Valid() && Ordered(events)
    ensures EachSuits(Run(c, events).1, c.maximumAge) && Spaced(Run(c, events).1, c.minimumInterval)
  {
    EmitsExactlyTheExpected(c, events);
    ExpectedAreSpaced(c, events);
  }

  // ----- no trade is lost and none is emitted twice -----

  /** The trades that arrived, each with its own times, price, size and aggressor. */
  function TradesOf(events: seq<Event>): seq<KernelTrade> {
    if events == [] then []
    else
      var e := events[|events| - 1];
      TradesOf(events[..|events| - 1]) +
      if e.Trade? then [KernelTrade(e.eventTs, e.receiveTs, e.price, e.size, e.aggressor)] else []
  }

  function EmittedTrades(states: seq<KernelState>): seq<KernelTrade> {
    if states == [] then [] else EmittedTrades(states[..|states| - 1]) + states[|states| - 1].trades
  }

  /** `a` is what is left of `b` after some of its elements are dropped. */
  ghost predicate Subsequence<T>(a: seq<T>, b: seq<T>) {
    a == []
    || (b != []
        && ((a[|a| - 1] == b[|b| - 1] && Subsequence(a[..|a| - 1], b[..|b| - 1])) || Subsequence(a, b[..|b| - 1])))
  }

  lemma {:induction false} SubsequenceSnoc<T>(a: seq<T>, b: seq<T>, x: T)
    requires Subsequence(a, b)
    ensures Subsequence(a, b + [x]) && Subsequence(a + [x], b + [x])
  {
    assert (b + [x])[..|b|] == b && (a + [x])[..|a|] == a;
  }

  lemma {:induction false} SubsequenceItself<T>(a: seq<T>)
    ensures Subsequence(a, a)
  {
    if a != [] {
      SubsequenceItself(a[..|a| - 1]);
    }
  }

  /** Dropping the last element, or further elements from the front part, keeps a subsequence. */
  lemma {:induction false} SubsequenceTransitive<T>(a: seq<T>, b: seq<T>, d: seq<T>)
    requires Subsequence(a, b) && Subsequence(b, d)
    ensures Subsequence(a, d)
    decreases |d|, |b|
  {
    if a != [] && b != [] {
      if Subsequence(b, d[..|d| - 1]) {
        SubsequenceTransitive(a, b, d[..|d| - 1]);
      } else if Subsequence(a, b[..|b| - 1]) {
        SubsequenceTransitive(a, b[..|b| - 1], d[..|d| - 1]);
      } else {
        SubsequenceTransitive(a[..|a| - 1], b[..|b| - 1], d[..|d| - 1]);
      }
    }
  }

  lemma {:induction false} AsTradesSnoc(trades: seq<Event>, e: Event)
    requires AllTrades(trades) && e.Trade?
    ensures AsTrades(trades + [e]) == AsTrades(trades) + [AsTrade(e)]
  {
  }

  /** Expiry only drops waiting trades. */
  lemma {:induction false} FreshIsPart(before: seq<KernelTrade>, trades: seq<Event>, observed: nat, maximumAge: nat)
    requires AllTrades(trades)
    ensures AllTrades(Fresh(trades, observed, maximumAge))
    ensures Subsequence(before + AsTrades(Fresh(trades, observed, maximumAge)), before + AsTrades(trades))
    decreases |trades|
  {
    FreshAreTrades(trades, observed, maximumAge);
    if trades == [] {
      SubsequenceItself(before + AsTrades(trades));
    } else {
      var init, last := trades[..|trades| - 1], trades[|trades| - 1];
      var kept := Fresh(init, observed, maximumAge);
      FreshIsPart(before, init, observed, maximumAge);
      SubsequenceSnoc(before + AsTrades(kept), before + AsTrades(init), AsTrade(last));
      AsTradesSnoc(init, last);
      assert trades == init + [last];
      assert before + (AsTrades(init) + [AsTrade(last)]) == before + AsTrades(init) + [AsTrade(last)];
      if !TooOld(last, observed, maximumAge) {
        AsTradesSnoc(kept, last);
        assert before + (AsTrades(kept) + [AsTrade(last)]) == before + AsTrades(kept) + [AsTrade(last)];
      }
    }
  }

  /** Emitted and waiting trades, in order, are a part of those that arrived; the rest were counted stale. */
  ghost predicate Accounted(arrived: seq<KernelTrade>, emitted: seq<KernelTrade>, s: State)
    requires WellTyped(s)
  {
    && |arrived| == |emitted| + |s.pending| + s.staleTrades
    && Subsequence(emitted + AsTrades(s.pending), arrived)
  }

  lemma {:induction false} ExpireAccounts(arrived: seq<KernelTrade>, emitted: seq<KernelTrade>, s: State, observed: nat, maximumAge: nat)
    requires WellTyped(s) && Accounted(arrived, emitted, s)
    ensures WellTyped(Expire(s, observed, maximumAge)) && Accounted(arrived, emitted, Expire(s, observed, maximumAge))
  {
    FreshIsPart(emitted, s.pending, observed, maximumAge);
    SubsequenceTransitive(emitted + AsTrades(Fresh(s.pending, observed, maximumAge)), emitted + AsTrades(s.pending), arrived);
  }

  lemma {:induction false} TradeAccounts(c: Config, arrived: seq<KernelTrade>, emitted: seq<KernelTrade>, s: State, e: Event)
    requires c.Valid() && WellTyped(s) && e.Trade? && Accounted(arrived, emitted, s) && e.eventTs <= e.receiveTs
    ensures WellTyped(Observe(c, s, e).0) && Accounted(arrived + [AsTrade(e)], emitted, Observe(c, s, e).0)
  {
    ExpireAccounts(arrived, emitted, s, e.receiveTs, c.maximumAge);
    var kept := Expire(s, e.receiveTs, c.maximumAge);
    SubsequenceSnoc(emitted + AsTrades(kept.pending), arrived, AsTrade(e));
    AsTradesSnoc(kept.pending, e);
    assert emitted + (AsTrades(kept.pending) + [AsTrade(e)]) == emitted + AsTrades(kept.pending) + [AsTrade(e)];
  }

  lemma {:induction false} EmitAccounts(c: Config, arrived: seq<KernelTrade>, emitted: seq<KernelTrade>, s: State, e: Event)
    requires c.Valid() && WellTyped(s) && e.IsBook() && Accounted(arrived, emitted, s) && Emit(c, s, e).1.Emitted?
    ensures WellTyped(Emit(c, s, e).0)
    ensures Accounted(arrived, emitted + Emit(c, s, e).1.state.trades, Emit(c, s, e).0)
  {
    var next := Emit(c, s, e).0;
    assert AsTrades(next.pending) == [];
    assert emitted + AsTrades(s.pending) + [] == emitted + AsTrades(s.pending);
  }

  function OutcomeTrades(outcome: Outcome): seq<KernelTrade> {
    if outcome.Emitted? then outcome.state.trades else []
  }

  lemma {:induction false} RefreshAccounts(
    arrived: seq<KernelTrade>, emitted: seq<KernelTrade>, s: State, e: Event, maximumAge: nat)
    requires WellTyped(s) && Accounted(arrived, emitted, s) && e.IsBook()
    ensures var kept := Expire(s.(lastBookReceive := Some(e.receiveTs)), e.receiveTs, maximumAge);
            WellTyped(kept) && Accounted(arrived, emitted, kept)
            && WellTyped(Refresh(kept, e)) && Accounted(arrived, emitted, Refresh(kept, e))
  {
    ExpireAccounts(arrived, emitted, s.(lastBookReceive := Some(e.receiveTs)), e.receiveTs, maximumAge);
  }

  lemma {:induction false} BookReached(c: Config, s: State, e: Event)
    requires c.Valid() && WellTyped(s) && e.IsBook()
    requires var kept := Expire(s.(lastBookReceive := Some(e.receiveTs)), e.receiveTs, c.maximumAge);
             WellTyped(Refresh(kept, e))
    ensures var kept := Expire(s.(lastBookReceive := Some(e.receiveTs)), e.receiveTs, c.maximumAge);
            var (next, outcome) := Observe(c, s, e);
            (outcome.Emitted? ==> (next, outcome) == Emit(c, Refresh(kept, e), e))
            && (!outcome.Emitted? ==>
                  (next.pending == s.pending && next.staleTrades == s.staleTrades)
                  || (next.pending == kept.pending && next.staleTrades == kept.staleTrades))
  {
  }

  /** Whatever the order of the input, a book accounts for every trade. */
  lemma {:induction false} BookAccounts(c: Config, arrived: seq<KernelTrade>, emitted: seq<KernelTrade>, s: State, e: Event)
    requires c.Valid() && WellTyped(s) && e.IsBook() && Accounted(arrived, emitted, s)
    ensures WellTyped(Observe(c, s, e).0)
    ensures Accounted(arrived, emitted + OutcomeTrades(Observe(c, s, e).1), Observe(c, s, e).0)
  {
    StaysWellTyped(c, s, e);
    assert emitted + [] == emitted;
    RefreshAccounts(arrived, emitted, s, e, c.maximumAge);
    BookReached(c, s, e);
    if Observe(c, s, e).1.Emitted? {
      EmitAccounts(c, arrived, emitted,
                   Refresh(Expire(s.(lastBookReceive := Some(e.receiveTs)), e.receiveTs, c.maximumAge), e), e);
    }
  }

  /**
   Every trade that arrived was emitted once, counted stale once, or is still
   waiting; emitted trades keep their arrival order.  This needs no order of
   receipts, only that no trade's exchange time follows its receipt.
   */
  lemma {:induction false} TradesAreConserved(c: Config, events: seq<Event>)
    requires c.Valid()
    requires forall i | 0 <= i < |events| && events[i].Trade? :: events[i].eventTs <= events[i].receiveTs
    ensures Accounted(TradesOf(events), EmittedTrades(Run(c, events).1), Run(c, events).0)
    decreases |events|
  {
    if events != [] {
      var init, e := events[..|events| - 1], events[|events| - 1];
      TradesAreConserved(c, init);
      var (s, states, failure) := Run(c, init);
      var arrived, emitted := TradesOf(init), EmittedTrades(states);
      assert arrived + [] == arrived;
      if e.Trade? {
        TradeAccounts(c, arrived, emitted, s, e);
      } else {
        BookAccounts(c, arrived, emitted, s, e);
        assert emitted + [] == emitted;
        EmittedSnoc(states, Observe(c, s, e).1);
      }
    }
  }

  lemma {:induction false} EmittedSnoc(states: seq<KernelState>, outcome: Outcome)
    ensures outcome.Emitted? ==>
              EmittedTrades(states + [outcome.state]) == EmittedTrades(states) + OutcomeTrades(outcome)
  {
    if outcome.Emitted? {
      assert (states + [outcome.state])[..|states|] == states;
    }
  }

  // ----- the assembler object -----

  class LiveMarketStateAssembler {
    const config: Config
    var pendingTrades: seq<Event>
    var staleTradeExclusions: nat
    var staleBookExclusions: nat
    var staleBboExclusions: nat
    var sequence: nat
    var lastObserved: Option<nat>
    var lastBookReceive: Option<nat>
    var latestDepth: Option<Event>
    var latestBboReceive: Option<nat>
    var lastStateUsedDepth: bool

    ghost predicate Valid()
      reads this
    {
      config.Valid() && WellTyped(View())
    }

    ghost function View(): State
      reads this
    {
      State(pendingTrades, staleTradeExclusions, staleBookExclusions, staleBboExclusions, sequence,
            lastObserved, lastBookReceive, latestDepth, latestBboReceive, lastStateUsedDepth)
    }

    constructor (config: Config)
      requires config.Valid()
      ensures Valid() && View() == INITIAL && this.config == config
    {
      this.config := config;
      pendingTrades, sequence := [], 0;
      staleTradeExclusions, staleBookExclusions, staleBboExclusions := 0, 0, 0;
      lastObserved, lastBookReceive, latestDepth, latestBboReceive := None, None, None, None;
      lastStateUsedDepth := false;
    }

    /** Drop the waiting trades that are too old by now, and count them. */
    method ExpireStaleTrades(observed: nat)
      requires Valid()
      modifies this
      ensures Valid() && View() == Expire(old(View()), observed, config.maximumAge)
    {
      var kept: seq<Event> := [];
      for i := 0 to |pendingTrades|
        invariant pendingTrades == old(pendingTrades) && kept == Fresh(pendingTrades[..i], observed, config.maximumAge)
        invariant View() == old(View())
      {
        assert pendingTrades[..i + 1][..i] == pendingTrades[..i];
        if !TooOld(pendingTrades[i], observed, config.maximumAge) { kept := kept + [pendingTrades[i]]; }
      }
      assert pendingTrades[..|pendingTrades|] == pendingTrades;
      FreshNoLonger(pendingTrades, observed, config.maximumAge);
      FreshAreTrades(pendingTrades, observed, config.maximumAge);
      staleTradeExclusions := staleTradeExclusions + |pendingTrades| - |kept|;
      pendingTrades := kept;
    }

    method EmitState(e: Event) returns (outcome: Outcome)
      requires Valid() && e.IsBook()
      modifies this
      ensures Valid() && (View(), outcome) == Emit(config, old(View()), e)
    {
      var state := Candidate(config, pendingTrades, latestDepth, sequence, e);
      if state.exchangeTs > e.receiveTs { return Raised(ClockSkew); }
      if !state.Valid() { return Raised(InvalidState); }
      lastStateUsedDepth := e.L2Book? || DepthUsable(config, latestDepth, e);
      pendingTrades := [];
      sequence := sequence + 1;
      lastObserved := Some(e.receiveTs);
      return Emitted(state);
    }

    method OnTrade(e: Event) returns (outcome: Outcome)
      requires Valid() && e.Trade?
      modifies this
      ensures Valid() && (View(), outcome) == ObserveTrade(config, old(View()), e)
    {
      if e.eventTs > e.receiveTs { return Raised(ClockSkew); }
      ExpireStaleTrades(e.receiveTs);
      if TooOld(e, e.receiveTs, config.maximumAge) {
        staleTradeExclusions := staleTradeExclusions + 1;
      } else {
        pendingTrades := pendingTrades + [e];
      }
      return Nothing;
    }

    method OnBook(e: Event) returns (outcome: Outcome)
      requires Valid() && e.IsBook()
      modifies this
      ensures Valid() && (View(), outcome) == ObserveBook(config, old(View()), e)
    {
      if lastBookReceive.Some? && e.receiveTs <= lastBookReceive.value { return Raised(ReceiptNotIncreasing); }
      if e.eventTs > e.receiveTs { return Raised(ClockSkew); }
      lastBookReceive := Some(e.receiveTs);
      ExpireStaleTrades(e.receiveTs);
      if TooOld(e, e.receiveTs, config.maximumAge) {
        if e.L2Book? { staleBookExclusions := staleBookExclusions + 1; }
        else { staleBboExclusions := staleBboExclusions + 1; }
        return Nothing;
      }
      if e.L2Book? { latestDepth := Some(e); } else { latestBboReceive := Some(e.receiveTs); }
      if !Due(config, lastObserved, e.receiveTs) { return Nothing; }
      outcome := EmitState(e);
    }

    method ObserveEvent(e: Event) returns (outcome: Outcome)
      requires Valid()
      modifies this
      ensures Valid() && (View(), outcome) == Observe(config, old(View()), e)
    {
      if e.Trade? { outcome := OnTrade(e); } else { outcome := OnBook(e); }
    }
  }
}
