/**
 The incremental microstructure feature engine: sliding windows kept as deques,
 and markouts of signed trades.  Floats are reals; `log` stands for the natural
 logarithm, about which nothing is assumed.
 */
module FeatureWindows {
  import opened Wrappers
  import opened Market

  datatype Config = Config(
    depthLevels: nat, flowWindow: nat, volatilityWindow: nat, spreadWindow: nat,
    markoutHorizon: nat, warmupSamples: nat, maximumAge: nat)
  {
    predicate Valid() {
      1 <= depthLevels <= 10 && flowWindow > 0 && volatilityWindow > 0 && spreadWindow > 0
      && markoutHorizon > 0 && warmupSamples >= 2 && maximumAge > 0
    }
  }

  type Positive = x: real | x > 0.0 witness 1.0

  type ValidTrade = t: KernelTrade | t.Valid() witness KernelTrade(0, 0, 1.0, 1.0, Buyer)

  datatype Stamped<T> = Stamped(ts: nat, value: T)

  datatype Flow = Flow(buy: real, sell: real, signed: real)

  datatype Return = Return(logReturn: real, move: real)

  /** A signed trade: the side is one for a buyer and minus one for a seller. */
  datatype Signed = Signed(side: real, price: Positive)

  /** What the windows take from a market state; `oldest` is the oldest exchange time it rests on. */
  datatype Input = Input(ts: nat, oldest: nat, mid: Positive, spreadBps: real, trades: seq<ValidTrade>)

  datatype State = State(
    flow: seq<Stamped<Flow>>, midpoints: seq<Stamped<Positive>>, moves: seq<Stamped<Return>>,
    spreads: seq<Stamped<real>>, pending: seq<Stamped<Signed>>, markouts: seq<Stamped<real>>,
    lastReceive: Option<nat>, lastMid: Option<Positive>, samples: nat)

  const INITIAL := State([], [], [], [], [], [], None, None, 0)

  datatype Error = NotIncreasing | ComputedBeforeReceipt | InputTooOld

  // ----- one update -----

  function Oldest(ts: nat, trades: seq<KernelTrade>): nat {
    if trades == [] then ts
    else
      var before := Oldest(ts, trades[..|trades| - 1]);
      var t := trades[|trades| - 1].exchangeTs;
      if t < before then t else before
  }

  function InputOf(m: KernelState): Input
    requires m.Valid()
  {
    var mid := (m.asks[0].price + m.bids[0].price) / 2.0;
    Input(m.observedTs, Oldest(m.bookExchangeTs, m.trades), mid,
          (m.asks[0].price - m.bids[0].price) / mid * 10_000.0, m.trades)
  }

  function PopOld<T>(window: seq<Stamped<T>>, cutoff: int): seq<Stamped<T>> {
    if window != [] && window[0].ts < cutoff then PopOld(window[1..], cutoff) else window
  }

  function SideOf(aggressor: Aggressor): real {
    match aggressor
    case Buyer => 1.0
    case Seller => -1.0
    case Unattributed => 0.0
  }

  function FlowOf(t: ValidTrade): Flow {
    var sign := SideOf(t.aggressor);
    Flow(if sign > 0.0 then t.size else 0.0, if sign < 0.0 then t.size else 0.0, sign * t.size)
  }

  function FlowItems(trades: seq<ValidTrade>, now: nat): seq<Stamped<Flow>> {
    if trades == [] then []
    else FlowItems(trades[..|trades| - 1], now) + [Stamped(now, FlowOf(trades[|trades| - 1]))]
  }

  function SignedItems(trades: seq<ValidTrade>, now: nat): seq<Stamped<Signed>> {
    if trades == [] then []
    else
      var t := trades[|trades| - 1];
      SignedItems(trades[..|trades| - 1], now)
      + if t.aggressor == Unattributed then [] else [Stamped(now, Signed(SideOf(t.aggressor), t.price))]
  }

  function MarkoutOf(t: Stamped<Signed>, mid: Positive): real {
    t.value.side * (mid - t.value.price) / t.value.price * 10_000.0
  }

  /** Take the trades past their horizon off the front, and mark them out at the current mid. */
  function Resolve(pending: seq<Stamped<Signed>>, now: nat, mid: Positive, horizon: nat): (seq<Stamped<real>>, seq<Stamped<Signed>>)
  {
    if pending != [] && pending[0].ts + horizon <= now then
      var (done, rest) := Resolve(pending[1..], now, mid, horizon);
      ([Stamped(now, MarkoutOf(pending[0], mid))] + done, rest)
    else ([], pending)
  }

  function Check(c: Config, s: State, m: Input, computed: Option<nat>): Option<Error> {
    if s.lastReceive.Some? && m.ts <= s.lastReceive.value then Some(NotIncreasing)
    else if computed.Some? && computed.value < m.ts then Some(ComputedBeforeReceipt)
    else if m.oldest + c.maximumAge < m.ts then Some(InputTooOld)
    else None
  }

  function Abs(x: real): real { if x < 0.0 then -x else x }

  function Moved(last: Positive, mid: Positive, log: real -> real): Return {
    Return(log(mid / last), Abs(mid - last) / mid)
  }

  function NewReturn(last: Option<Positive>, m: Input, log: real -> real): seq<Stamped<Return>> {
    if last.None? then [] else [Stamped(m.ts, Moved(last.value, m.mid, log))]
  }

  function NextFlow(c: Config, flow: seq<Stamped<Flow>>, m: Input): seq<Stamped<Flow>> {
    PopOld(flow + FlowItems(m.trades, m.ts), m.ts - c.flowWindow)
  }

  function NextMids(c: Config, mids: seq<Stamped<Positive>>, m: Input): seq<Stamped<Positive>> {
    PopOld(mids + [Stamped(m.ts, m.mid)], m.ts - c.volatilityWindow)
  }

  function NextMoves(c: Config, moves: seq<Stamped<Return>>, last: Option<Positive>, m: Input, log: real -> real): seq<Stamped<Return>> {
    PopOld(moves + NewReturn(last, m, log), m.ts - c.volatilityWindow)
  }

  function NextSpreads(c: Config, spreads: seq<Stamped<real>>, m: Input): seq<Stamped<real>> {
    PopOld(spreads + [Stamped(m.ts, m.spreadBps)], m.ts - c.spreadWindow)
  }

  function Resolved(c: Config, pending: seq<Stamped<Signed>>, m: Input): (seq<Stamped<real>>, seq<Stamped<Signed>>) {
    Resolve(pending + SignedItems(m.trades, m.ts), m.ts, m.mid, c.markoutHorizon)
  }

  function NextMarkouts(c: Config, markouts: seq<Stamped<real>>, done: seq<Stamped<real>>, m: Input): seq<Stamped<real>> {
    PopOld(markouts + done, m.ts - c.volatilityWindow)
  }

  function Advance(c: Config, s: State, m: Input, log: real -> real): State {
    var (done, waiting) := Resolved(c, s.pending, m);
    State(NextFlow(c, s.flow, m), NextMids(c, s.midpoints, m), NextMoves(c, s.moves, s.lastMid, m, log),
          NextSpreads(c, s.spreads, m), waiting, NextMarkouts(c, s.markouts, done, m),
          Some(m.ts), Some(m.mid), s.samples + 1)
  }

  function Run(c: Config, inputs: seq<Input>, log: real -> real): State {
    if inputs == [] then INITIAL else Advance(c, Run(c, inputs[..|inputs| - 1], log), inputs[|inputs| - 1], log)
  }

  // ----- the history, by which the windows are judged -----

  function Since<T>(history: seq<Stamped<T>>, cutoff: int): seq<Stamped<T>> {
    if history == [] then []
    else
      var rest := Since(history[1..], cutoff);
      if history[0].ts >= cutoff then [history[0]] + rest else rest
  }

  /** The part of a history before an instant. */
  function Before<T>(history: seq<Stamped<T>>, cutoff: int): seq<Stamped<T>> {
    if history == [] then []
    else
      var rest := Before(history[1..], cutoff);
      if history[0].ts < cutoff then [history[0]] + rest else rest
  }

  function AllFlow(inputs: seq<Input>): seq<Stamped<Flow>> {
    if inputs == [] then []
    else
      var m := inputs[|inputs| - 1];
      AllFlow(inputs[..|inputs| - 1]) + FlowItems(m.trades, m.ts)
  }

  function AllSigned(inputs: seq<Input>): seq<Stamped<Signed>> {
    if inputs == [] then []
    else
      var m := inputs[|inputs| - 1];
      AllSigned(inputs[..|inputs| - 1]) + SignedItems(m.trades, m.ts)
  }

  function AllMids(inputs: seq<Input>): seq<Stamped<Positive>> {
    seq(|inputs|, i requires 0 <= i < |inputs| => Stamped(inputs[i].ts, inputs[i].mid))
  }

  function AllSpreads(inputs: seq<Input>): seq<Stamped<real>> {
    seq(|inputs|, i requires 0 <= i < |inputs| => Stamped(inputs[i].ts, inputs[i].spreadBps))
  }

  /** One return for each input but the first, against the one before it. */
  function AllMoves(inputs: seq<Input>, log: real -> real): seq<Stamped<Return>> {
    if |inputs| <= 1 then []
    else
      var n := |inputs| - 1;
      AllMoves(inputs[..n], log) + [Stamped(inputs[n].ts, Moved(inputs[n - 1].mid, inputs[n].mid, log))]
  }

  function Now(inputs: seq<Input>): nat {
    if inputs == [] then 0 else inputs[|inputs| - 1].ts
  }

  /** The first input observed at `at` or later. */
  function FirstAtOrAfter(inputs: seq<Input>, at: nat): (k: nat)
    ensures k <= |inputs| && (k < |inputs| ==> inputs[k].ts >= at)
  {
    if inputs == [] || inputs[0].ts >= at then 0 else 1 + FirstAtOrAfter(inputs[1..], at)
  }

  /** How a signed trade is marked out: at the first input at least a horizon later. */
  function ResolutionOf(inputs: seq<Input>, t: Stamped<Signed>, horizon: nat): Stamped<real> {
    var k := FirstAtOrAfter(inputs, t.ts + horizon);
    if k == |inputs| then Stamped(0, 0.0) else Stamped(inputs[k].ts, MarkoutOf(t, inputs[k].mid))
  }

  function ResolutionsOf(inputs: seq<Input>, trades: seq<Stamped<Signed>>, horizon: nat): seq<Stamped<real>> {
    seq(|trades|, i requires 0 <= i < |trades| => ResolutionOf(inputs, trades[i], horizon))
  }

  /** The trades at least a horizon old by now, in order. */
  function Matured(trades: seq<Stamped<Signed>>, now: nat, horizon: nat): seq<Stamped<Signed>> {
    Before(trades, now - horizon + 1)
  }

  /** All markouts of a run: one for each matured trade, in order. */
  function Markouts(c: Config, inputs: seq<Input>): seq<Stamped<real>> {
    ResolutionsOf(inputs, Matured(AllSigned(inputs), Now(inputs), c.markoutHorizon), c.markoutHorizon)
  }

  ghost predicate Increasing(inputs: seq<Input>) {
    forall i, j | 0 <= i < j < |inputs| :: inputs[i].ts < inputs[j].ts
  }

  // ----- filters -----

  ghost predicate Sorted<T>(window: seq<Stamped<T>>) {
    forall i, j | 0 <= i < j < |window| :: window[i].ts <= window[j].ts
  }

  ghost predicate AllAt<T>(items: seq<Stamped<T>>, now: nat) {
    forall i | 0 <= i < |items| :: items[i].ts == now
  }

  ghost predicate AllBy<T>(items: seq<Stamped<T>>, now: nat) {
    forall i | 0 <= i < |items| :: items[i].ts <= now
  }

  ghost predicate InOrder<T>(history: seq<Stamped<T>>, now: nat) {
    Sorted(history) && AllBy(history, now)
  }

  lemma {:induction false} SinceAll<T>(history: seq<Stamped<T>>, cutoff: int)
    requires forall i | 0 <= i < |history| :: history[i].ts >= cutoff
    ensures Since(history, cutoff) == history
  {
    if history != [] {
      SinceAll(history[1..], cutoff);
    }
  }

  /** On a window in time order, dropping from the front is filtering. */
  lemma {:induction false} PopIsSince<T>(window: seq<Stamped<T>>, cutoff: int)
    requires Sorted(window)
    ensures PopOld(window, cutoff) == Since(window, cutoff)
    decreases |window|
  {
    if window != [] {
      if window[0].ts < cutoff {
        PopIsSince(window[1..], cutoff);
      } else {
        SinceAll(window, cutoff);
      }
    }
  }

  lemma {:induction false} SinceConcat<T>(a: seq<Stamped<T>>, b: seq<Stamped<T>>, cutoff: int)
    ensures Since(a + b, cutoff) == Since(a, cutoff) + Since(b, cutoff)
    decreases |a|
  {
    if a == [] {
      assert a + b == b;
    } else {
      assert (a + b)[1..] == a[1..] + b;
      SinceConcat(a[1..], b, cutoff);
    }
  }

  lemma {:induction false} SinceTwice<T>(history: seq<Stamped<T>>, earlier: int, later: int)
    requires earlier <= later
    ensures Since(Since(history, earlier), later) == Since(history, later)
  {
    if history != [] {
      SinceTwice(history[1..], earlier, later);
      if history[0].ts >= earlier {
        var kept := Since(history[1..], earlier);
        assert ([history[0]] + kept)[1..] == kept;
      }
    }
  }

  lemma {:induction false} SinceMembers<T>(history: seq<Stamped<T>>, cutoff: int)
    ensures forall x :: x in Since(history, cutoff) ==> x in history && x.ts >= cutoff
  {
    if history != [] {
      SinceMembers(history[1..], cutoff);
      assert forall x :: x in history[1..] ==> x in history;
    }
  }

  lemma {:induction false} SinceSorted<T>(history: seq<Stamped<T>>, cutoff: int)
    requires Sorted(history)
    ensures Sorted(Since(history, cutoff))
  {
    if history != [] {
      if history[0].ts >= cutoff {
        SinceAll(history, cutoff);
      } else {
        SinceSorted(history[1..], cutoff);
      }
    }
  }

  lemma {:induction false} SortedExtends<T>(history: seq<Stamped<T>>, items: seq<Stamped<T>>, before: nat, now: nat)
    requires InOrder(history, before) && AllAt(items, now) && before <= now
    ensures InOrder(history + items, now)
  {
  }

  /** Append what is new and drop what is old: the window stays the filter of the longer history. */
  lemma {:induction false} WindowStep<T>(
    history: seq<Stamped<T>>, items: seq<Stamped<T>>, window: seq<Stamped<T>>, size: nat, before: nat, now: nat)
    requires InOrder(history, before) && AllAt(items, now) && before <= now
    requires window == Since(history, before - size)
    ensures PopOld(window + items, now - size) == Since(history + items, now - size)
  {
    SortedExtends(history, items, before, now);
    SinceAll(items, before - size);
    SinceConcat(history, items, before - size);
    assert window + items == Since(history + items, before - size);
    SinceSorted(history + items, before - size);
    PopIsSince(window + items, now - size);
    SinceTwice(history + items, before - size, now - size);
  }

  lemma {:induction false} BeforeKeeps<T>(history: seq<Stamped<T>>, cutoff: int)
    ensures forall x :: x in Before(history, cutoff) ==> x in history && x.ts < cutoff
  {
    if history != [] {
      BeforeKeeps(history[1..], cutoff);
      assert forall x :: x in history[1..] ==> x in history;
    }
  }

  lemma {:induction false} BeforeConcat<T>(a: seq<Stamped<T>>, b: seq<Stamped<T>>, cutoff: int)
    ensures Before(a + b, cutoff) == Before(a, cutoff) + Before(b, cutoff)
    decreases |a|
  {
    if a == [] {
      assert a + b == b;
    } else {
      assert (a + b)[1..] == a[1..] + b;
      BeforeConcat(a[1..], b, cutoff);
    }
  }

  lemma {:induction false} NoneBefore<T>(items: seq<Stamped<T>>, cutoff: int)
    requires forall i | 0 <= i < |items| :: items[i].ts >= cutoff
    ensures Before(items, cutoff) == []
  {
    if items != [] {
      NoneBefore(items[1..], cutoff);
    }
  }

  /** In time order, what comes before the later instant is what came before the earlier one, and then the rest. */
  lemma {:induction false} BeforeSplit<T>(history: seq<Stamped<T>>, x: int, y: int)
    requires Sorted(history) && x <= y
    ensures Before(history, y) == Before(history, x) + Before(Since(history, x), y)
  {
    if history != [] {
      BeforeSplit(history[1..], x, y);
      if history[0].ts >= x {
        SinceAll(history, x);
        NoneBefore(history, x);
        assert Before(history, x) == [];
      }
    }
  }

  // ----- markouts -----

  lemma {:induction false} ItemsStamped(trades: seq<ValidTrade>, now: nat)
    ensures AllAt(FlowItems(trades, now), now) && AllAt(SignedItems(trades, now), now)
  {
    if trades != [] {
      ItemsStamped(trades[..|trades| - 1], now);
    }
  }

  /** The markouts written at one update: every trade whose horizon has passed, at the current mid. */
  function MarkedAt(trades: seq<Stamped<Signed>>, now: nat, mid: Positive): seq<Stamped<real>> {
    seq(|trades|, i requires 0 <= i < |trades| => Stamped(now, MarkoutOf(trades[i], mid)))
  }

  lemma {:induction false} MarkedCons(t: Stamped<Signed>, trades: seq<Stamped<Signed>>, now: nat, mid: Positive)
    ensures MarkedAt([t] + trades, now, mid) == [Stamped(now, MarkoutOf(t, mid))] + MarkedAt(trades, now, mid)
  {
  }

  lemma {:induction false} ResolveTakesMatured(pending: seq<Stamped<Signed>>, now: nat, mid: Positive, horizon: nat)
    requires Sorted(pending)
    ensures Resolve(pending, now, mid, horizon)
            == (MarkedAt(Matured(pending, now, horizon), now, mid), PopOld(pending, now - horizon + 1))
    decreases |pending|
  {
    assert MarkedAt([], now, mid) == [];
    if pending != [] {
      if pending[0].ts + horizon <= now {
        ResolveTakesMatured(pending[1..], now, mid, horizon);
        MarkedCons(pending[0], Matured(pending[1..], now, horizon), now, mid);
      } else {
        NoneBefore(pending, now - horizon + 1);
      }
    }
  }

  lemma {:induction false} FirstIs(inputs: seq<Input>, at: nat, k: nat)
    requires k <= |inputs| && (forall i | 0 <= i < k :: inputs[i].ts < at)
    requires k < |inputs| ==> inputs[k].ts >= at
    ensures FirstAtOrAfter(inputs, at) == k
  {
    if k > 0 {
      FirstIs(inputs[1..], at, k - 1);
    }
  }

  lemma {:induction false} FirstIsFirst(inputs: seq<Input>, at: nat)
    ensures forall i | 0 <= i < FirstAtOrAfter(inputs, at) :: inputs[i].ts < at
  {
    if inputs != [] && inputs[0].ts < at {
      FirstIsFirst(inputs[1..], at);
      forall i | 0 <= i < FirstAtOrAfter(inputs, at) ensures inputs[i].ts < at {
        if i > 0 {
          assert inputs[1..][i - 1] == inputs[i];
        }
      }
    }
  }

  ghost predicate LatestIsNow(inputs: seq<Input>) {
    forall i | 0 <= i < |inputs| :: inputs[i].ts <= Now(inputs)
  }

  /** A trade that was resolved stays resolved the same way; one that just matured is resolved now. */
  lemma {:induction false} ResolutionStep(inputs: seq<Input>, m: Input, t: Stamped<Signed>, horizon: nat)
    requires LatestIsNow(inputs)
    ensures inputs != [] && t.ts + horizon <= Now(inputs) ==>
              ResolutionOf(inputs + [m], t, horizon) == ResolutionOf(inputs, t, horizon)
    ensures (inputs == [] || Now(inputs) < t.ts + horizon) && t.ts + horizon <= m.ts ==>
              ResolutionOf(inputs + [m], t, horizon) == Stamped(m.ts, MarkoutOf(t, m.mid))
  {
    var all, at := inputs + [m], t.ts + horizon;
    var k := FirstAtOrAfter(inputs, at);
    FirstIsFirst(inputs, at);
    if inputs != [] && at <= Now(inputs) {
      assert k < |inputs|;
      FirstIs(all, at, k);
    } else if at <= m.ts {
      FirstIs(all, at, |inputs|);
    }
  }

  lemma {:induction false} NowIsLatest(inputs: seq<Input>, m: Input)
    requires Increasing(inputs + [m])
    ensures Increasing(inputs) && LatestIsNow(inputs) && (inputs != [] ==> Now(inputs) < m.ts)
  {
    var all := inputs + [m];
    assert forall i | 0 <= i < |inputs| :: all[i] == inputs[i];
    assert all[|inputs|] == m;
  }

  lemma {:induction false} MarkoutsSplit(
    inputs: seq<Input>, m: Input, horizon: nat, was: seq<Stamped<Signed>>, now: seq<Stamped<Signed>>)
    requires LatestIsNow(inputs)
    requires forall t | t in was :: inputs != [] && t.ts + horizon <= Now(inputs)
    requires forall t | t in now :: (inputs == [] || Now(inputs) < t.ts + horizon) && t.ts + horizon <= m.ts
    ensures ResolutionsOf(inputs + [m], was + now, horizon) == ResolutionsOf(inputs, was, horizon) + MarkedAt(now, m.ts, m.mid)
  {
    forall i | 0 <= i < |was| + |now|
      ensures ResolutionOf(inputs + [m], (was + now)[i], horizon)
              == (ResolutionsOf(inputs, was, horizon) + MarkedAt(now, m.ts, m.mid))[i]
    {
      var t := (was + now)[i];
      assert i < |was| ==> t in was;
      assert i >= |was| ==> t in now;
      ResolutionStep(inputs, m, t, horizon);
    }
  }

  /** The two parts that mature by the next input: those that had, and those that do now. */
  lemma {:induction false} MaturedParts(trades: seq<Stamped<Signed>>, items: seq<Stamped<Signed>>, x: int, y: int, now: nat)
    requires x <= y <= now && Sorted(trades + items) && AllAt(items, now)
    ensures Before(trades + items, y) == Before(trades, x) + Before(Since(trades, x) + items, y)
  {
    SinceAll(items, x);
    NoneBefore(items, x);
    SinceConcat(trades, items, x);
    BeforeConcat(trades, items, x);
    assert Before(trades + items, x) == Before(trades, x);
    BeforeSplit(trades + items, x, y);
  }

  lemma {:induction false} StillPending(trades: seq<Stamped<Signed>>, items: seq<Stamped<Signed>>, x: int, y: int, now: nat)
    requires x <= now && AllAt(items, now)
    ensures forall t | t in Before(Since(trades, x) + items, y) :: x <= t.ts < y
  {
    BeforeKeeps(Since(trades, x) + items, y);
    SinceMembers(trades, x);
  }

  /** Newly matured trades are those the pending queue gives up; older ones keep their markout. */
  lemma {:induction false} MarkoutsGrow(
    inputs: seq<Input>, m: Input, h: nat, trades: seq<Stamped<Signed>>, items: seq<Stamped<Signed>>,
    pending: seq<Stamped<Signed>>)
    requires h > 0 && LatestIsNow(inputs) && Now(inputs) <= m.ts && (inputs == [] ==> trades == [])
    requires InOrder(trades + items, m.ts) && AllAt(items, m.ts)
    requires pending == Since(trades, Now(inputs) - h + 1) + items
    ensures ResolutionsOf(inputs + [m], Matured(trades + items, m.ts, h), h)
            == ResolutionsOf(inputs, Matured(trades, Now(inputs), h), h) + MarkedAt(Matured(pending, m.ts, h), m.ts, m.mid)
  {
    var x, y := Now(inputs) - h + 1, m.ts - h + 1;
    MaturedParts(trades, items, x, y, m.ts);
    StillPending(trades, items, x, y, m.ts);
    BeforeKeeps(trades, x);
    MarkoutsSplit(inputs, m, h, Before(trades, x), Before(pending, y));
  }

  // ----- the state after any run -----

  lemma {:induction false} SignedSnoc(inputs: seq<Input>, m: Input)
    ensures AllSigned(inputs + [m]) == AllSigned(inputs) + SignedItems(m.trades, m.ts)
    ensures AllFlow(inputs + [m]) == AllFlow(inputs) + FlowItems(m.trades, m.ts)
    ensures Now(inputs + [m]) == m.ts
  {
    assert (inputs + [m])[..|inputs|] == inputs;
  }

  lemma {:induction false} MidsSnoc(inputs: seq<Input>, m: Input)
    ensures AllMids(inputs + [m]) == AllMids(inputs) + [Stamped(m.ts, m.mid)]
    ensures AllSpreads(inputs + [m]) == AllSpreads(inputs) + [Stamped(m.ts, m.spreadBps)]
  {
  }

  function LastMid(inputs: seq<Input>): Option<Positive> {
    if inputs == [] then None else Some(inputs[|inputs| - 1].mid)
  }

  lemma {:induction false} MovesSnoc(inputs: seq<Input>, m: Input, log: real -> real)
    ensures AllMoves(inputs + [m], log) == AllMoves(inputs, log) + NewReturn(LastMid(inputs), m, log)
  {
    assert (inputs + [m])[..|inputs|] == inputs;
  }

  lemma {:induction false} Advances(inputs: seq<Input>, m: Input)
    requires Increasing(inputs + [m])
    ensures Increasing(inputs) && LatestIsNow(inputs) && Now(inputs) <= m.ts
  {
    NowIsLatest(inputs, m);
  }

  lemma {:induction false} FlowInOrder(inputs: seq<Input>)
    requires Increasing(inputs)
    ensures InOrder(AllFlow(inputs), Now(inputs))
    decreases |inputs|
  {
    if inputs != [] {
      var init, m := inputs[..|inputs| - 1], inputs[|inputs| - 1];
      assert inputs == init + [m];
      Advances(init, m);
      FlowInOrder(init);
      ItemsStamped(m.trades, m.ts);
      SortedExtends(AllFlow(init), FlowItems(m.trades, m.ts), Now(init), m.ts);
    }
  }

  lemma {:induction false} SignedInOrder(inputs: seq<Input>)
    requires Increasing(inputs)
    ensures InOrder(AllSigned(inputs), Now(inputs))
    decreases |inputs|
  {
    if inputs != [] {
      var init, m := inputs[..|inputs| - 1], inputs[|inputs| - 1];
      assert inputs == init + [m];
      Advances(init, m);
      SignedInOrder(init);
      ItemsStamped(m.trades, m.ts);
      SortedExtends(AllSigned(init), SignedItems(m.trades, m.ts), Now(init), m.ts);
    }
  }

  lemma {:induction false} MovesInOrder(inputs: seq<Input>, log: real -> real)
    requires Increasing(inputs)
    ensures InOrder(AllMoves(inputs, log), Now(inputs))
    decreases |inputs|
  {
    if inputs != [] {
      var init, m := inputs[..|inputs| - 1], inputs[|inputs| - 1];
      assert inputs == init + [m];
      Advances(init, m);
      MovesInOrder(init, log);
      MovesSnoc(init, m, log);
      SortedExtends(AllMoves(init, log), NewReturn(LastMid(init), m, log), Now(init), m.ts);
    }
  }

  lemma {:induction false} MidsInOrder(inputs: seq<Input>)
    requires Increasing(inputs) && LatestIsNow(inputs)
    ensures InOrder(AllMids(inputs), Now(inputs)) && InOrder(AllSpreads(inputs), Now(inputs))
  {
  }

  ghost predicate TracksFlow(c: Config, inputs: seq<Input>, s: State) {
    s.flow == Since(AllFlow(inputs), Now(inputs) - c.flowWindow)
  }

  ghost predicate TracksQuotes(c: Config, inputs: seq<Input>, s: State) {
    && s.midpoints == Since(AllMids(inputs), Now(inputs) - c.volatilityWindow)
    && s.spreads == Since(AllSpreads(inputs), Now(inputs) - c.spreadWindow)
  }

  ghost predicate TracksMoves(c: Config, inputs: seq<Input>, log: real -> real, s: State) {
    s.moves == Since(AllMoves(inputs, log), Now(inputs) - c.volatilityWindow)
  }

  ghost predicate TracksMarkouts(c: Config, inputs: seq<Input>, s: State) {
    && s.pending == Since(AllSigned(inputs), Now(inputs) - c.markoutHorizon + 1)
    && s.markouts == Since(Markouts(c, inputs), Now(inputs) - c.volatilityWindow)
  }

  ghost predicate TracksLast(inputs: seq<Input>, s: State) {
    && s.lastReceive == (if inputs == [] then None else Some(Now(inputs)))
    && s.lastMid == LastMid(inputs)
    && s.samples == |inputs|
  }

  lemma {:induction false} FlowStep(c: Config, inputs: seq<Input>, m: Input, flow: seq<Stamped<Flow>>)
    requires InOrder(AllFlow(inputs), Now(inputs)) && Now(inputs) <= m.ts
    requires flow == Since(AllFlow(inputs), Now(inputs) - c.flowWindow)
    ensures PopOld(flow + FlowItems(m.trades, m.ts), m.ts - c.flowWindow)
            == Since(AllFlow(inputs) + FlowItems(m.trades, m.ts), m.ts - c.flowWindow)
  {
    ItemsStamped(m.trades, m.ts);
    WindowStep(AllFlow(inputs), FlowItems(m.trades, m.ts), flow, c.flowWindow, Now(inputs), m.ts);
  }

  lemma {:induction false} MidsStep(c: Config, inputs: seq<Input>, m: Input, mids: seq<Stamped<Positive>>)
    requires InOrder(AllMids(inputs), Now(inputs)) && Now(inputs) <= m.ts
    requires mids == Since(AllMids(inputs), Now(inputs) - c.volatilityWindow)
    ensures PopOld(mids + [Stamped(m.ts, m.mid)], m.ts - c.volatilityWindow)
            == Since(AllMids(inputs) + [Stamped(m.ts, m.mid)], m.ts - c.volatilityWindow)
  {
    WindowStep(AllMids(inputs), [Stamped(m.ts, m.mid)], mids, c.volatilityWindow, Now(inputs), m.ts);
  }

  lemma {:induction false} SpreadsStep(c: Config, inputs: seq<Input>, m: Input, spreads: seq<Stamped<real>>)
    requires InOrder(AllSpreads(inputs), Now(inputs)) && Now(inputs) <= m.ts
    requires spreads == Since(AllSpreads(inputs), Now(inputs) - c.spreadWindow)
    ensures PopOld(spreads + [Stamped(m.ts, m.spreadBps)], m.ts - c.spreadWindow)
            == Since(AllSpreads(inputs) + [Stamped(m.ts, m.spreadBps)], m.ts - c.spreadWindow)
  {
    WindowStep(AllSpreads(inputs), [Stamped(m.ts, m.spreadBps)], spreads, c.spreadWindow, Now(inputs), m.ts);
  }

  lemma {:induction false} MovesStep(c: Config, inputs: seq<Input>, m: Input, log: real -> real, moves: seq<Stamped<Return>>)
    requires InOrder(AllMoves(inputs, log), Now(inputs)) && Now(inputs) <= m.ts
    requires moves == Since(AllMoves(inputs, log), Now(inputs) - c.volatilityWindow)
    ensures PopOld(moves + NewReturn(LastMid(inputs), m, log), m.ts - c.volatilityWindow)
            == Since(AllMoves(inputs, log) + NewReturn(LastMid(inputs), m, log), m.ts - c.volatilityWindow)
  {
    WindowStep(AllMoves(inputs, log), NewReturn(LastMid(inputs), m, log), moves, c.volatilityWindow, Now(inputs), m.ts);
  }

  lemma {:induction false} PendingSorted(
    history: seq<Stamped<Signed>>, items: seq<Stamped<Signed>>, cutoff: int, before: nat, now: nat)
    requires InOrder(history, before) && AllAt(items, now) && before <= now
    ensures Sorted(Since(history, cutoff) + items)
  {
    SinceMembers(history, cutoff);
    SinceSorted(history, cutoff);
    var pending := Since(history, cutoff);
    forall i | 0 <= i < |pending| ensures pending[i].ts <= before {
      assert pending[i] in history;
    }
    SortedExtends(pending, items, before, now);
  }

  /** The queue gives up what has matured and keeps the rest. */
  lemma {:induction false} QueueStep(c: Config, inputs: seq<Input>, m: Input, queue: seq<Stamped<Signed>>)
    requires c.Valid() && InOrder(AllSigned(inputs), Now(inputs)) && Now(inputs) <= m.ts
    requires queue == Since(AllSigned(inputs), Now(inputs) - c.markoutHorizon + 1) + SignedItems(m.trades, m.ts)
    ensures Resolve(queue, m.ts, m.mid, c.markoutHorizon)
            == (MarkedAt(Matured(queue, m.ts, c.markoutHorizon), m.ts, m.mid),
                Since(AllSigned(inputs) + SignedItems(m.trades, m.ts), m.ts - c.markoutHorizon + 1))
  {
    var before, items := Now(inputs), SignedItems(m.trades, m.ts);
    ItemsStamped(m.trades, m.ts);
    PendingSorted(AllSigned(inputs), items, before - c.markoutHorizon + 1, before, m.ts);
    ResolveTakesMatured(queue, m.ts, m.mid, c.markoutHorizon);
    WindowStep(AllSigned(inputs), items, Since(AllSigned(inputs), before - c.markoutHorizon + 1),
               c.markoutHorizon - 1, before, m.ts);
  }

  lemma {:induction false} HistoryGrows(c: Config, inputs: seq<Input>, m: Input, queue: seq<Stamped<Signed>>)
    requires c.Valid() && InOrder(AllSigned(inputs), Now(inputs)) && Now(inputs) <= m.ts && LatestIsNow(inputs)
    requires queue == Since(AllSigned(inputs), Now(inputs) - c.markoutHorizon + 1) + SignedItems(m.trades, m.ts)
    ensures Markouts(c, inputs + [m])
            == Markouts(c, inputs) + MarkedAt(Matured(queue, m.ts, c.markoutHorizon), m.ts, m.mid)
  {
    SignedSnoc(inputs, m);
    ItemsStamped(m.trades, m.ts);
    SortedExtends(AllSigned(inputs), SignedItems(m.trades, m.ts), Now(inputs), m.ts);
    MarkoutsGrow(inputs, m, c.markoutHorizon, AllSigned(inputs), SignedItems(m.trades, m.ts), queue);
  }

  lemma {:induction false} MarkedAllAt(trades: seq<Stamped<Signed>>, now: nat, mid: Positive)
    ensures AllAt(MarkedAt(trades, now, mid), now)
  {
  }

  lemma {:induction false} MarkoutStep(c: Config, inputs: seq<Input>, m: Input, markouts: seq<Stamped<real>>, done: seq<Stamped<real>>)
    requires InOrder(Markouts(c, inputs), Now(inputs)) && Now(inputs) <= m.ts && AllAt(done, m.ts)
    requires markouts == Since(Markouts(c, inputs), Now(inputs) - c.volatilityWindow)
    ensures PopOld(markouts + done, m.ts - c.volatilityWindow) == Since(Markouts(c, inputs) + done, m.ts - c.volatilityWindow)
    ensures InOrder(Markouts(c, inputs) + done, m.ts)
  {
    SortedExtends(Markouts(c, inputs), done, Now(inputs), m.ts);
    WindowStep(Markouts(c, inputs), done, markouts, c.volatilityWindow, Now(inputs), m.ts);
  }

  ghost predicate Tracks(c: Config, inputs: seq<Input>, log: real -> real, s: State) {
    && TracksFlow(c, inputs, s) && TracksQuotes(c, inputs, s) && TracksMoves(c, inputs, log, s)
    && TracksMarkouts(c, inputs, s) && TracksLast(inputs, s)
  }

  lemma {:induction false} AdvanceFlow(c: Config, inputs: seq<Input>, m: Input, s: State, next: State)
    requires InOrder(AllFlow(inputs), Now(inputs)) && Now(inputs) <= m.ts && TracksFlow(c, inputs, s)
    requires next.flow == NextFlow(c, s.flow, m)
    ensures TracksFlow(c, inputs + [m], next)
  {
    FlowStep(c, inputs, m, s.flow);
    SignedSnoc(inputs, m);
  }

  lemma {:induction false} AdvanceQuotes(c: Config, inputs: seq<Input>, m: Input, s: State, next: State)
    requires InOrder(AllMids(inputs), Now(inputs)) && InOrder(AllSpreads(inputs), Now(inputs)) && Now(inputs) <= m.ts
    requires TracksQuotes(c, inputs, s)
    requires next.midpoints == NextMids(c, s.midpoints, m) && next.spreads == NextSpreads(c, s.spreads, m)
    ensures TracksQuotes(c, inputs + [m], next)
  {
    MidsSnoc(inputs, m);
    MidsStep(c, inputs, m, s.midpoints);
    SpreadsStep(c, inputs, m, s.spreads);
  }

  lemma {:induction false} AdvanceMoves(c: Config, inputs: seq<Input>, m: Input, log: real -> real, s: State, next: State)
    requires InOrder(AllMoves(inputs, log), Now(inputs)) && Now(inputs) <= m.ts
    requires TracksMoves(c, inputs, log, s)
    requires next.moves == NextMoves(c, s.moves, LastMid(inputs), m, log)
    ensures TracksMoves(c, inputs + [m], log, next)
  {
    MovesStep(c, inputs, m, log, s.moves);
    MovesSnoc(inputs, m, log);
  }

  /** What an update writes: the markouts of the trades in the queue that have matured. */
  function DoneAt(c: Config, pending: seq<Stamped<Signed>>, m: Input): seq<Stamped<real>> {
    MarkedAt(Matured(pending + SignedItems(m.trades, m.ts), m.ts, c.markoutHorizon), m.ts, m.mid)
  }

  lemma {:induction false} ResolvedIs(c: Config, inputs: seq<Input>, m: Input, pending: seq<Stamped<Signed>>)
    requires c.Valid() && Now(inputs) <= m.ts && InOrder(AllSigned(inputs), Now(inputs))
    requires pending == Since(AllSigned(inputs), Now(inputs) - c.markoutHorizon + 1)
    ensures Resolved(c, pending, m).0 == DoneAt(c, pending, m)
    ensures Resolved(c, pending, m).1 == Since(AllSigned(inputs + [m]), m.ts - c.markoutHorizon + 1)
  {
    QueueStep(c, inputs, m, pending + SignedItems(m.trades, m.ts));
    SignedSnoc(inputs, m);
  }

  lemma {:induction false} HistoryGrowsBy(c: Config, inputs: seq<Input>, m: Input, pending: seq<Stamped<Signed>>)
    requires c.Valid() && LatestIsNow(inputs) && Now(inputs) <= m.ts && InOrder(AllSigned(inputs), Now(inputs))
    requires pending == Since(AllSigned(inputs), Now(inputs) - c.markoutHorizon + 1)
    ensures Markouts(c, inputs + [m]) == Markouts(c, inputs) + DoneAt(c, pending, m) && AllAt(DoneAt(c, pending, m), m.ts)
  {
    var queue := pending + SignedItems(m.trades, m.ts);
    HistoryGrows(c, inputs, m, queue);
    MarkedAllAt(Matured(queue, m.ts, c.markoutHorizon), m.ts, m.mid);
  }

  lemma {:induction false} MarkoutsNext(c: Config, inputs: seq<Input>, m: Input, markouts: seq<Stamped<real>>, done: seq<Stamped<real>>)
    requires InOrder(Markouts(c, inputs), Now(inputs)) && Now(inputs) <= m.ts && AllAt(done, m.ts)
    requires markouts == Since(Markouts(c, inputs), Now(inputs) - c.volatilityWindow)
    requires Markouts(c, inputs + [m]) == Markouts(c, inputs) + done
    ensures NextMarkouts(c, markouts, done, m) == Since(Markouts(c, inputs + [m]), m.ts - c.volatilityWindow)
    ensures InOrder(Markouts(c, inputs + [m]), m.ts)
  {
    MarkoutStep(c, inputs, m, markouts, done);
  }

  lemma {:induction false} AdvanceMarkouts(c: Config, inputs: seq<Input>, m: Input, s: State, next: State)
    requires c.Valid() && LatestIsNow(inputs) && Now(inputs) <= m.ts && TracksMarkouts(c, inputs, s)
    requires InOrder(AllSigned(inputs), Now(inputs)) && InOrder(Markouts(c, inputs), Now(inputs))
    requires next.pending == Resolved(c, s.pending, m).1
    requires next.markouts == NextMarkouts(c, s.markouts, Resolved(c, s.pending, m).0, m)
    ensures TracksMarkouts(c, inputs + [m], next) && InOrder(Markouts(c, inputs + [m]), m.ts)
  {
    var done := DoneAt(c, s.pending, m);
    assert Resolved(c, s.pending, m).0 == done && next.pending == Since(AllSigned(inputs + [m]), m.ts - c.markoutHorizon + 1) by {
      ResolvedIs(c, inputs, m, s.pending);
    }
    assert Markouts(c, inputs + [m]) == Markouts(c, inputs) + done && AllAt(done, m.ts) by {
      HistoryGrowsBy(c, inputs, m, s.pending);
    }
    MarkoutsNext(c, inputs, m, s.markouts, done);
    assert Now(inputs + [m]) == m.ts;
  }

  /**
   After any run on increasing inputs every window holds exactly the part of
   the whole history inside its span, the pending trades are those not yet a
   horizon old, and every older signed trade has been marked out once, in order,
   at the first input past its horizon.
   */
  lemma {:induction false} WindowsAreFilters(c: Config, inputs: seq<Input>, log: real -> real)
    requires c.Valid() && Increasing(inputs)
    ensures Tracks(c, inputs, log, Run(c, inputs, log)) && InOrder(Markouts(c, inputs), Now(inputs))
    decreases |inputs|
  {
    if inputs != [] {
      var init, m := inputs[..|inputs| - 1], inputs[|inputs| - 1];
      assert inputs == init + [m];
      Advances(init, m);
      WindowsAreFilters(c, init, log);
      var s := Run(c, init, log);
      FlowInOrder(init);
      SignedInOrder(init);
      MovesInOrder(init, log);
      MidsInOrder(init);
      var next := Advance(c, s, m, log);
      AdvanceFlow(c, init, m, s, next);
      AdvanceQuotes(c, init, m, s, next);
      AdvanceMoves(c, init, m, log, s, next);
      AdvanceMarkouts(c, init, m, s, next);
    }
  }
}
