/**
 The flags and the cancel budget of the live strategy: which market cycles may
 reach a trading decision after a start with open orders, and how fast it can
 cancel.
 */
module LiveDrain {
  import opened Wrappers

  datatype RiskState = RiskActive | ReduceOnly | CancelOnly | Flattening | Halted

  const SECOND: int := 1_000_000_000

  datatype Cycle = Blocked | RecoveryDrain | StartupDrain | Decided | Failed

  /** Everything here survives only as long as the process. */
  datatype Flags = Flags(startupDrain: bool, riskCancelPending: bool)

  datatype Live = Live(flags: Flags, cancelTimes: seq<int>)

  // ----- the cancel budget -----

  /** What is left of the window once instants a second old or older are dropped from its front. */
  function Prune(times: seq<int>, cutoff: int): seq<int> {
    if times != [] && times[0] <= cutoff then Prune(times[1..], cutoff) else times
  }

  function Charge(times: seq<int>, now: int, limit: nat): Result<seq<int>, seq<int>> {
    var recent := Prune(times, now - SECOND);
    if |recent| >= limit then Err(recent) else Ok(recent + [now])
  }

  /** The window is the tail of all accepted cancels, and what it dropped is at least a second old. */
  ghost predicate Windowed(history: seq<int>, times: seq<int>, now: int) {
    && |times| <= |history|
    && history[|history| - |times|..] == times
    && (forall i | 0 <= i < |history| - |times| :: history[i] <= now - SECOND)
    && (forall i | 0 <= i < |history| :: history[i] <= now)
  }

  /** Any `limit + 1` consecutive accepted cancels span at least a second. */
  ghost predicate Paced(history: seq<int>, limit: nat) {
    forall i, k | 0 <= i && i + limit <= k < |history| :: history[i] + SECOND <= history[k]
  }

  lemma {:induction false} PruneIsSuffix(times: seq<int>, cutoff: int)
    ensures |Prune(times, cutoff)| <= |times|
    ensures Prune(times, cutoff) == times[|times| - |Prune(times, cutoff)|..]
    ensures forall i | 0 <= i < |times| - |Prune(times, cutoff)| :: times[i] <= cutoff
    decreases |times|
  {
    if times != [] && times[0] <= cutoff {
      PruneIsSuffix(times[1..], cutoff);
    }
  }

  lemma {:induction false} WindowPruned(history: seq<int>, times: seq<int>, last: int, now: int)
    requires Windowed(history, times, last) && last <= now
    ensures Windowed(history, Prune(times, now - SECOND), now)
  {
    var recent := Prune(times, now - SECOND);
    PruneIsSuffix(times, now - SECOND);
    var n, m := |history| - |times|, |times| - |recent|;
    forall i | 0 <= i < |history| - |recent| ensures history[i] <= now - SECOND {
      if i >= n {
        assert history[i] == times[i - n];
      }
    }
    assert history[n + m..] == history[n..][m..];
  }

  lemma {:induction false} ChargeKeeps(history: seq<int>, times: seq<int>, last: int, now: int, limit: nat)
    requires Windowed(history, times, last) && Paced(history, limit) && last <= now
    ensures var r := Charge(times, now, limit);
            && (r.Ok? ==> Windowed(history + [now], r.value, now) && Paced(history + [now], limit))
            && (r.Err? ==> Windowed(history, r.error, now))
  {
    WindowPruned(history, times, last, now);
    var recent := Prune(times, now - SECOND);
    var r := Charge(times, now, limit);
    if r.Ok? {
      var longer := history + [now];
      assert longer[|longer| - |r.value|..] == r.value;
      forall i, k | 0 <= i && i + limit <= k < |longer| ensures longer[i] + SECOND <= longer[k] {
        if k == |history| {
          assert i < |history| - |recent|;
        } else {
          assert history[i] + SECOND <= history[k];
        }
      }
    }
  }

  /** The accepted cancels among attempts at the given instants. */
  function AcceptedCancels(attempts: seq<int>, limit: nat): (seq<int>, seq<int>)
    decreases |attempts|
  {
    if attempts == [] then ([], [])
    else
      var (history, times) := AcceptedCancels(attempts[..|attempts| - 1], limit);
      var now := attempts[|attempts| - 1];
      var r := Charge(times, now, limit);
      if r.Ok? then (history + [now], r.value) else (history, r.error)
  }

  ghost predicate NonDecreasing(times: seq<int>) {
    forall i, k | 0 <= i <= k < |times| :: times[i] <= times[k]
  }

  /** On a clock that does not run backwards, no second ever contains more cancels than the limit. */
  lemma {:induction false} CancelsArePaced(attempts: seq<int>, limit: nat)
    requires NonDecreasing(attempts)
    ensures Paced(AcceptedCancels(attempts, limit).0, limit)
    ensures attempts != [] ==>
              Windowed(AcceptedCancels(attempts, limit).0, AcceptedCancels(attempts, limit).1, attempts[|attempts| - 1])
    decreases |attempts|
  {
    if attempts != [] {
      var init, now := attempts[..|attempts| - 1], attempts[|attempts| - 1];
      CancelsArePaced(init, limit);
      var (history, times) := AcceptedCancels(init, limit);
      ChargeKeeps(history, times, if init == [] then now else init[|init| - 1], now, limit);
    }
  }

  // ----- the market cycle -----

  /** `OtherCancel` is a single cancel, or the cancel-all of a cycle that failed closed. */
  datatype Event =
    | Start(openOrders: nat, now: int, adapterOk: bool)
    | Market(open: nat, risk: RiskState, at: int, cancelOk: bool)
    | OrderCanceled
    | CancelRejected
    | OtherCancel(when: int)

  /** Cancel every open order; both the budget and the adapter may refuse. */
  function CancelAll(times: seq<int>, now: int, limit: nat, adapterOk: bool): (seq<int>, bool) {
    var r := Charge(times, now, limit);
    if r.Err? then (r.error, false) else (r.value, adapterOk)
  }

  function StartStep(s: Live, open: nat, now: int, ok: bool, limit: nat): Live {
    if open == 0 then s.(flags := s.flags.(startupDrain := false))
    else
      var (times, done) := CancelAll(s.cancelTimes, now, limit, ok);
      Live(Flags(true, done || s.flags.riskCancelPending), times)
  }

  /** The cancel that some branches of a cycle ask for, unless one is already pending. */
  function EnsureCancel(s: Live, now: int, limit: nat, ok: bool): (Live, bool) {
    if s.flags.riskCancelPending then (s, true)
    else
      var (times, done) := CancelAll(s.cancelTimes, now, limit, ok);
      (Live(s.flags.(riskCancelPending := done), times), done)
  }

  function DrainStep(s: Live, open: nat, now: int, ok: bool, limit: nat): (Live, Cycle) {
    if s.flags.riskCancelPending && open > 0 then (s, RecoveryDrain)
    else
      var recovered := s.(flags := s.flags.(riskCancelPending := false));
      if !recovered.flags.startupDrain then (recovered, Decided)
      else if open > 0 then
        var (next, done) := EnsureCancel(recovered, now, limit, ok);
        (next, if done then StartupDrain else Failed)
      else (recovered.(flags := recovered.flags.(startupDrain := false)), Decided)
  }

  function MarketStep(s: Live, open: nat, risk: RiskState, now: int, ok: bool, limit: nat): (Live, Cycle) {
    if risk == RiskActive then DrainStep(s, open, now, ok, limit)
    else
      var (cancelled, done) := if open > 0 then EnsureCancel(s, now, limit, ok) else (s, true);
      if !done then (cancelled, Failed)
      else if open > 0 || risk == CancelOnly || risk == Halted then (cancelled, Blocked)
      else DrainStep(cancelled, open, now, ok, limit)
  }

  function Observe(s: Live, e: Event, limit: nat): (Live, Cycle) {
    match e
    case Start(open, now, ok) => (StartStep(s, open, now, ok, limit), Blocked)
    case Market(open, risk, now, ok) => MarketStep(s, open, risk, now, ok, limit)
    case OrderCanceled => (s.(flags := s.flags.(riskCancelPending := false)), Blocked)
    case CancelRejected => (s.(flags := s.flags.(riskCancelPending := false)), Blocked)
    case OtherCancel(now) => (s.(cancelTimes := CancelAll(s.cancelTimes, now, limit, true).0), Blocked)
  }

  function Replay(s: Live, events: seq<Event>, limit: nat): Live {
    if events == [] then s
    else Observe(Replay(s, events[..|events| - 1], limit), events[|events| - 1], limit).0
  }

  /** The outcome of the k-th event. */
  function Outcome(s: Live, events: seq<Event>, limit: nat, k: nat): Cycle
    requires k < |events|
  {
    Observe(Replay(s, events[..k], limit), events[k], limit).1
  }

  /** A decision is reached exactly when risk allows it and no pending drain still sees open orders. */
  lemma {:induction false} DecidesExactlyWhen(s: Live, open: nat, risk: RiskState, now: int, ok: bool, limit: nat)
    ensures MarketStep(s, open, risk, now, ok, limit).1 == Decided
            <==> (open == 0 && risk != CancelOnly && risk != Halted)
                 || (risk == RiskActive && !s.flags.riskCancelPending && !s.flags.startupDrain)
  {
  }

  // ----- what each cycle does -----

  /** How many of the instants lie after the cutoff. */
  ghost function CountAfter(times: seq<int>, cutoff: int): nat {
    if times == [] then 0 else CountAfter(times[1..], cutoff) + if times[0] > cutoff then 1 else 0
  }

  lemma {:induction false} AllAfter(times: seq<int>, cutoff: int)
    requires forall i | 0 <= i < |times| :: times[i] > cutoff
    ensures CountAfter(times, cutoff) == |times|
  {
    if times != [] {
      AllAfter(times[1..], cutoff);
    }
  }

  /** On a window in time order, what pruning leaves are the instants within the last second. */
  lemma {:induction false} PruneCounts(times: seq<int>, cutoff: int)
    requires NonDecreasing(times)
    ensures |Prune(times, cutoff)| == CountAfter(times, cutoff)
    ensures forall i | 0 <= i < |Prune(times, cutoff)| :: Prune(times, cutoff)[i] > cutoff
    decreases |times|
  {
    if times != [] {
      if times[0] <= cutoff {
        PruneCounts(times[1..], cutoff);
      } else {
        AllAfter(times, cutoff);
      }
    }
  }

  /** The budget has room at `now`: fewer than the limit were accepted within the last second. */
  ghost predicate HasRoom(times: seq<int>, now: int, limit: nat) { CountAfter(times, now - SECOND) < limit }

  /** A cancel is accepted exactly when the budget has room, and then takes its place in the window. */
  lemma {:induction false} ChargesExactlyWhen(times: seq<int>, now: int, limit: nat)
    requires NonDecreasing(times)
    ensures Charge(times, now, limit).Ok? <==> HasRoom(times, now, limit)
    ensures Charge(times, now, limit).Ok? ==> Charge(times, now, limit).value == Prune(times, now - SECOND) + [now]
    ensures Charge(times, now, limit).Err? ==> Charge(times, now, limit).error == Prune(times, now - SECOND)
  {
    PruneCounts(times, now - SECOND);
  }

  /** The cycle asks for a cancel of everything: orders are open, none is pending, and risk or the startup drain wants them gone. */
  predicate WantsCancel(s: Live, open: nat, risk: RiskState) {
    open > 0 && !s.flags.riskCancelPending && (risk != RiskActive || s.flags.startupDrain)
  }

  /**
   The outcome of every market cycle, and what it leaves: a wanted cancel that
   the budget or the adapter refuses fails the cycle; orders left open by a
   cycle that did not fail, and that was not free to decide, have a cancel
   pending; the startup drain ends exactly with a decision.
   */
  lemma {:induction false} CycleExactly(s: Live, open: nat, risk: RiskState, now: int, ok: bool, limit: nat)
    requires NonDecreasing(s.cancelTimes)
    ensures var (next, cycle) := MarketStep(s, open, risk, now, ok, limit);
            var wants, sent := WantsCancel(s, open, risk), HasRoom(s.cancelTimes, now, limit) && ok;
            && (cycle == Failed <==> wants && !sent)
            && (cycle == RecoveryDrain <==> risk == RiskActive && open > 0 && s.flags.riskCancelPending)
            && (cycle == StartupDrain <==> risk == RiskActive && wants && sent)
            && (cycle == Blocked
                <==> risk != RiskActive
                     && if open > 0 then s.flags.riskCancelPending || sent else risk in {CancelOnly, Halted})
            && (next.flags.startupDrain <==> s.flags.startupDrain && cycle != Decided)
            && (open > 0 ==> (next.flags.riskCancelPending <==> cycle in {Blocked, RecoveryDrain, StartupDrain}))
            && (open == 0 ==> (next.flags.riskCancelPending <==> s.flags.riskCancelPending && cycle == Blocked))
            && next.cancelTimes
               == if !wants then s.cancelTimes
                  else Prune(s.cancelTimes, now - SECOND) + if HasRoom(s.cancelTimes, now, limit) then [now] else []
  {
    ChargesExactlyWhen(s.cancelTimes, now, limit);
  }

  /** Open orders are never left alone by a risk state that is not active: the cycle fails, or a cancel is pending after it. */
  lemma {:induction false} OpenOrdersAreCancelled(s: Live, open: nat, risk: RiskState, now: int, ok: bool, limit: nat)
    requires open > 0 && risk != RiskActive
    ensures var (next, cycle) := MarketStep(s, open, risk, now, ok, limit);
            cycle == Failed || (cycle == Blocked && next.flags.riskCancelPending)
  {
  }

  /** A start with open orders drains, and has a cancel pending exactly when one was sent or was pending before. */
  lemma {:induction false} StartExactly(s: Live, open: nat, now: int, ok: bool, limit: nat)
    requires NonDecreasing(s.cancelTimes)
    ensures var next := StartStep(s, open, now, ok, limit);
            && (next.flags.startupDrain <==> open > 0)
            && (next.flags.riskCancelPending
                <==> s.flags.riskCancelPending || (open > 0 && HasRoom(s.cancelTimes, now, limit) && ok))
            && next.cancelTimes
               == if open == 0 then s.cancelTimes
                  else Prune(s.cancelTimes, now - SECOND) + if HasRoom(s.cancelTimes, now, limit) then [now] else []
  {
    ChargesExactlyWhen(s.cancelTimes, now, limit);
  }

  /** The startup drain survives every event except a market cycle that sees no open order, or a new start. */
  lemma {:induction false} DrainSurvives(s: Live, e: Event, limit: nat)
    requires s.flags.startupDrain && !e.Start? && (e.Market? ==> e.open > 0)
    ensures Observe(s, e, limit).0.flags.startupDrain && Observe(s, e, limit).1 != Decided
  {
  }

  ghost predicate Empty(events: seq<Event>, j: nat) {
    j < |events| && events[j].Market? && events[j].open == 0
  }

  lemma {:induction false} StillDraining(s: Live, events: seq<Event>, limit: nat, k: nat)
    requires 0 < k <= |events| && events[0].Start? && events[0].openOrders > 0
    requires forall i | 0 < i < |events| :: !events[i].Start?
    requires forall j: nat | j < k :: !Empty(events, j)
    ensures Replay(s, events[..k], limit).flags.startupDrain
    decreases k
  {
    assert events[..k][..k - 1] == events[..k - 1];
    if k > 1 {
      StillDraining(s, events, limit, k - 1);
      assert !Empty(events, k - 1);
      DrainSurvives(Replay(s, events[..k - 1], limit), events[k - 1], limit);
    }
  }

  /**
   After a start with open orders no cycle reaches a trading decision before
   one has seen a snapshot without open orders, whatever the venue, the risk
   state, the cancel budget and the order events do.
   */
  lemma {:induction false} NoDecisionBeforeEmptySnapshot(s: Live, events: seq<Event>, limit: nat, k: nat)
    requires 0 < k < |events| && events[0].Start? && events[0].openOrders > 0
    requires forall i | 0 < i < |events| :: !events[i].Start?
    requires Outcome(s, events, limit, k) == Decided
    ensures exists j :: 0 < j <= k && Empty(events, j)
  {
    if forall j: nat | j < k + 1 :: !Empty(events, j) {
      StillDraining(s, events, limit, k);
      assert !Empty(events, k);
      DrainSurvives(Replay(s, events[..k], limit), events[k], limit);
      assert false;
    } else {
      var j: nat :| j < k + 1 && Empty(events, j);
      assert j != 0;
    }
  }

  // ----- the strategy object -----

  class RiskManagedExecutionStrategy {
    const maxCancelsPerSecond: nat
    var startupDrain: bool
    var riskCancelPending: bool
    var cancelTimes: seq<int>

    ghost function View(): Live
      reads this
    {
      Live(Flags(startupDrain, riskCancelPending), cancelTimes)
    }

    constructor (maxCancelsPerSecond: nat)
      ensures this.maxCancelsPerSecond == maxCancelsPerSecond && View() == Live(Flags(false, false), [])
    {
      this.maxCancelsPerSecond := maxCancelsPerSecond;
      startupDrain, riskCancelPending, cancelTimes := false, false, [];
    }

    method ConsumeCancelBudget(now: int) returns (ok: bool)
      modifies this`cancelTimes
      ensures var r := Charge(old(cancelTimes), now, maxCancelsPerSecond);
              ok == r.Ok? && cancelTimes == if r.Ok? then r.value else r.error
    {
      var cutoff := now - SECOND;
      while cancelTimes != [] && cancelTimes[0] <= cutoff
        invariant Prune(cancelTimes, cutoff) == Prune(old(cancelTimes), cutoff)
        decreases |cancelTimes|
      {
        cancelTimes := cancelTimes[1..];
      }
      if |cancelTimes| >= maxCancelsPerSecond { return false; }
      cancelTimes := cancelTimes + [now];
      return true;
    }

    method CancelAllOrders(now: int, adapterOk: bool) returns (ok: bool)
      modifies this`cancelTimes
      ensures (cancelTimes, ok) == CancelAll(old(cancelTimes), now, maxCancelsPerSecond, adapterOk)
    {
      ok := ConsumeCancelBudget(now);
      if ok { ok := adapterOk; }
    }

    method OnStart(openOrders: nat, now: int, adapterOk: bool)
      modifies this
      ensures View() == StartStep(old(View()), openOrders, now, adapterOk, maxCancelsPerSecond)
    {
      startupDrain := openOrders > 0;
      if startupDrain {
        var ok := CancelAllOrders(now, adapterOk);
        if ok { riskCancelPending := true; }
      }
    }

    /** A cycle that raised: one attempt to cancel what is open, whose failure is swallowed. */
    method FailClosed(open: nat, now: int, adapterOk: bool)
      modifies this
      ensures View() == if open > 0 then Observe(old(View()), OtherCancel(now), maxCancelsPerSecond).0 else old(View())
    {
      if open > 0 {
        var _ := CancelAllOrders(now, adapterOk);
      }
    }

    method OnOrderCanceled()
      modifies this
      ensures View() == Observe(old(View()), OrderCanceled, maxCancelsPerSecond).0
    {
      riskCancelPending := false;
    }

    /** One market cycle up to the point where a decision would be taken. */
    method ProcessLiveMarket(open: nat, risk: RiskState, now: int, adapterOk: bool) returns (cycle: Cycle)
      modifies this
      ensures (View(), cycle) == MarketStep(old(View()), open, risk, now, adapterOk, maxCancelsPerSecond)
    {
      if risk != RiskActive {
        if open > 0 && !riskCancelPending {
          var ok := CancelAllOrders(now, adapterOk);
          if !ok { return Failed; }
          riskCancelPending := true;
        }
        if open > 0 || risk == CancelOnly || risk == Halted { return Blocked; }
      }
      if riskCancelPending {
        if open > 0 { return RecoveryDrain; }
        riskCancelPending := false;
      }
      if startupDrain {
        if open > 0 {
          if !riskCancelPending {
            var ok := CancelAllOrders(now, adapterOk);
            if !ok { return Failed; }
            riskCancelPending := true;
          }
          return StartupDrain;
        }
        startupDrain := false;
      }
      return Decided;
    }
  }
}
