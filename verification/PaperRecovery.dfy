/**
 The paper engine over its journal, across market cycles, watchdog cycles,
 failed commits, crashes and restarts.
 */
module PaperRecovery {
  import opened Wrappers
  import opened PaperJournal

  /** What the engine keeps in memory about the run. */
  datatype Memory = Memory(
    horizon: nat, pending: map<string, Fill>, commandSequence: nat, evaluationSequence: nat,
    source: Option<nat>, lastObserved: Option<nat>)

  /** One market state, with what the simulator and the strategy made of it. */
  datatype Input = Input(ts: nat, source: Option<nat>, fills: seq<Fill>, mark: real, orders: seq<Order>)

  datatype Outcome = Rejected | Committed | Failed

  // ----- one cycle -----

  function Number(orders: seq<Order>, start: nat, ts: nat): seq<Command> {
    seq(|orders|, i requires 0 <= i < |orders| => Command(start + i, ts, orders[i]))
  }

  function AddFills(pending: map<string, Fill>, fills: seq<Fill>): map<string, Fill> {
    if fills == [] then pending
    else AddFills(pending, fills[..|fills| - 1])[fills[|fills| - 1].id := fills[|fills| - 1]]
  }

  predicate Ripe(f: Fill, now: nat, horizon: nat) { f.ts + horizon <= now }

  function MarkoutFor(f: Fill, now: nat, mark: real): Markout {
    Markout(now, mark, (if f.buy then 1.0 else -1.0) * (mark - f.price) / f.price * 10_000.0)
  }

  function RipeMarkouts(pending: map<string, Fill>, now: nat, horizon: nat, mark: real): map<string, Markout> {
    map id | id in pending && Ripe(pending[id], now, horizon) :: MarkoutFor(pending[id], now, mark)
  }

  function Unripe(pending: map<string, Fill>, now: nat, horizon: nat): map<string, Fill> {
    map id | id in pending && !Ripe(pending[id], now, horizon) :: pending[id]
  }

  predicate Accepts(m: Memory, input: Input) {
    && !(input.source.Some? && m.source.Some? && input.source.value <= m.source.value)
    && !(m.lastObserved.Some? && input.ts <= m.lastObserved.value)
  }

  /** Memory after the cycle has been computed and before its commit. */
  function Computed(m: Memory, input: Input): Memory {
    m.(pending := Unripe(AddFills(m.pending, input.fills), input.ts, m.horizon),
       commandSequence := m.commandSequence + |input.orders|,
       source := input.source, lastObserved := Some(input.ts))
  }

  function MarketCommit(t: Tables, m: Memory, input: Input): Option<Tables> {
    CommitEngineCycle(t, input.fills, Number(input.orders, m.commandSequence, input.ts),
                      RipeMarkouts(AddFills(m.pending, input.fills), input.ts, m.horizon, input.mark), m.horizon,
                      Evaluation(m.evaluationSequence, input.ts), input.source)
  }

  function MarketStep(t: Tables, m: Memory, input: Input, fault: bool): (Tables, Memory, Outcome) {
    if !Accepts(m, input) then (t, m, Rejected)
    else
      var next := Computed(m, input);
      var committed := MarketCommit(t, m, input);
      if fault || committed.None? then (t, next, Failed)
      else (committed.value, next.(evaluationSequence := m.evaluationSequence + 1), Committed)
  }

  /** A watchdog cycle commits only when an order changed or a fill arrived; commands come with changed orders. */
  datatype Watch = Watch(ts: nat, changed: bool, fills: seq<Fill>, orders: seq<Order>)

  /** Does the watchdog have anything to commit? */
  predicate Acts(w: Watch) { w.changed || w.fills != [] }

  /** Memory after a watchdog cycle has been computed and before its commit. */
  function Watched(m: Memory, w: Watch): Memory {
    if Acts(w) then m.(pending := AddFills(m.pending, w.fills), commandSequence := m.commandSequence + |w.orders|) else m
  }

  function WatchdogCommit(t: Tables, m: Memory, w: Watch): Option<Tables> {
    CommitCycle(t, w.fills, Number(w.orders, m.commandSequence, w.ts))
  }

  /** The cycle and the checkpoint are two transactions: `fault` fails the first, `late` the second. */
  function WatchdogStep(t: Tables, m: Memory, w: Watch, fault: bool, late: bool): (Tables, Memory, Outcome) {
    var next := Watched(m, w);
    if !Acts(w) then (t, next, Committed)
    else
      var committed := WatchdogCommit(t, m, w);
      if fault || committed.None? then (t, next, Failed)
      else if late then (committed.value, next, Failed)
      else (committed.value.(source := next.source), next, Committed)
  }

  /** Memory rebuilt from the journal alone. */
  function Restored(t: Tables, horizon: nat): Memory {
    Memory(horizon, PendingOf(t, horizon), NextCommandSequence(t.commands), NextEvaluationSequence(t.evaluations), t.source, None)
  }

  /** A start rebuilds memory and journals a cancel for every open order it finds. */
  function StartStep(t: Tables, horizon: nat, ts: nat, orders: seq<Order>, fault: bool): (Tables, Memory, Outcome) {
    var m := Restored(t, horizon);
    var next := m.(commandSequence := m.commandSequence + |orders|);
    var committed := CommitCycle(t, [], Number(orders, m.commandSequence, ts));
    if fault || committed.None? then (t, next, Failed) else (committed.value, next, Committed)
  }

  // ----- runs -----

  /** `accepted` lists the source positions of the committed cycles. */
  datatype World = World(t: Tables, engine: Option<Memory>, accepted: seq<Option<nat>>)

  /** `survives` says that the process goes on using the engine after a failed commit. */
  datatype Op =
    | Start(horizon: nat, ts: nat, orders: seq<Order>, fault: bool)
    | Market(input: Input, fault: bool, survives: bool)
    | Watchdog(watch: Watch, fault: bool, late: bool, survives: bool)
    | Crash

  function Step(w: World, op: Op): World {
    match op
    case Start(horizon, ts, orders, fault) =>
      var (t, m, outcome) := StartStep(w.t, horizon, ts, orders, fault);
      World(t, if outcome == Committed then Some(m) else None, w.accepted)
    case Market(input, fault, survives) =>
      if w.engine.None? then w
      else
        var (t, m, outcome) := MarketStep(w.t, w.engine.value, input, fault);
        World(t, if outcome == Failed && !survives then None else Some(m),
              if outcome == Committed then w.accepted + [input.source] else w.accepted)
    case Watchdog(watch, fault, late, survives) =>
      if w.engine.None? then w
      else
        var (t, m, outcome) := WatchdogStep(w.t, w.engine.value, watch, fault, late);
        World(t, if outcome == Failed && !survives then None else Some(m), w.accepted)
    case Crash => w.(engine := None)
  }

  function Run(w: World, ops: seq<Op>): World
    decreases |ops|
  {
    if ops == [] then w else Run(Step(w, ops[0]), ops[1..])
  }

  const FRESH := World(EMPTY, None, [])

  predicate FailsStop(op: Op) {
    (op.Market? ==> !op.survives) && (op.Watchdog? ==> !op.survives)
  }

  /** A failed commit always ends the process. */
  ghost predicate FailStop(ops: seq<Op>) { forall op | op in ops :: FailsStop(op) }

  // ----- the invariant -----

  ghost predicate Numbered(t: Tables) {
    && (forall i | 0 <= i < |t.commands| :: t.commands[i].sequence == i)
    && (forall i | 0 <= i < |t.evaluations| :: t.evaluations[i].sequence == i)
  }

  /** Every markout belongs to a fill and was taken no earlier than its horizon. */
  ghost predicate MarkedOnTime(t: Tables) {
    forall key | key in t.markouts :: key.0 in t.fills && t.fills[key.0].ts + key.1 <= t.markouts[key].observedTs
  }

  ghost predicate FillsKeyed(t: Tables) { forall id | id in t.fills :: t.fills[id].id == id }

  ghost predicate Synced(t: Tables, m: Memory) {
    && m.pending == PendingOf(t, m.horizon)
    && m.commandSequence == |t.commands|
    && m.evaluationSequence == |t.evaluations|
    && m.source == t.source
  }

  ghost predicate Sound(t: Tables) { Numbered(t) && MarkedOnTime(t) && FillsKeyed(t) }

  ghost predicate SoundWorld(w: World) {
    Sound(w.t) && (w.engine.Some? ==> Synced(w.t, w.engine.value))
  }

  // ----- fills and markouts -----

  /** A successful insert adds exactly the new fills, none of which was there. */
  lemma {:induction false} InsertAdds(fills: map<string, Fill>, news: seq<Fill>)
    requires InsertFills(fills, news).Some?
    ensures InsertFills(fills, news).value == AddFills(fills, news)
    ensures forall id | id in fills :: id in AddFills(fills, news) && AddFills(fills, news)[id] == fills[id]
    ensures forall i | 0 <= i < |news| :: news[i].id !in fills && news[i].id in AddFills(fills, news)
    ensures (forall id | id in fills :: fills[id].id == id) ==>
              forall id | id in AddFills(fills, news) :: AddFills(fills, news)[id].id == id
  {
    if news != [] {
      InsertAdds(fills, news[..|news| - 1]);
    }
  }

  lemma {:induction false} AddedAre(pending: map<string, Fill>, news: seq<Fill>, id: string)
    ensures id in AddFills(pending, news) <==> id in pending || exists i :: 0 <= i < |news| && news[i].id == id
    ensures id in AddFills(pending, news) && id !in pending ==>
              forall other :: id in AddFills(other, news) && AddFills(other, news)[id] == AddFills(pending, news)[id]
    ensures (forall i | 0 <= i < |news| :: news[i].id != id) && id in pending ==> AddFills(pending, news)[id] == pending[id]
  {
    if news != [] {
      var init, last := news[..|news| - 1], news[|news| - 1];
      AddedAre(pending, init, id);
      if id in AddFills(pending, news) {
        if id in AddFills(pending, init) && id !in pending {
          var i :| 0 <= i < |init| && init[i].id == id;
          assert news[i].id == id;
        } else if last.id == id {
          assert news[|news| - 1].id == id;
        }
      }
      if exists i :: 0 <= i < |news| && news[i].id == id {
        var i :| 0 <= i < |news| && news[i].id == id;
        assert i < |init| ==> init[i].id == id;
      }
    }
  }

  /** New durable fills join the pending ones, whatever the horizon. */
  lemma {:induction false} PendingGrows(t: Tables, news: seq<Fill>, horizon: nat)
    requires Sound(t) && InsertFills(t.fills, news).Some?
    ensures PendingOf(t.(fills := InsertFills(t.fills, news).value), horizon) == AddFills(PendingOf(t, horizon), news)
  {
    InsertAdds(t.fills, news);
    var grown := AddFills(t.fills, news);
    var pending := AddFills(PendingOf(t, horizon), news);
    forall id
      ensures id in pending <==> id in grown && (id, horizon) !in t.markouts
      ensures id in pending ==> pending[id] == grown[id]
    {
      AddedAre(t.fills, news, id);
      AddedAre(PendingOf(t, horizon), news, id);
      if exists i :: 0 <= i < |news| && news[i].id == id {
        var i :| 0 <= i < |news| && news[i].id == id;
        assert id !in t.fills;
        assert (id, horizon) in t.markouts ==> (id, horizon).0 in t.fills;
      }
    }
    assert PendingOf(t.(fills := InsertFills(t.fills, news).value), horizon) == pending;
  }

  lemma {:induction false} KeyedAre(news: map<string, Markout>, horizon: nat, key: (string, nat))
    ensures key in Keyed(news, horizon) <==> key.1 == horizon && key.0 in news
    ensures key in Keyed(news, horizon) ==> Keyed(news, horizon)[key] == news[key.0]
  {
    if key.1 == horizon && key.0 in news {
      assert key == (key.0, horizon);
    }
  }

  /** Marking out the ripe fills leaves the unripe ones pending. */
  lemma {:induction false} PendingShrinks(t: Tables, now: nat, horizon: nat, mark: real)
    ensures var pending := PendingOf(t, horizon);
            PendingOf(t.(markouts := t.markouts + Keyed(RipeMarkouts(pending, now, horizon, mark), horizon)), horizon)
            == Unripe(pending, now, horizon)
  {
    var pending := PendingOf(t, horizon);
    var ripe := RipeMarkouts(pending, now, horizon, mark);
    var next := t.(markouts := t.markouts + Keyed(ripe, horizon));
    forall id | id in t.fills
      ensures (id, horizon) in next.markouts <==> (id, horizon) in t.markouts || id in ripe
    {
      KeyedAre(ripe, horizon, (id, horizon));
    }
    assert PendingOf(next, horizon) == Unripe(pending, now, horizon);
  }

  lemma {:induction false} MarkingIsOnTime(t: Tables, now: nat, horizon: nat, mark: real)
    requires MarkedOnTime(t)
    ensures var ripe := RipeMarkouts(PendingOf(t, horizon), now, horizon, mark);
            CanMark(t.fills, t.markouts, ripe, horizon) && MarkedOnTime(t.(markouts := t.markouts + Keyed(ripe, horizon)))
  {
    var ripe := RipeMarkouts(PendingOf(t, horizon), now, horizon, mark);
    var next := t.(markouts := t.markouts + Keyed(ripe, horizon));
    forall key | key in next.markouts
      ensures key.0 in next.fills && next.fills[key.0].ts + key.1 <= next.markouts[key].observedTs
    {
      KeyedAre(ripe, horizon, key);
      assert key !in Keyed(ripe, horizon) ==> key in t.markouts;
    }
  }

  lemma {:induction false} InsertKeepsMarks(t: Tables, news: seq<Fill>)
    requires MarkedOnTime(t) && FillsKeyed(t) && InsertFills(t.fills, news).Some?
    ensures MarkedOnTime(t.(fills := InsertFills(t.fills, news).value))
    ensures FillsKeyed(t.(fills := InsertFills(t.fills, news).value))
  {
    InsertAdds(t.fills, news);
  }

  // ----- numbers -----

  lemma {:induction false} NextIsLength(commands: seq<Command>)
    requires forall i | 0 <= i < |commands| :: commands[i].sequence == i
    ensures NextCommandSequence(commands) == |commands|
  {
    if commands != [] {
      NextIsLength(commands[..|commands| - 1]);
    }
  }

  lemma {:induction false} NextEvaluationIsLength(evaluations: seq<Evaluation>)
    requires forall i | 0 <= i < |evaluations| :: evaluations[i].sequence == i
    ensures NextEvaluationSequence(evaluations) == |evaluations|
  {
    if evaluations != [] {
      NextEvaluationIsLength(evaluations[..|evaluations| - 1]);
    }
  }

  lemma {:induction false} NumberingContinues(commands: seq<Command>, orders: seq<Order>, ts: nat)
    requires forall i | 0 <= i < |commands| :: commands[i].sequence == i
    ensures var added := Number(orders, |commands|, ts);
            NewSequences(commands, added)
            && forall i | 0 <= i < |commands + added| :: (commands + added)[i].sequence == i
  {
  }

  // ----- each commit keeps memory and journal in step -----

  /** With memory in step, a plain cycle fails for one reason only: a fill id that was used before. */
  lemma {:induction false} CycleStep(t: Tables, m: Memory, fills: seq<Fill>, orders: seq<Order>, ts: nat)
    requires Sound(t) && Synced(t, m)
    ensures var committed := CommitCycle(t, fills, Number(orders, m.commandSequence, ts));
            && (committed.None? <==> InsertFills(t.fills, fills).None?)
            && (committed.Some? ==>
                  Sound(committed.value)
                  && Synced(committed.value, m.(pending := AddFills(m.pending, fills),
                                                commandSequence := m.commandSequence + |orders|)))
  {
    NumberingContinues(t.commands, orders, ts);
    if InsertFills(t.fills, fills).Some? {
      PendingGrows(t, fills, m.horizon);
      InsertKeepsMarks(t, fills);
      var next := CommitCycle(t, fills, Number(orders, m.commandSequence, ts)).value;
      assert PendingOf(next, m.horizon) == PendingOf(t.(fills := next.fills), m.horizon);
    }
  }

  lemma {:induction false} EvaluationContinues(evaluations: seq<Evaluation>, ts: nat)
    requires forall i | 0 <= i < |evaluations| :: evaluations[i].sequence == i
    ensures var e := Evaluation(|evaluations|, ts);
            NewEvaluation(evaluations, e)
            && forall i | 0 <= i < |evaluations + [e]| :: (evaluations + [e])[i].sequence == i
  {
  }

  /** With memory in step, a market cycle too fails only on a fill id that was used before, and stays in step. */
  lemma {:induction false} MarketCommitStep(t: Tables, m: Memory, input: Input)
    requires Sound(t) && Synced(t, m)
    ensures var committed := MarketCommit(t, m, input);
            && (committed.None? <==> InsertFills(t.fills, input.fills).None?)
            && (committed.Some? ==>
                  Sound(committed.value)
                  && Synced(committed.value, Computed(m, input).(evaluationSequence := m.evaluationSequence + 1)))
  {
    CycleStep(t, m, input.fills, input.orders, input.ts);
    EvaluationContinues(t.evaluations, input.ts);
    if InsertFills(t.fills, input.fills).Some? {
      var cycle := CommitCycle(t, input.fills, Number(input.orders, m.commandSequence, input.ts)).value;
      MarkingIsOnTime(cycle, input.ts, m.horizon, input.mark);
      PendingShrinks(cycle, input.ts, m.horizon, input.mark);
      var ripe := RipeMarkouts(PendingOf(cycle, m.horizon), input.ts, m.horizon, input.mark);
      var marked := cycle.(markouts := cycle.markouts + Keyed(ripe, m.horizon));
      var next := MarketCommit(t, m, input).value;
      assert next == marked.(evaluations := next.evaluations, source := next.source);
      assert PendingOf(next, m.horizon) == PendingOf(marked, m.horizon);
    }
  }

  /** A restart rebuilds exactly the memory that was in step with the journal. */
  lemma {:induction false} RestartRebuilds(t: Tables, m: Memory)
    requires Sound(t) && Synced(t, m)
    ensures Restored(t, m.horizon) == m.(lastObserved := None)
  {
    NextIsLength(t.commands);
    NextEvaluationIsLength(t.evaluations);
  }

  lemma {:induction false} RestoredIsSynced(t: Tables, horizon: nat)
    requires Sound(t)
    ensures Synced(t, Restored(t, horizon))
  {
    NextIsLength(t.commands);
    NextEvaluationIsLength(t.evaluations);
  }

  /** Moving the source position of a checkpoint changes nothing else. */
  lemma {:induction false} CheckpointKeeps(t: Tables, m: Memory)
    requires Sound(t) && Synced(t, m.(source := t.source))
    ensures Sound(t.(source := m.source)) && Synced(t.(source := m.source), m)
  {
    assert PendingOf(t.(source := m.source), m.horizon) == PendingOf(t, m.horizon);
  }

  /** A watchdog cycle whose commands and fills are durable leaves memory in step, checkpoint or not. */
  lemma {:induction false} WatchdogKeeps(t: Tables, m: Memory, w: Watch, fault: bool, late: bool)
    requires Sound(t) && Synced(t, m)
    ensures var (next, memory, outcome) := WatchdogStep(t, m, w, fault, late);
            Sound(next) && ((next == t && outcome == Failed) || Synced(next, memory))
  {
    CycleStep(t, m, w.fills, w.orders, w.ts);
    if Acts(w) && WatchdogCommit(t, m, w).Some? {
      CheckpointKeeps(WatchdogCommit(t, m, w).value, Watched(m, w));
    }
  }

  lemma {:induction false} StepKeeps(w: World, op: Op)
    requires SoundWorld(w) && FailsStop(op)
    ensures SoundWorld(Step(w, op))
  {
    match op
    case Start(horizon, ts, orders, fault) =>
      RestoredIsSynced(w.t, horizon);
      CycleStep(w.t, Restored(w.t, horizon), [], orders, ts);
    case Market(input, fault, survives) =>
      if w.engine.Some? {
        MarketCommitStep(w.t, w.engine.value, input);
      }
    case Watchdog(watch, fault, late, survives) =>
      if w.engine.Some? {
        WatchdogKeeps(w.t, w.engine.value, watch, fault, late);
      }
    case Crash =>
  }

  /**
   Over any run in which a failed commit ends the process: at every point the
   pending markouts in memory are the durable fills without a markout, markouts
   are never early, and command and evaluation numbers count up from zero
   without a gap, across any number of crashes and restarts.
   */
  lemma {:induction false} MemoryMatchesJournal(w: World, ops: seq<Op>)
    requires SoundWorld(w) && FailStop(ops)
    ensures SoundWorld(Run(w, ops))
    decreases |ops|
  {
    if ops != [] {
      assert ops[0] in ops;
      StepKeeps(w, ops[0]);
      MemoryMatchesJournal(Step(w, ops[0]), ops[1..]);
    }
  }

  /** The same from the empty journal on. */
  lemma {:induction false} MemoryMatchesJournalFromTheStart(ops: seq<Op>)
    requires FailStop(ops)
    ensures SoundWorld(Run(FRESH, ops))
  {
    MemoryMatchesJournal(FRESH, ops);
  }

  lemma {:induction false} MarketMarkouts(t: Tables, m: Memory, input: Input, key: (string, nat))
    requires MarketCommit(t, m, input).Some? && key in t.markouts
    ensures key in MarketCommit(t, m, input).value.markouts
    ensures MarketCommit(t, m, input).value.markouts[key] == t.markouts[key]
  {
    var ripe := RipeMarkouts(AddFills(m.pending, input.fills), input.ts, m.horizon, input.mark);
    KeyedAre(ripe, m.horizon, key);
    assert key.0 in ripe ==> (key.0, m.horizon) !in t.markouts;
  }

  lemma {:induction false} MarketTables(w: World, op: Op)
    requires op.Market? && w.engine.Some?
    ensures Step(w, op).t == w.t
            || (MarketCommit(w.t, w.engine.value, op.input).Some?
                && Step(w, op).t == MarketCommit(w.t, w.engine.value, op.input).value)
  {
  }

  /** A markout, once durable, is never replaced. */
  lemma {:induction false} MarkoutsAreFinal(w: World, op: Op, key: (string, nat))
    requires key in w.t.markouts
    ensures key in Step(w, op).t.markouts && Step(w, op).t.markouts[key] == w.t.markouts[key]
  {
    if op.Market? && w.engine.Some? {
      MarketTables(w, op);
      if Step(w, op).t != w.t {
        MarketMarkouts(w.t, w.engine.value, op.input, key);
      }
    }
  }

  // ----- the engine object -----

  class PaperTradingEngine {
    const journal: Journal
    const horizon: nat
    var pendingMarkouts: map<string, Fill>
    var commandSequence: nat
    var evaluationSequence: nat
    var source: Option<nat>
    var lastObserved: Option<nat>

    ghost function View(): Memory
      reads this
    {
      Memory(horizon, pendingMarkouts, commandSequence, evaluationSequence, source, lastObserved)
    }

    /** Rebuild what the engine needs from the journal. */
    constructor (journal: Journal, horizon: nat)
      ensures this.journal == journal && View() == Restored(journal.View(), horizon)
    {
      this.journal, this.horizon := journal, horizon;
      pendingMarkouts := map id | id in journal.fills && (id, horizon) !in journal.markouts :: journal.fills[id];
      commandSequence := NextCommandSequence(journal.commands);
      evaluationSequence := NextEvaluationSequence(journal.evaluations);
      source, lastObserved := journal.source, None;
    }

    /** Give every order its number. */
    method NumberOrders(orders: seq<Order>, ts: nat) returns (commands: seq<Command>)
      modifies this`commandSequence
      ensures commands == Number(orders, old(commandSequence), ts)
      ensures commandSequence == old(commandSequence) + |orders|
    {
      commands := [];
      for i := 0 to |orders|
        invariant commands == Number(orders[..i], old(commandSequence), ts)
        invariant commandSequence == old(commandSequence) + i
      {
        commands := commands + [Command(commandSequence, ts, orders[i])];
        commandSequence := commandSequence + 1;
      }
      assert orders[..|orders|] == orders;
    }

    method AddPending(fills: seq<Fill>)
      modifies this`pendingMarkouts
      ensures pendingMarkouts == AddFills(old(pendingMarkouts), fills)
    {
      for i := 0 to |fills|
        invariant pendingMarkouts == AddFills(old(pendingMarkouts), fills[..i])
      {
        assert fills[..i + 1][..i] == fills[..i];
        pendingMarkouts := pendingMarkouts[fills[i].id := fills[i]];
      }
      assert fills[..|fills|] == fills;
    }

    /** Mark out every pending fill whose horizon has passed and forget it. */
    method ResolveMarkouts(mark: real, now: nat) returns (resolved: map<string, Markout>)
      modifies this`pendingMarkouts
      ensures resolved == RipeMarkouts(old(pendingMarkouts), now, horizon, mark)
      ensures pendingMarkouts == Unripe(old(pendingMarkouts), now, horizon)
    {
      resolved := map[];
      var remaining := pendingMarkouts.Keys;
      while remaining != {}
        invariant remaining <= pendingMarkouts.Keys <= old(pendingMarkouts).Keys
        invariant forall id | id in pendingMarkouts :: pendingMarkouts[id] == old(pendingMarkouts)[id]
        invariant forall id | id in old(pendingMarkouts) && id !in remaining ::
          id in pendingMarkouts <==> !Ripe(old(pendingMarkouts)[id], now, horizon)
        invariant forall id :: id in resolved <==>
          id in old(pendingMarkouts) && id !in remaining && Ripe(old(pendingMarkouts)[id], now, horizon)
        invariant forall id | id in resolved :: resolved[id] == MarkoutFor(old(pendingMarkouts)[id], now, mark)
        decreases |remaining|
      {
        var id :| id in remaining;
        remaining := remaining - {id};
        var fill := pendingMarkouts[id];
        if Ripe(fill, now, horizon) {
          resolved := resolved[id := MarkoutFor(fill, now, mark)];
          pendingMarkouts := pendingMarkouts - {id};
        }
      }
    }

    method OnMarket(input: Input, fault: bool) returns (outcome: Outcome)
      modifies this, journal
      ensures (journal.View(), View(), outcome) == MarketStep(old(journal.View()), old(View()), input, fault)
    {
      if input.source.Some? && source.Some? && input.source.value <= source.value { return Rejected; }
      if lastObserved.Some? && input.ts <= lastObserved.value { return Rejected; }
      lastObserved, source := Some(input.ts), input.source;
      AddPending(input.fills);
      var markouts := ResolveMarkouts(input.mark, input.ts);
      var commands := NumberOrders(input.orders, input.ts);
      var ok := journal.RecordEngineCycle(input.fills, commands, markouts, horizon,
                                          Evaluation(evaluationSequence, input.ts), source, fault);
      if !ok { return Failed; }
      evaluationSequence := evaluationSequence + 1;
      return Committed;
    }

    method OnWatchdog(w: Watch, fault: bool, late: bool) returns (outcome: Outcome)
      modifies this, journal
      ensures (journal.View(), View(), outcome) == WatchdogStep(old(journal.View()), old(View()), w, fault, late)
    {
      AddPending(w.fills);
      if !w.changed && w.fills == [] { return Committed; }
      var commands := NumberOrders(w.orders, w.ts);
      var ok := journal.RecordCycle(w.fills, commands, fault);
      if !ok { return Failed; }
      ok := journal.RecordCheckpoint(source, late);
      return if ok then Committed else Failed;
    }
  }
}
