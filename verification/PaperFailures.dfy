/**
 Failed commits that the process survives.  The service runs the watchdog as a
 task of its own: when a commit fails in it, the market loop goes on with the
 same engine.  This module says exactly when memory is then still in step, what
 the next cycles do, and what holds over every run all the same.
 */
module PaperFailures {
  import opened Wrappers
  import opened PaperJournal
  import opened PaperRecovery

  // ----- a lost watchdog commit -----

  /** The fills and commands of the cycle did not become durable. */
  predicate CycleLost(t: Tables, m: Memory, w: Watch, fault: bool) {
    Acts(w) && (fault || WatchdogCommit(t, m, w).None?)
  }

  predicate LastOfId(fills: seq<Fill>, i: nat)
    requires i < |fills|
  {
    forall k | i < k < |fills| :: fills[k].id != fills[i].id
  }

  /** Every fill, or the last one of its id, is pending already. */
  predicate AllPending(pending: map<string, Fill>, fills: seq<Fill>) {
    forall i: nat | i < |fills| && LastOfId(fills, i) :: fills[i].id in pending && pending[fills[i].id] == fills[i]
  }

  lemma {:induction false} LastDecides(pending: map<string, Fill>, fills: seq<Fill>, i: nat)
    requires i < |fills| && LastOfId(fills, i)
    ensures fills[i].id in AddFills(pending, fills) && AddFills(pending, fills)[fills[i].id] == fills[i]
  {
    if i < |fills| - 1 {
      var init := fills[..|fills| - 1];
      assert LastOfId(init, i);
      LastDecides(pending, init, i);
    }
  }

  lemma {:induction false} LastExists(fills: seq<Fill>, id: string, k: nat) returns (i: nat)
    requires k < |fills| && fills[k].id == id
    ensures i < |fills| && fills[i].id == id && LastOfId(fills, i)
    decreases |fills| - k
  {
    i := k;
    if !LastOfId(fills, k) {
      var j :| k < j < |fills| && fills[j].id == id;
      i := LastExists(fills, id, j);
    }
  }

  lemma {:induction false} NotDelivered(pending: map<string, Fill>, fills: seq<Fill>, id: string)
    requires forall i | 0 <= i < |fills| :: fills[i].id != id
    ensures id in AddFills(pending, fills) <==> id in pending
    ensures id in pending ==> AddFills(pending, fills)[id] == pending[id]
  {
    AddedAre(pending, fills, id);
  }

  lemma {:induction false} AddsNothingExactlyWhen(pending: map<string, Fill>, fills: seq<Fill>)
    ensures AddFills(pending, fills) == pending <==> AllPending(pending, fills)
  {
    var grown := AddFills(pending, fills);
    forall i: nat | i < |fills| && LastOfId(fills, i) ensures fills[i].id in grown && grown[fills[i].id] == fills[i] {
      LastDecides(pending, fills, i);
    }
    if AllPending(pending, fills) {
      forall id
        ensures id in grown <==> id in pending
        ensures id in pending ==> grown[id] == pending[id]
      {
        if exists k :: 0 <= k < |fills| && fills[k].id == id {
          var k :| 0 <= k < |fills| && fills[k].id == id;
          var i := LastExists(fills, id, k);
          assert fills[i].id in pending && pending[fills[i].id] == fills[i];
        } else {
          NotDelivered(pending, fills, id);
        }
      }
      assert grown == pending;
    }
  }

  /**
   After a watchdog cycle of any outcome, memory is in step with the journal if
   and only if the cycle became durable, or carried no command and only fills
   that were pending before.  A failed checkpoint alone does no harm.
   */
  lemma {:induction false} InStepExactlyWhen(t: Tables, m: Memory, w: Watch, fault: bool, late: bool)
    requires Sound(t) && Synced(t, m)
    ensures var (next, memory, outcome) := WatchdogStep(t, m, w, fault, late);
            && (CycleLost(t, m, w, fault) ==> next == t && outcome == Failed)
            && (Synced(next, memory) <==> !CycleLost(t, m, w, fault) || (w.orders == [] && AllPending(m.pending, w.fills)))
  {
    AddsNothingExactlyWhen(m.pending, w.fills);
    CycleStep(t, m, w.fills, w.orders, w.ts);
    if Acts(w) && !CycleLost(t, m, w, fault) {
      CheckpointKeeps(WatchdogCommit(t, m, w).value, Watched(m, w));
    }
  }

  // ----- the numbers of lost commands -----

  /** The next committed cycle skips exactly as many numbers as commands were lost. */
  lemma {:induction false} LostCommandsSkip(t: Tables, m: Memory, w: Watch, fault: bool, late: bool, input: Input)
    requires Sound(t) && Synced(t, m) && CycleLost(t, m, w, fault)
    requires MarketStep(t, WatchdogStep(t, m, w, fault, late).1, input, false).2 == Committed
    ensures MarketStep(t, WatchdogStep(t, m, w, fault, late).1, input, false).0.commands
            == t.commands + Number(input.orders, |t.commands| + |w.orders|, input.ts)
  {
  }

  ghost predicate SameLife(ops: seq<Op>) { forall op | op in ops :: !op.Start? && !op.Crash? }

  ghost predicate NumbersFrom(commands: seq<Command>, n: nat, base: nat) {
    forall i | n <= i < |commands| :: commands[i].sequence >= base
  }

  ghost predicate Beyond(w: World, n: nat, base: nat) {
    && n <= |w.t.commands| && NumbersFrom(w.t.commands, n, base)
    && (w.engine.Some? ==> w.engine.value.commandSequence >= base)
  }

  lemma {:induction false} StaysBeyond(w: World, op: Op, n: nat, base: nat)
    requires Beyond(w, n, base) && !op.Start?
    ensures Beyond(Step(w, op), n, base) && Step(w, op).t.commands[..n] == w.t.commands[..n]
  {
  }

  /** As long as the process lives, no command ever gets a number below the one reached. */
  lemma {:induction false} NumbersNeverReturn(w: World, ops: seq<Op>, n: nat, base: nat)
    requires Beyond(w, n, base) && SameLife(ops)
    ensures Beyond(Run(w, ops), n, base) && Run(w, ops).t.commands[..n] == w.t.commands[..n]
    decreases |ops|
  {
    if ops != [] {
      assert ops[0] in ops;
      StaysBeyond(w, ops[0], n, base);
      NumbersNeverReturn(Step(w, ops[0]), ops[1..], n, base);
    }
  }

  /** Whatever the same process does afterwards, the numbers of lost commands stay unused. */
  lemma {:induction false} LostNumbersStayUnused(
    t: Tables, m: Memory, w: Watch, fault: bool, late: bool, accepted: seq<Option<nat>>, ops: seq<Op>, i: nat)
    requires Sound(t) && Synced(t, m) && CycleLost(t, m, w, fault) && SameLife(ops)
    requires i < |Run(World(t, Some(WatchdogStep(t, m, w, fault, late).1), accepted), ops).t.commands|
    ensures var number := Run(World(t, Some(WatchdogStep(t, m, w, fault, late).1), accepted), ops).t.commands[i].sequence;
            number < |t.commands| || |t.commands| + |w.orders| <= number
  {
    var start := World(t, Some(WatchdogStep(t, m, w, fault, late).1), accepted);
    NumbersNeverReturn(start, ops, |t.commands|, |t.commands| + |w.orders|);
    var after := Run(start, ops);
    if i < |t.commands| {
      assert after.t.commands[i] == after.t.commands[..|t.commands|][i] == t.commands[i];
    }
  }

  // ----- lost fills -----

  /** The fill is pending in memory and not in the journal. */
  predicate LostFill(w: World, id: string) {
    w.engine.Some? && id in w.engine.value.pending && id !in w.t.fills
  }

  predicate Mentions(fills: seq<Fill>, id: string) { exists i :: 0 <= i < |fills| && fills[i].id == id }

  predicate Delivers(op: Op, id: string) {
    (op.Market? && Mentions(op.input.fills, id)) || (op.Watchdog? && Mentions(op.watch.fills, id))
  }

  /** A cycle of a surviving process that comes before the fill's horizon and does not deliver it again. */
  predicate Waits(op: Op, f: Fill, horizon: nat) {
    && !Delivers(op, f.id)
    && match op
       case Market(input, _, survives) => survives && !Ripe(f, input.ts, horizon)
       case Watchdog(_, _, _, survives) => survives
       case _ => false
  }

  lemma {:induction false} LostCycleLosesFills(t: Tables, m: Memory, w: Watch, fault: bool, late: bool, accepted: seq<Option<nat>>, i: nat)
    requires CycleLost(t, m, w, fault) && i < |w.fills| && w.fills[i].id !in t.fills
    ensures LostFill(World(t, Some(WatchdogStep(t, m, w, fault, late).1), accepted), w.fills[i].id)
  {
    AddedAre(m.pending, w.fills, w.fills[i].id);
  }

  lemma {:induction false} NotInserted(fills: map<string, Fill>, news: seq<Fill>, id: string)
    requires InsertFills(fills, news).Some? && !Mentions(news, id)
    ensures id in InsertFills(fills, news).value <==> id in fills
  {
    InsertAdds(fills, news);
    AddedAre(fills, news, id);
  }

  lemma {:induction false} LostFillWaits(w: World, op: Op, f: Fill)
    requires LostFill(w, f.id) && w.engine.value.pending[f.id] == f && Waits(op, f, w.engine.value.horizon)
    ensures var next := Step(w, op);
            LostFill(next, f.id) && next.engine.value.pending[f.id] == f && next.engine.value.horizon == w.engine.value.horizon
  {
    match op
    case Market(input, _, _) =>
      NotDelivered(w.engine.value.pending, input.fills, f.id);
      if InsertFills(w.t.fills, input.fills).Some? {
        NotInserted(w.t.fills, input.fills, f.id);
      }
    case Watchdog(watch, _, _, _) =>
      NotDelivered(w.engine.value.pending, watch.fills, f.id);
      if InsertFills(w.t.fills, watch.fills).Some? {
        NotInserted(w.t.fills, watch.fills, f.id);
      }
    case _ =>
  }

  /** A lost fill stays pending and never becomes durable while the process goes on. */
  lemma {:induction false} LostFillStays(w: World, ops: seq<Op>, f: Fill)
    requires LostFill(w, f.id) && w.engine.value.pending[f.id] == f
    requires forall op | op in ops :: Waits(op, f, w.engine.value.horizon)
    ensures var after := Run(w, ops);
            LostFill(after, f.id) && after.engine.value.pending[f.id] == f
            && after.engine.value.horizon == w.engine.value.horizon
    decreases |ops|
  {
    if ops != [] {
      assert ops[0] in ops;
      LostFillWaits(w, ops[0], f);
      LostFillStays(Step(w, ops[0]), ops[1..], f);
    }
  }

  lemma {:induction false} UnknownFillFailsMarket(t: Tables, m: Memory, input: Input, fault: bool, f: Fill)
    requires f.id in m.pending && m.pending[f.id] == f && f.id !in t.fills && !Mentions(input.fills, f.id)
    requires Accepts(m, input) && Ripe(f, input.ts, m.horizon)
    ensures MarketStep(t, m, input, fault).0 == t && MarketStep(t, m, input, fault).2 == Failed
  {
    NotDelivered(m.pending, input.fills, f.id);
    var ripe := RipeMarkouts(AddFills(m.pending, input.fills), input.ts, m.horizon, input.mark);
    assert f.id in ripe;
    if InsertFills(t.fills, input.fills).Some? {
      NotInserted(t.fills, input.fills, f.id);
      assert !CanMark(InsertFills(t.fills, input.fills).value, t.markouts, ripe, m.horizon);
    }
  }

  /** The first accepted market cycle past the horizon of a lost fill fails and writes nothing. */
  lemma {:induction false} FirstCyclePastTheHorizonFails(w: World, ops: seq<Op>, f: Fill, input: Input, fault: bool)
    requires LostFill(w, f.id) && w.engine.value.pending[f.id] == f
    requires forall op | op in ops :: Waits(op, f, w.engine.value.horizon)
    requires Run(w, ops).engine.Some? && Accepts(Run(w, ops).engine.value, input)
    requires !Mentions(input.fills, f.id) && Ripe(f, input.ts, w.engine.value.horizon)
    ensures var after := Run(w, ops);
            var (t, _, outcome) := MarketStep(after.t, after.engine.value, input, fault);
            outcome == Failed && t == after.t
  {
    LostFillStays(w, ops, f);
    UnknownFillFailsMarket(Run(w, ops).t, Run(w, ops).engine.value, input, fault, f);
  }

  // ----- what holds whatever the process survives -----

  ghost predicate CommandsIncrease(commands: seq<Command>) {
    forall i, k | 0 <= i < k < |commands| :: commands[i].sequence < commands[k].sequence
  }

  ghost predicate AllBelow(commands: seq<Command>, n: nat) {
    forall i | 0 <= i < |commands| :: commands[i].sequence < n
  }

  ghost predicate EvaluationsNumbered(evaluations: seq<Evaluation>) {
    forall i | 0 <= i < |evaluations| :: evaluations[i].sequence == i
  }

  /** Every fill is the one its id names. */
  ghost predicate Named(fills: map<string, Fill>, fillOf: string -> Fill) {
    forall id | id in fills :: fills[id].id == id && fills[id] == fillOf(id)
  }

  ghost predicate AllNamed(fills: seq<Fill>, fillOf: string -> Fill) {
    forall i | 0 <= i < |fills| :: fills[i] == fillOf(fills[i].id)
  }

  /** An id always names the same fill. */
  ghost predicate NamesFills(op: Op, fillOf: string -> Fill) {
    (op.Market? ==> AllNamed(op.input.fills, fillOf)) && (op.Watchdog? ==> AllNamed(op.watch.fills, fillOf))
  }

  ghost predicate TablesHold(t: Tables, fillOf: string -> Fill) {
    CommandsIncrease(t.commands) && EvaluationsNumbered(t.evaluations) && MarkedOnTime(t) && Named(t.fills, fillOf)
  }

  ghost predicate MemoryHolds(t: Tables, m: Memory, fillOf: string -> Fill) {
    AllBelow(t.commands, m.commandSequence) && m.evaluationSequence == |t.evaluations| && Named(m.pending, fillOf)
  }

  ghost predicate Holds(w: World, fillOf: string -> Fill) {
    TablesHold(w.t, fillOf) && (w.engine.Some? ==> MemoryHolds(w.t, w.engine.value, fillOf))
  }

  lemma {:induction false} AddKeepsNames(fills: map<string, Fill>, news: seq<Fill>, fillOf: string -> Fill)
    requires Named(fills, fillOf) && AllNamed(news, fillOf)
    ensures Named(AddFills(fills, news), fillOf)
  {
    if news != [] {
      var init := news[..|news| - 1];
      assert AllNamed(init, fillOf);
      AddKeepsNames(fills, init, fillOf);
    }
  }

  lemma {:induction false} NumbersIncrease(commands: seq<Command>, orders: seq<Order>, base: nat, ts: nat)
    requires CommandsIncrease(commands) && AllBelow(commands, base)
    ensures CommandsIncrease(commands + Number(orders, base, ts))
    ensures AllBelow(commands + Number(orders, base, ts), base + |orders|)
  {
  }

  lemma {:induction false} CycleHolds(t: Tables, m: Memory, fills: seq<Fill>, orders: seq<Order>, ts: nat, fillOf: string -> Fill)
    requires TablesHold(t, fillOf) && MemoryHolds(t, m, fillOf) && AllNamed(fills, fillOf)
    requires CommitCycle(t, fills, Number(orders, m.commandSequence, ts)).Some?
    ensures var next := CommitCycle(t, fills, Number(orders, m.commandSequence, ts)).value;
            && TablesHold(next, fillOf) && AllBelow(next.commands, m.commandSequence + |orders|)
            && next.evaluations == t.evaluations && next.markouts == t.markouts && next.source == t.source
            && next.fills == AddFills(t.fills, fills)
  {
    InsertAdds(t.fills, fills);
    AddKeepsNames(t.fills, fills, fillOf);
    NumbersIncrease(t.commands, orders, m.commandSequence, ts);
  }

  /** Marks taken from named fills are never early. */
  lemma {:induction false} NamedMarksOnTime(
    t: Tables, pending: map<string, Fill>, now: nat, horizon: nat, mark: real, fillOf: string -> Fill)
    requires MarkedOnTime(t) && Named(t.fills, fillOf) && Named(pending, fillOf)
    requires CanMark(t.fills, t.markouts, RipeMarkouts(pending, now, horizon, mark), horizon)
    ensures MarkedOnTime(t.(markouts := t.markouts + Keyed(RipeMarkouts(pending, now, horizon, mark), horizon)))
  {
    var ripe := RipeMarkouts(pending, now, horizon, mark);
    var next := t.(markouts := t.markouts + Keyed(ripe, horizon));
    forall key | key in next.markouts
      ensures key.0 in next.fills && next.fills[key.0].ts + key.1 <= next.markouts[key].observedTs
    {
      KeyedAre(ripe, horizon, key);
      assert key !in Keyed(ripe, horizon) ==> key in t.markouts;
      assert key in Keyed(ripe, horizon) ==> t.fills[key.0] == pending[key.0];
    }
  }

  lemma {:induction false} MarketHolds(t: Tables, m: Memory, input: Input, fillOf: string -> Fill)
    requires TablesHold(t, fillOf) && MemoryHolds(t, m, fillOf) && AllNamed(input.fills, fillOf)
    requires MarketCommit(t, m, input).Some?
    ensures TablesHold(MarketCommit(t, m, input).value, fillOf)
    ensures AllBelow(MarketCommit(t, m, input).value.commands, m.commandSequence + |input.orders|)
    ensures |MarketCommit(t, m, input).value.evaluations| == |t.evaluations| + 1
  {
    CycleHolds(t, m, input.fills, input.orders, input.ts, fillOf);
    AddKeepsNames(m.pending, input.fills, fillOf);
    EvaluationContinues(t.evaluations, input.ts);
    var cycle := CommitCycle(t, input.fills, Number(input.orders, m.commandSequence, input.ts)).value;
    var pending := AddFills(m.pending, input.fills);
    NamedMarksOnTime(cycle, pending, input.ts, m.horizon, input.mark, fillOf);
    var marked := cycle.(markouts := cycle.markouts + Keyed(RipeMarkouts(pending, input.ts, m.horizon, input.mark), m.horizon));
    var next := MarketCommit(t, m, input).value;
    assert next == marked.(evaluations := next.evaluations, source := next.source);
  }

  lemma {:induction false} NextIsBeyond(commands: seq<Command>)
    ensures AllBelow(commands, NextCommandSequence(commands))
  {
    if commands != [] {
      NextIsBeyond(commands[..|commands| - 1]);
    }
  }

  lemma {:induction false} RestoredHolds(t: Tables, horizon: nat, fillOf: string -> Fill)
    requires TablesHold(t, fillOf)
    ensures MemoryHolds(t, Restored(t, horizon), fillOf)
  {
    NextIsBeyond(t.commands);
    NextEvaluationIsLength(t.evaluations);
  }

  lemma {:induction false} UnripeNamed(pending: map<string, Fill>, now: nat, horizon: nat, fillOf: string -> Fill)
    requires Named(pending, fillOf)
    ensures Named(Unripe(pending, now, horizon), fillOf)
  {
  }

  /** A market cycle leaves journal and memory alone, or computes and then commits or not. */
  lemma {:induction false} MarketShape(t: Tables, m: Memory, input: Input, fault: bool)
    ensures var (next, memory, outcome) := MarketStep(t, m, input, fault);
            || (next == t && memory == m)
            || (next == t && memory == Computed(m, input))
            || (MarketCommit(t, m, input).Some? && next == MarketCommit(t, m, input).value
                && memory == Computed(m, input).(evaluationSequence := m.evaluationSequence + 1))
  {
  }

  lemma {:induction false} MarketStepHolds(t: Tables, m: Memory, input: Input, fault: bool, fillOf: string -> Fill)
    requires TablesHold(t, fillOf) && MemoryHolds(t, m, fillOf) && AllNamed(input.fills, fillOf)
    ensures TablesHold(MarketStep(t, m, input, fault).0, fillOf)
    ensures MemoryHolds(MarketStep(t, m, input, fault).0, MarketStep(t, m, input, fault).1, fillOf)
  {
    AddKeepsNames(m.pending, input.fills, fillOf);
    UnripeNamed(AddFills(m.pending, input.fills), input.ts, m.horizon, fillOf);
    MarketShape(t, m, input, fault);
    if MarketCommit(t, m, input).Some? {
      MarketHolds(t, m, input, fillOf);
    }
  }

  lemma {:induction false} WatchdogStepHolds(t: Tables, m: Memory, w: Watch, fault: bool, late: bool, fillOf: string -> Fill)
    requires TablesHold(t, fillOf) && MemoryHolds(t, m, fillOf) && AllNamed(w.fills, fillOf)
    ensures var (next, memory, _) := WatchdogStep(t, m, w, fault, late);
            TablesHold(next, fillOf) && MemoryHolds(next, memory, fillOf)
  {
    AddKeepsNames(m.pending, w.fills, fillOf);
    if WatchdogCommit(t, m, w).Some? {
      CycleHolds(t, m, w.fills, w.orders, w.ts, fillOf);
    }
  }

  lemma {:induction false} StepHolds(w: World, op: Op, fillOf: string -> Fill)
    requires Holds(w, fillOf) && NamesFills(op, fillOf)
    ensures Holds(Step(w, op), fillOf)
  {
    match op
    case Start(horizon, ts, orders, fault) =>
      RestoredHolds(w.t, horizon, fillOf);
      if CommitCycle(w.t, [], Number(orders, Restored(w.t, horizon).commandSequence, ts)).Some? {
        CycleHolds(w.t, Restored(w.t, horizon), [], orders, ts, fillOf);
      }
    case Market(input, fault, survives) =>
      if w.engine.Some? {
        MarketStepHolds(w.t, w.engine.value, input, fault, fillOf);
      }
    case Watchdog(watch, fault, late, survives) =>
      if w.engine.Some? {
        WatchdogStepHolds(w.t, w.engine.value, watch, fault, late, fillOf);
      }
    case Crash =>
  }

  /**
   Over every run, whatever commits fail and whatever the process survives: no
   markout is early or without its fill, fills are stored under their ids,
   evaluation numbers are exactly zero to n-1, and command numbers strictly
   increase.
   */
  lemma {:induction false} JournalHoldsAnyway(w: World, ops: seq<Op>, fillOf: string -> Fill)
    requires Holds(w, fillOf) && forall op | op in ops :: NamesFills(op, fillOf)
    ensures Holds(Run(w, ops), fillOf)
    decreases |ops|
  {
    if ops != [] {
      assert ops[0] in ops;
      StepHolds(w, ops[0], fillOf);
      JournalHoldsAnyway(Step(w, ops[0]), ops[1..], fillOf);
    }
  }

  lemma {:induction false} JournalHoldsFromTheStart(ops: seq<Op>, fillOf: string -> Fill)
    requires forall op | op in ops :: NamesFills(op, fillOf)
    ensures Holds(Run(FRESH, ops), fillOf)
  {
    JournalHoldsAnyway(FRESH, ops, fillOf);
  }

  // ----- what needs no assumption about fill ids -----

  /** Every markout has its fill. */
  ghost predicate MarksHaveFills(t: Tables) { forall key | key in t.markouts :: key.0 in t.fills }

  ghost predicate TablesCount(t: Tables) {
    CommandsIncrease(t.commands) && EvaluationsNumbered(t.evaluations) && FillsKeyed(t) && MarksHaveFills(t)
  }

  ghost predicate Counts(w: World) {
    && TablesCount(w.t)
    && (w.engine.Some? ==>
          AllBelow(w.t.commands, w.engine.value.commandSequence) && w.engine.value.evaluationSequence == |w.t.evaluations|)
  }

  lemma {:induction false} CycleCounts(t: Tables, fills: seq<Fill>, orders: seq<Order>, base: nat, ts: nat)
    requires TablesCount(t) && AllBelow(t.commands, base)
    requires CommitCycle(t, fills, Number(orders, base, ts)).Some?
    ensures var next := CommitCycle(t, fills, Number(orders, base, ts)).value;
            TablesCount(next) && AllBelow(next.commands, base + |orders|) && next.evaluations == t.evaluations
  {
    InsertAdds(t.fills, fills);
    NumbersIncrease(t.commands, orders, base, ts);
  }

  lemma {:induction false} MarketCounts(t: Tables, m: Memory, input: Input)
    requires TablesCount(t) && AllBelow(t.commands, m.commandSequence) && m.evaluationSequence == |t.evaluations|
    requires MarketCommit(t, m, input).Some?
    ensures var next := MarketCommit(t, m, input).value;
            TablesCount(next) && AllBelow(next.commands, m.commandSequence + |input.orders|)
            && |next.evaluations| == |t.evaluations| + 1
  {
    CycleCounts(t, input.fills, input.orders, m.commandSequence, input.ts);
    EvaluationContinues(t.evaluations, input.ts);
    var ripe := RipeMarkouts(AddFills(m.pending, input.fills), input.ts, m.horizon, input.mark);
    var next := MarketCommit(t, m, input).value;
    forall key | key in next.markouts ensures key.0 in next.fills {
      KeyedAre(ripe, m.horizon, key);
    }
  }

  lemma {:induction false} StepCounts(w: World, op: Op)
    requires Counts(w)
    ensures Counts(Step(w, op))
  {
    match op
    case Start(horizon, ts, orders, fault) =>
      NextIsBeyond(w.t.commands);
      NextEvaluationIsLength(w.t.evaluations);
      if CommitCycle(w.t, [], Number(orders, NextCommandSequence(w.t.commands), ts)).Some? {
        CycleCounts(w.t, [], orders, NextCommandSequence(w.t.commands), ts);
      }
    case Market(input, fault, survives) =>
      if w.engine.Some? {
        MarketShape(w.t, w.engine.value, input, fault);
        if MarketCommit(w.t, w.engine.value, input).Some? {
          MarketCounts(w.t, w.engine.value, input);
        }
      }
    case Watchdog(watch, fault, late, survives) =>
      if w.engine.Some? && WatchdogCommit(w.t, w.engine.value, watch).Some? {
        CycleCounts(w.t, watch.fills, watch.orders, w.engine.value.commandSequence, watch.ts);
      }
    case Crash =>
  }

  /**
   Over every run, with no assumption at all: evaluation numbers are exactly
   zero to n-1, command numbers strictly increase, fills are stored under their
   ids and every markout has its fill.
   */
  lemma {:induction false} NumbersHoldAnyway(w: World, ops: seq<Op>)
    requires Counts(w)
    ensures Counts(Run(w, ops))
    decreases |ops|
  {
    if ops != [] {
      StepCounts(w, ops[0]);
      NumbersHoldAnyway(Step(w, ops[0]), ops[1..]);
    }
  }

  lemma {:induction false} NumbersHoldFromTheStart(ops: seq<Op>)
    ensures Counts(Run(FRESH, ops))
  {
    NumbersHoldAnyway(FRESH, ops);
  }

  /** Why the times of markouts need ids that name fills: a reused id in a lost cycle marks a durable fill early. */
  lemma {:induction false} ReusedIdMarksEarly(durable: Fill, lost: Fill)
    requires durable.id == lost.id && lost.ts < durable.ts
    ensures var w := World(EMPTY.(fills := map[durable.id := durable]),
                           Some(Memory(0, map[durable.id := durable], 0, 0, None, None)), []);
            var ops := [Watchdog(Watch(0, false, [lost], []), true, false, true),
                        Market(Input(lost.ts, Some(0), [], 1.0, []), false, true)];
            SoundWorld(w) && !MarkedOnTime(Run(w, ops).t)
  {
    var id := durable.id;
    var t := EMPTY.(fills := map[id := durable]);
    var m := Memory(0, map[id := durable], 0, 0, None, None);
    var w := World(t, Some(m), []);
    assert PendingOf(t, 0) == map[id := durable];
    var a := Watchdog(Watch(0, false, [lost], []), true, false, true);
    var b := Market(Input(lost.ts, Some(0), [], 1.0, []), false, true);
    assert [lost][..0] == [];
    assert AddFills(m.pending, [lost]) == map[id := lost];
    var w1 := Step(w, a);
    assert w1 == World(t, Some(Memory(0, map[id := lost], 0, 0, None, None)), []);
    LostMarksEarly(t, w1.engine.value, b.input, durable, lost);
    var w2 := Step(w1, b);
    assert [a, b][1..] == [b] && [b][1..] == [];
    assert Run(w2, []) == w2 && Run(w1, [b]) == w2;
  }

  lemma {:induction false} LostMarksEarly(t: Tables, m: Memory, input: Input, durable: Fill, lost: Fill)
    requires durable.id == lost.id && lost.ts < durable.ts && t == EMPTY.(fills := map[durable.id := durable])
    requires m == Memory(0, map[lost.id := lost], 0, 0, None, None) && input == Input(lost.ts, Some(0), [], 1.0, [])
    ensures MarketStep(t, m, input, false).2 == Committed && !MarkedOnTime(MarketStep(t, m, input, false).0)
  {
    var ripe := RipeMarkouts(AddFills(m.pending, []), input.ts, 0, 1.0);
    assert Ripe(lost, input.ts, 0) && lost.id in ripe;
    assert InsertFills(t.fills, []) == Some(t.fills);
    assert ripe.Keys == {lost.id};
    var key := (lost.id, 0);
    KeyedAre(ripe, 0, key);
    var next := MarketCommit(t, m, input).value;
    assert key in next.markouts && next.markouts[key].observedTs == lost.ts;
    assert next.fills[key.0] == durable;
  }

  // ----- each source position is committed at most once -----

  predicate NotBefore(a: Option<nat>, b: Option<nat>) { a.Some? ==> b.Some? && a.value <= b.value }

  function LastAccepted(w: World): Option<nat> {
    if w.accepted == [] then None else w.accepted[|w.accepted| - 1]
  }

  /** Committed positions strictly increase, and neither the checkpoint nor memory is behind them. */
  ghost predicate SourcesIncrease(w: World) {
    && (forall i | 0 <= i < |w.accepted| :: w.accepted[i].Some?)
    && (forall i, k | 0 <= i < k < |w.accepted| :: w.accepted[i].value < w.accepted[k].value)
    && NotBefore(LastAccepted(w), w.t.source)
    && (w.engine.Some? ==> NotBefore(w.t.source, w.engine.value.source))
  }

  ghost predicate HasSource(op: Op) { op.Market? ==> op.input.source.Some? }

  lemma {:induction false} AcceptedGrows(w: World, source: nat, next: World)
    requires SourcesIncrease(w) && next.accepted == w.accepted + [Some(source)] && next.t.source == Some(source)
    requires w.t.source.Some? ==> w.t.source.value < source
    requires next.engine.Some? ==> next.engine.value.source == Some(source)
    ensures SourcesIncrease(next)
  {
  }

  /** A market cycle commits its own later position, or leaves the checkpoint where it was. */
  lemma {:induction false} MarketSource(t: Tables, m: Memory, input: Input, fault: bool)
    requires input.source.Some? && NotBefore(t.source, m.source)
    ensures var (next, memory, outcome) := MarketStep(t, m, input, fault);
            && NotBefore(t.source, memory.source)
            && (outcome != Committed ==> next.source == t.source)
            && (outcome == Committed ==>
                  next.source == input.source == memory.source && (t.source.Some? ==> t.source.value < input.source.value))
  {
  }

  lemma {:induction false} SourceStep(w: World, op: Op)
    requires SourcesIncrease(w) && HasSource(op)
    ensures SourcesIncrease(Step(w, op))
  {
    match op
    case Market(input, fault, survives) =>
      if w.engine.Some? {
        MarketSource(w.t, w.engine.value, input, fault);
        if MarketStep(w.t, w.engine.value, input, fault).2 == Committed {
          AcceptedGrows(w, input.source.value, Step(w, op));
        }
      }
    case _ =>
  }

  /** When every market state carries its source position, no position is ever committed twice, whatever fails. */
  lemma {:induction false} SourcesCommitOnce(w: World, ops: seq<Op>)
    requires SourcesIncrease(w) && forall op | op in ops :: HasSource(op)
    ensures SourcesIncrease(Run(w, ops))
    decreases |ops|
  {
    if ops != [] {
      assert ops[0] in ops;
      SourceStep(w, ops[0]);
      SourcesCommitOnce(Step(w, ops[0]), ops[1..]);
    }
  }

  lemma {:induction false} SourcesCommitOnceFromTheStart(ops: seq<Op>)
    requires forall op | op in ops :: HasSource(op)
    ensures SourcesIncrease(Run(FRESH, ops))
  {
    SourcesCommitOnce(FRESH, ops);
  }

  // ----- a concrete run -----

  /** One lost watchdog commit, then a market cycle: number zero is never used. */
  lemma {:induction false} SurvivingEngineLeavesAGap(order: Order)
    ensures var ops := [Start(1, 1, [], false),
                        Watchdog(Watch(2, true, [], [order]), true, false, true),
                        Market(Input(3, Some(0), [], 1.0, [order]), false, true)];
            Run(FRESH, ops).t.commands == [Command(1, 3, order)]
  {
    var a := Start(1, 1, [], false);
    var b := Watchdog(Watch(2, true, [], [order]), true, false, true);
    var d := Market(Input(3, Some(0), [], 1.0, [order]), false, true);
    var w1 := Step(FRESH, a);
    assert w1 == World(EMPTY, Some(Memory(1, map[], 0, 0, None, None)), []);
    var w2 := Step(w1, b);
    assert CycleLost(EMPTY, w1.engine.value, b.watch, true);
    InStepExactlyWhen(EMPTY, w1.engine.value, b.watch, true, false);
    var m := w2.engine.value;
    assert m == Memory(1, map[], 1, 0, None, None);
    MarketFromNothing(order);
    LostCommandsSkip(EMPTY, w1.engine.value, b.watch, true, false, d.input);
    assert Number([order], 1, 3) == [Command(1, 3, order)];
    var w3 := Step(w2, d);
    assert [a, b, d][1..] == [b, d] && [b, d][1..] == [d] && [d][1..] == [];
    assert Run(w3, []) == w3 && Run(w2, [d]) == w3 && Run(w1, [b, d]) == w3;
  }

  lemma {:induction false} MarketFromNothing(order: Order)
    ensures MarketStep(EMPTY, Memory(1, map[], 1, 0, None, None), Input(3, Some(0), [], 1.0, [order]), false).2 == Committed
  {
    var input := Input(3, Some(0), [], 1.0, [order]);
    assert InsertFills(EMPTY.fills, []) == Some(map[]);
    assert RipeMarkouts(map[], 3, 1, 1.0) == map[];
  }
}
