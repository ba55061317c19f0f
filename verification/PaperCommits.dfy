/**
 What each committed cycle of the paper engine leaves in the journal, told from
 the fills, orders and marks of the cycle, and exactly when a cycle is refused.
 */
module PaperCommits {
  import opened Wrappers
  import opened PaperJournal
  import opened PaperRecovery

  // ----- fills -----

  ghost predicate NewIds(fills: map<string, Fill>, news: seq<Fill>) {
    && (forall i | 0 <= i < |news| :: news[i].id !in fills)
    && (forall i, k | 0 <= i < k < |news| :: news[i].id != news[k].id)
  }

  /** `after` holds the stored fills and the new ones, each under its id. */
  ghost predicate Added(fills: map<string, Fill>, news: seq<Fill>, after: map<string, Fill>) {
    && (forall id | id in fills :: id in after && after[id] == fills[id])
    && (forall i | 0 <= i < |news| :: news[i].id in after && after[news[i].id] == news[i])
    && (forall id | id in after && id !in fills :: exists i :: 0 <= i < |news| && news[i].id == id)
  }

  lemma {:induction false} NewIdsSnoc(fills: map<string, Fill>, news: seq<Fill>, f: Fill)
    ensures NewIds(fills, news + [f])
            <==> NewIds(fills, news) && f.id !in fills && forall i | 0 <= i < |news| :: news[i].id != f.id
  {
    var all := news + [f];
    assert forall i | 0 <= i < |news| :: all[i] == news[i];
    assert all[|news|] == f;
  }

  lemma {:induction false} AddedSnoc(fills: map<string, Fill>, news: seq<Fill>, after: map<string, Fill>, f: Fill)
    requires Added(fills, news, after) && f.id !in after
    ensures Added(fills, news + [f], after[f.id := f])
  {
    var all := news + [f];
    assert all[|news|] == f;
    forall id | id in after[f.id := f] && id !in fills ensures exists i :: 0 <= i < |all| && all[i].id == id {
      if id != f.id {
        var i :| 0 <= i < |news| && news[i].id == id;
        assert all[i].id == id;
      }
    }
  }

  /** Fills are inserted exactly when their ids are new and all different. */
  lemma {:induction false} InsertsExactlyWhen(fills: map<string, Fill>, news: seq<Fill>)
    ensures InsertFills(fills, news).Some? <==> NewIds(fills, news)
    ensures InsertFills(fills, news).Some? ==> Added(fills, news, InsertFills(fills, news).value)
  {
    if news != [] {
      var init, f := news[..|news| - 1], news[|news| - 1];
      InsertsExactlyWhen(fills, init);
      assert news == init + [f];
      NewIdsSnoc(fills, init, f);
      if InsertFills(fills, init).Some? {
        var before := InsertFills(fills, init).value;
        assert f.id in before <==> f.id in fills || exists i :: 0 <= i < |init| && init[i].id == f.id;
        if f.id !in before {
          AddedSnoc(fills, init, before, f);
        }
      }
    }
  }

  // ----- commands -----

  /** The orders of the cycle, numbered on from the stored commands. */
  ghost predicate Numbers(commands: seq<Command>, orders: seq<Order>, ts: nat, after: seq<Command>) {
    && |after| == |commands| + |orders| && commands <= after
    && forall i | |commands| <= i < |after| ::
         after[i].sequence == i && after[i].ts == ts && after[i].order == orders[i - |commands|]
  }

  lemma {:induction false} NumbersAre(commands: seq<Command>, orders: seq<Order>, ts: nat)
    ensures Numbers(commands, orders, ts, commands + Number(orders, |commands|, ts))
  {
  }

  /** A plain cycle with memory in step commits exactly when its fill ids are new, and adds its fills and commands. */
  lemma {:induction false} CycleCommitsExactlyWhen(t: Tables, m: Memory, fills: seq<Fill>, orders: seq<Order>, ts: nat)
    requires Sound(t) && Synced(t, m)
    ensures var committed := CommitCycle(t, fills, Number(orders, m.commandSequence, ts));
            && (committed.Some? <==> NewIds(t.fills, fills))
            && (committed.Some? ==>
                  && Added(t.fills, fills, committed.value.fills)
                  && Numbers(t.commands, orders, ts, committed.value.commands)
                  && committed.value.markouts == t.markouts && committed.value.evaluations == t.evaluations
                  && committed.value.source == t.source)
  {
    CycleStep(t, m, fills, orders, ts);
    InsertsExactlyWhen(t.fills, fills);
    NumbersAre(t.commands, orders, ts);
  }

  // ----- what the transactions demand, whatever they are given -----

  /** No two commands, and no two evaluations, share a number. */
  ghost predicate DistinctCommands(commands: seq<Command>) {
    forall i, k | 0 <= i < k < |commands| :: commands[i].sequence != commands[k].sequence
  }

  ghost predicate DistinctEvaluations(evaluations: seq<Evaluation>) {
    forall i, k | 0 <= i < k < |evaluations| :: evaluations[i].sequence != evaluations[k].sequence
  }

  lemma {:induction false} NumbersAreNew(commands: seq<Command>, news: seq<Command>)
    requires DistinctCommands(commands)
    ensures NewSequences(commands, news) <==> DistinctCommands(commands + news)
  {
    var all := commands + news;
    assert forall i | 0 <= i < |commands| :: all[i] == commands[i];
    assert forall k | 0 <= k < |news| :: all[|commands| + k] == news[k];
    if DistinctCommands(all) {
      forall i, k | 0 <= i < |commands| && 0 <= k < |news| ensures commands[i].sequence != news[k].sequence {
        assert all[i].sequence != all[|commands| + k].sequence;
      }
      forall i, k | 0 <= i < k < |news| ensures news[i].sequence != news[k].sequence {
        assert all[|commands| + i].sequence != all[|commands| + k].sequence;
      }
    }
  }

  lemma {:induction false} EvaluationIsNew(evaluations: seq<Evaluation>, e: Evaluation)
    requires DistinctEvaluations(evaluations)
    ensures NewEvaluation(evaluations, e) <==> DistinctEvaluations(evaluations + [e])
  {
    var all := evaluations + [e];
    assert forall i | 0 <= i < |evaluations| :: all[i] == evaluations[i];
    assert all[|evaluations|] == e;
    if DistinctEvaluations(all) {
      forall i | 0 <= i < |evaluations| ensures evaluations[i].sequence != e.sequence {
        assert all[i].sequence != all[|evaluations|].sequence;
      }
    }
  }

  ghost predicate StoredOrNew(fills: map<string, Fill>, news: seq<Fill>, id: string) {
    id in fills || exists i :: 0 <= i < |news| && news[i].id == id
  }

  lemma {:induction false} AddedIds(fills: map<string, Fill>, news: seq<Fill>, after: map<string, Fill>, id: string)
    requires Added(fills, news, after)
    ensures id in after <==> StoredOrNew(fills, news, id)
  {
  }

  /** A markout may be stored: its fill is stored or new, and it has no markout at this horizon. */
  ghost predicate Markable(t: Tables, fills: seq<Fill>, id: string, horizon: nat) {
    StoredOrNew(t.fills, fills, id) && (id, horizon) !in t.markouts
  }

  lemma {:induction false} MarksExactlyWhen(
    t: Tables, fills: seq<Fill>, after: map<string, Fill>, markouts: map<string, Markout>, horizon: nat)
    requires Added(t.fills, fills, after)
    ensures CanMark(after, t.markouts, markouts, horizon) <==> forall id | id in markouts :: Markable(t, fills, id, horizon)
  {
    forall id | id in markouts
      ensures id in after && (id, horizon) !in t.markouts <==> Markable(t, fills, id, horizon)
    {
      AddedIds(t.fills, fills, after, id);
    }
  }

  /**
   Even with memory out of step: a market transaction over a journal with
   distinct numbers commits exactly when its fill ids are new, the numbers stay
   distinct, and every markout may be stored.
   */
  lemma {:induction false} CommitsExactlyWhen(
    t: Tables, fills: seq<Fill>, commands: seq<Command>, markouts: map<string, Markout>, horizon: nat,
    evaluation: Evaluation, source: Option<nat>)
    requires DistinctCommands(t.commands) && DistinctEvaluations(t.evaluations)
    ensures CommitEngineCycle(t, fills, commands, markouts, horizon, evaluation, source).Some?
       <==> && NewIds(t.fills, fills)
            && DistinctCommands(t.commands + commands)
            && DistinctEvaluations(t.evaluations + [evaluation])
            && forall id | id in markouts :: Markable(t, fills, id, horizon)
  {
    InsertsExactlyWhen(t.fills, fills);
    NumbersAreNew(t.commands, commands);
    EvaluationIsNew(t.evaluations, evaluation);
    if NewIds(t.fills, fills) {
      MarksExactlyWhen(t, fills, InsertFills(t.fills, fills).value, markouts, horizon);
    }
  }

  // ----- markouts -----

  /** The markout of a fill: the move of the mark in the fill's direction, in ten-thousandths of its price. */
  ghost predicate Marks(f: Fill, ts: nat, mark: real, x: Markout) {
    var gain := if f.buy then mark - f.price else f.price - mark;
    x.observedTs == ts && x.mark == mark && x.bps * f.price == 10_000.0 * gain
  }

  lemma {:induction false} MarkoutIs(f: Fill, ts: nat, mark: real)
    ensures Marks(f, ts, mark, MarkoutFor(f, ts, mark))
  {
    var gain := if f.buy then mark - f.price else f.price - mark;
    var move: real := (if f.buy then 1.0 else -1.0) * (mark - f.price);
    assert move == gain;
    var q := move / f.price;
    assert q * f.price == move;
    assert q * 10_000.0 * f.price == 10_000.0 * (q * f.price);
  }

  /** A markout is a gain exactly when the mark moved in the fill's direction. */
  lemma {:induction false} MarkoutSign(f: Fill, ts: nat, mark: real, x: Markout)
    requires Marks(f, ts, mark, x)
    ensures x.bps > 0.0 <==> if f.buy then mark > f.price else mark < f.price
  {
    var price: real := f.price;
    if x.bps > 0.0 {
      assert x.bps * price > 0.0;
    } else {
      assert x.bps * price <= 0.0;
    }
  }

  /** Durable, not marked out for this horizon before, and at least a horizon old. */
  ghost predicate DueNow(t: Tables, fills: map<string, Fill>, key: (string, nat), horizon: nat, now: nat) {
    key.1 == horizon && key !in t.markouts && key.0 in fills && fills[key.0].ts + horizon <= now
  }

  ghost predicate MarkoutsAdded(t: Tables, next: Tables, horizon: nat, now: nat, mark: real) {
    && (forall key | key in t.markouts :: key in next.markouts && next.markouts[key] == t.markouts[key])
    && (forall key :: key in next.markouts && key !in t.markouts <==> DueNow(t, next.fills, key, horizon, now))
    && (forall key | key in next.markouts && key !in t.markouts ::
          key.0 in next.fills && Marks(next.fills[key.0], now, mark, next.markouts[key]))
  }

  lemma {:induction false} PendingAfterInsert(t: Tables, m: Memory, input: Input)
    requires Sound(t) && Synced(t, m) && MarketCommit(t, m, input).Some?
    ensures AddFills(m.pending, input.fills)
            == PendingOf(t.(fills := MarketCommit(t, m, input).value.fills), m.horizon)
  {
    PendingGrows(t, input.fills, m.horizon);
  }

  lemma {:induction false} MarkoutsAre(t: Tables, m: Memory, input: Input)
    requires Sound(t) && Synced(t, m) && MarketCommit(t, m, input).Some?
    ensures MarkoutsAdded(t, MarketCommit(t, m, input).value, m.horizon, input.ts, input.mark)
  {
    var next := MarketCommit(t, m, input).value;
    var pending := AddFills(m.pending, input.fills);
    var ripe := RipeMarkouts(pending, input.ts, m.horizon, input.mark);
    PendingAfterInsert(t, m, input);
    assert next.markouts == t.markouts + Keyed(ripe, m.horizon);
    forall key
      ensures key in next.markouts && key !in t.markouts <==> DueNow(t, next.fills, key, m.horizon, input.ts)
      ensures key in t.markouts ==> key in next.markouts && next.markouts[key] == t.markouts[key]
      ensures key in next.markouts && key !in t.markouts ==>
                key.0 in next.fills && Marks(next.fills[key.0], input.ts, input.mark, next.markouts[key])
    {
      KeyedAre(ripe, m.horizon, key);
      if key in t.markouts {
        MarketMarkouts(t, m, input, key);
      } else if key.1 == m.horizon && key.0 in ripe {
        MarkoutIs(pending[key.0], input.ts, input.mark);
      }
    }
  }

  // ----- the market cycle -----

  /** Everything a committed market cycle leaves. */
  ghost predicate MarketLeaves(t: Tables, next: Tables, m: Memory, input: Input) {
    && Added(t.fills, input.fills, next.fills)
    && Numbers(t.commands, input.orders, input.ts, next.commands)
    && next.evaluations == t.evaluations + [Evaluation(|t.evaluations|, input.ts)]
    && next.source == input.source
    && MarkoutsAdded(t, next, m.horizon, input.ts, input.mark)
  }

  lemma {:induction false} CommitLeaves(t: Tables, m: Memory, input: Input)
    requires Sound(t) && Synced(t, m) && MarketCommit(t, m, input).Some?
    ensures MarketLeaves(t, MarketCommit(t, m, input).value, m, input)
  {
    InsertsExactlyWhen(t.fills, input.fills);
    NumbersAre(t.commands, input.orders, input.ts);
    MarkoutsAre(t, m, input);
  }

  /** The input moves on from what the engine has seen. */
  ghost predicate Advances(m: Memory, input: Input) {
    && (input.source.None? || m.source.None? || m.source.value < input.source.value)
    && (m.lastObserved.None? || m.lastObserved.value < input.ts)
  }

  /**
   With memory in step, a market cycle is refused exactly when its input does
   not advance, and fails exactly on a storage fault or a fill id that is not
   new; neither touches the journal.
   */
  lemma {:induction false} MarketExactly(t: Tables, m: Memory, input: Input, fault: bool)
    requires Sound(t) && Synced(t, m)
    ensures var (next, memory, outcome) := MarketStep(t, m, input, fault);
            && (outcome == Rejected <==> !Advances(m, input))
            && (outcome == Rejected ==> memory == m)
            && (outcome == Failed <==> Advances(m, input) && (fault || !NewIds(t.fills, input.fills)))
            && (outcome != Committed ==> next == t)
            && (outcome != Rejected ==> memory.lastObserved == Some(input.ts) && memory.source == input.source)
  {
    MarketCommitStep(t, m, input);
    InsertsExactlyWhen(t.fills, input.fills);
  }

  /**
   A committed market cycle leaves its fills, its numbered orders, its
   evaluation, its source position, and one markout for every fill that was due.
   */
  lemma {:induction false} CommittedMarketLeaves(t: Tables, m: Memory, input: Input, fault: bool)
    requires Sound(t) && Synced(t, m) && MarketStep(t, m, input, fault).2 == Committed
    ensures MarketLeaves(t, MarketStep(t, m, input, fault).0, m, input)
  {
    CommitLeaves(t, m, input);
  }

  // ----- the watchdog and the start -----

  /**
   With memory in step, a watchdog cycle with nothing to do commits nothing;
   otherwise it leaves its fills and numbered orders unless its first
   transaction fails, and the source position unless its second one does.
   */
  lemma {:induction false} WatchdogExactly(t: Tables, m: Memory, w: Watch, fault: bool, late: bool)
    requires Sound(t) && Synced(t, m)
    ensures var (next, memory, outcome) := WatchdogStep(t, m, w, fault, late);
            var idle := !w.changed && w.fills == [];
            var written := !idle && !fault && NewIds(t.fills, w.fills);
            && (outcome == Committed <==> idle || (written && !late)) && outcome != Rejected
            && (!written ==> next == t)
            && (written ==>
                  && Added(t.fills, w.fills, next.fills) && Numbers(t.commands, w.orders, w.ts, next.commands)
                  && next.markouts == t.markouts && next.evaluations == t.evaluations && next.source == t.source)
  {
    CycleCommitsExactlyWhen(t, m, w.fills, w.orders, w.ts);
  }

  /** A start with a sound journal fails only on a storage fault, and leaves one numbered command per open order. */
  lemma {:induction false} StartExactly(t: Tables, horizon: nat, ts: nat, orders: seq<Order>, fault: bool)
    requires Sound(t)
    ensures var (next, memory, outcome) := StartStep(t, horizon, ts, orders, fault);
            && (outcome == Failed <==> fault) && outcome != Rejected
            && (fault ==> next == t)
            && (!fault ==>
                  && Numbers(t.commands, orders, ts, next.commands)
                  && next.fills == t.fills && next.markouts == t.markouts
                  && next.evaluations == t.evaluations && next.source == t.source)
  {
    RestoredIsSynced(t, horizon);
    CycleCommitsExactlyWhen(t, Restored(t, horizon), [], orders, ts);
  }
}
