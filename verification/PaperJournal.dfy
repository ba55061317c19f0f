/**
 The durable journal of one paper run and the engine's bookkeeping on top of
 it: pending markouts, command and evaluation numbers, and the source position.
 */
module PaperJournal {
  import opened Wrappers

  type Price = x: real | x > 0.0 witness 1.0

  datatype Fill = Fill(id: string, ts: nat, buy: bool, price: Price)

  datatype Markout = Markout(observedTs: nat, mark: real, bps: real)

  datatype Kind = Submit | Cancel | CancelAll

  /** A command as the strategy asks for it, before it gets its number. */
  datatype Order = Order(kind: Kind, intent: string)

  datatype Command = Command(sequence: nat, ts: nat, order: Order)

  datatype Evaluation = Evaluation(sequence: nat, ts: nat)

  /** `source` is the position in the input that the latest checkpoint holds. */
  datatype Tables = Tables(
    fills: map<string, Fill>, markouts: map<(string, nat), Markout>,
    commands: seq<Command>, evaluations: seq<Evaluation>, source: Option<nat>)

  const EMPTY := Tables(map[], map[], [], [], None)

  // ----- statements of one transaction -----

  /** INSERT of fills one by one; a repeated id fails. */
  function InsertFills(fills: map<string, Fill>, news: seq<Fill>): Option<map<string, Fill>> {
    if news == [] then Some(fills)
    else
      var before := InsertFills(fills, news[..|news| - 1]);
      var last := news[|news| - 1];
      if before.None? || last.id in before.value then None else Some(before.value[last.id := last])
  }

  predicate NewSequences(commands: seq<Command>, news: seq<Command>) {
    && (forall i, k | 0 <= i < |commands| && 0 <= k < |news| :: commands[i].sequence != news[k].sequence)
    && (forall i, k | 0 <= i < k < |news| :: news[i].sequence != news[k].sequence)
  }

  predicate NewEvaluation(evaluations: seq<Evaluation>, e: Evaluation) {
    forall i | 0 <= i < |evaluations| :: evaluations[i].sequence != e.sequence
  }

  /** Each markout needs its fill and a free key. */
  predicate CanMark(fills: map<string, Fill>, markouts: map<(string, nat), Markout>, news: map<string, Markout>, horizon: nat) {
    forall id | id in news :: id in fills && (id, horizon) !in markouts
  }

  function Keyed(news: map<string, Markout>, horizon: nat): map<(string, nat), Markout> {
    map key | key in (set id | id in news :: (id, horizon)) :: news[key.0]
  }

  function CommitCycle(t: Tables, fills: seq<Fill>, commands: seq<Command>): Option<Tables> {
    var inserted := InsertFills(t.fills, fills);
    if inserted.None? || !NewSequences(t.commands, commands) then None
    else Some(t.(fills := inserted.value, commands := t.commands + commands))
  }

  function CommitEngineCycle(
    t: Tables, fills: seq<Fill>, commands: seq<Command>, markouts: map<string, Markout>, horizon: nat,
    evaluation: Evaluation, source: Option<nat>): Option<Tables>
  {
    var cycle := CommitCycle(t, fills, commands);
    if cycle.None? || !NewEvaluation(t.evaluations, evaluation)
       || !CanMark(cycle.value.fills, t.markouts, markouts, horizon) then None
    else
      Some(cycle.value.(markouts := t.markouts + Keyed(markouts, horizon),
                        evaluations := t.evaluations + [evaluation], source := source))
  }

  // ----- readers used at a restart -----

  function NextCommandSequence(commands: seq<Command>): nat {
    if commands == [] then 0
    else
      var before := NextCommandSequence(commands[..|commands| - 1]);
      var last := commands[|commands| - 1].sequence + 1;
      if last > before then last else before
  }

  function NextEvaluationSequence(evaluations: seq<Evaluation>): nat {
    if evaluations == [] then 0
    else
      var before := NextEvaluationSequence(evaluations[..|evaluations| - 1]);
      var last := evaluations[|evaluations| - 1].sequence + 1;
      if last > before then last else before
  }

  /** The fills without a markout for this horizon. */
  function PendingOf(t: Tables, horizon: nat): map<string, Fill> {
    map id | id in t.fills && (id, horizon) !in t.markouts :: t.fills[id]
  }

  // ----- the journal object -----

  class Journal {
    var fills: map<string, Fill>
    var markouts: map<(string, nat), Markout>
    var commands: seq<Command>
    var evaluations: seq<Evaluation>
    var source: Option<nat>

    ghost function View(): Tables
      reads this
    {
      Tables(fills, markouts, commands, evaluations, source)
    }

    constructor ()
      ensures View() == EMPTY
    {
      fills, markouts, commands, evaluations, source := map[], map[], [], [], None;
    }

    method InsertFillRows(news: seq<Fill>) returns (ok: bool)
      modifies this`fills
      ensures ok <==> InsertFills(old(fills), news).Some?
      ensures ok ==> fills == InsertFills(old(fills), news).value
    {
      for i := 0 to |news|
        invariant InsertFills(old(fills), news[..i]) == Some(fills)
      {
        assert news[..i + 1][..i] == news[..i];
        if news[i].id in fills {
          FailureStays(old(fills), news, i + 1);
          return false;
        }
        fills := fills[news[i].id := news[i]];
      }
      assert news[..|news|] == news;
      return true;
    }

    /** `fault` is a storage failure at the end of the transaction; any failure rolls everything back. */
    method RecordCycle(news: seq<Fill>, added: seq<Command>, fault: bool) returns (ok: bool)
      modifies this
      ensures ok <==> !fault && CommitCycle(old(View()), news, added).Some?
      ensures View() == if ok then CommitCycle(old(View()), news, added).value else old(View())
    {
      var savedFills, savedCommands := fills, commands;
      if !NewSequences(commands, added) { return false; }
      commands := commands + added;
      var inserted := InsertFillRows(news);
      if !inserted || fault {
        fills, commands := savedFills, savedCommands;
        return false;
      }
      return true;
    }

    /** The checkpoint of a watchdog cycle, in a transaction of its own. */
    method RecordCheckpoint(position: Option<nat>, fault: bool) returns (ok: bool)
      modifies this`source
      ensures ok == !fault && View() == if ok then old(View()).(source := position) else old(View())
    {
      if !fault { source := position; }
      return !fault;
    }

    method RecordEngineCycle(
      news: seq<Fill>, added: seq<Command>, resolved: map<string, Markout>, horizon: nat,
      evaluation: Evaluation, position: Option<nat>, fault: bool) returns (ok: bool)
      modifies this
      ensures var spec := CommitEngineCycle(old(View()), news, added, resolved, horizon, evaluation, position);
              ok == (!fault && spec.Some?) && View() == if ok then spec.value else old(View())
    {
      var savedFills, savedCommands := fills, commands;
      var cycle := RecordCycle(news, added, false);
      if !cycle { return false; }
      if !NewEvaluation(evaluations, evaluation) || !CanMark(fills, markouts, resolved, horizon) || fault {
        fills, commands := savedFills, savedCommands;
        return false;
      }
      evaluations := evaluations + [evaluation];
      markouts := markouts + Keyed(resolved, horizon);
      source := position;
      return true;
    }
  }

  lemma {:induction false} FailureStays(fills: map<string, Fill>, news: seq<Fill>, n: nat)
    requires n <= |news| && InsertFills(fills, news[..n]).None?
    ensures InsertFills(fills, news).None?
    decreases |news| - n
  {
    if n == |news| {
      assert news[..n] == news;
    } else {
      assert news[..n + 1][..n] == news[..n];
      FailureStays(fills, news, n + 1);
    }
  }
}
