/**
 The journal and its auditor agree: whatever is written by any run of begin,
 append and the stale sweep, the auditor accepts it exactly when the event
 times lie in the run and never move backward within an intent.
 */
module JournalAgreement {
  import opened Wrappers
  import opened ExecutionJournal
  import opened ExecutionAudit

  datatype Op =
    | OpBegin(event: Event)
    | OpAppend(event: Event)
    | OpSweep(cutoff: nat, stale: seq<string>, id: string -> string, clock: string -> nat)

  /** Events carry non-empty identifiers; a sweep lists stale orders of the journal it runs on. */
  ghost predicate ValidOp(j: Journal, op: Op) {
    match op
    case OpBegin(e) => e.Valid()
    case OpAppend(e) => e.Valid()
    case OpSweep(cutoff, stale, id, _) => ListsStale(j, cutoff, stale) && forall intent :: id(intent) != ""
  }

  function Attempt(j: Journal, op: Op): Result<Journal, JournalError> {
    match op
    case OpBegin(e) => BeginStep(j, e)
    case OpAppend(e) => AppendStep(j, e)
    case OpSweep(_, stale, id, clock) => SweepStep(j, stale, id, clock)
  }

  /** A failed transaction leaves the journal as it was. */
  function Step(j: Journal, op: Op): Journal {
    var r := Attempt(j, op);
    if r.Ok? then r.value else j
  }

  ghost predicate ValidRun(j: Journal, ops: seq<Op>)
    decreases |ops|
  {
    ops == [] || (ValidOp(j, ops[0]) && ValidRun(Step(j, ops[0]), ops[1..]))
  }

  function Run(j: Journal, ops: seq<Op>): Journal
    decreases |ops|
  {
    if ops == [] then j else Run(Step(j, ops[0]), ops[1..])
  }

  // ----- the invariant -----

  function LastState(timeline: seq<Event>): Option<State> {
    if timeline == [] then None else Some(timeline[|timeline| - 1].state)
  }

  /** An intent begins pending and then follows the table, or repeats its state. */
  predicate Edge(current: Option<State>, next: State) {
    if current.None? then next == PendingSubmit else CanMove(current.value, next)
  }

  ghost predicate EdgeAt(timeline: seq<Event>, i: nat)
    requires i < |timeline|
  {
    Edge(LastState(timeline[..i]), timeline[i].state)
  }

  ghost predicate Lifecycle(timeline: seq<Event>) {
    forall i: nat | i < |timeline| :: EdgeAt(timeline, i)
  }

  /** The row is what inserting its payload after the rows before it gives. */
  ghost predicate StoredAt(events: seq<EventRow>, i: nat)
    requires i < |events|
  {
    events[i] == StoredRow(events[..i], events[i].payload) && events[i].payload.Valid()
  }

  ghost predicate Stored(events: seq<EventRow>) {
    forall i: nat | i < |events| :: StoredAt(events, i)
  }

  ghost predicate DistinctEvents(events: seq<EventRow>) {
    forall i, k | 0 <= i < k < |events| :: events[i].eventId != events[k].eventId
  }

  ghost predicate DistinctClients(orders: map<string, OrderRow>) {
    forall a, b | a in orders && b in orders && a != b && orders[a].clientOrderId.Some? ::
      orders[a].clientOrderId != orders[b].clientOrderId
  }

  ghost predicate Lifecycles(events: seq<EventRow>) {
    forall intent :: Lifecycle(Timeline(events, intent))
  }

  ghost predicate Sound(j: Journal) {
    && Stored(j.events)
    && j.orders.Keys == Intents(j.events)
    && SnapshotsAgree(j.events, j.orders)
    && Lifecycles(j.events)
    && DistinctEvents(j.events)
    && DistinctClients(j.orders)
  }

  // ----- every step keeps it -----

  lemma {:induction false} SnapshotSnoc(timeline: seq<Event>, e: Event)
    requires e.Valid()
    ensures timeline == [] ==> Snapshot(timeline + [e]) == FirstRow(e)
    ensures timeline != [] ==> Snapshot(timeline + [e]) == NextRow(Snapshot(timeline), e)
  {
    assert (timeline + [e])[..|timeline|] == timeline;
    assert LastClientId([]) == None && LastVenueId([]) == None;
  }

  lemma {:induction false} LifecycleSnoc(timeline: seq<Event>, e: Event)
    requires Lifecycle(timeline) && Edge(LastState(timeline), e.state)
    ensures Lifecycle(timeline + [e])
  {
    var all := timeline + [e];
    forall i: nat | i < |all| ensures EdgeAt(all, i) {
      assert all[..i] == timeline[..i];
      assert i < |timeline| ==> EdgeAt(timeline, i);
      assert timeline[..|timeline|] == timeline;
    }
  }

  lemma {:induction false} StoredSnoc(events: seq<EventRow>, e: Event)
    requires Stored(events) && e.Valid()
    ensures Stored(events + [StoredRow(events, e)])
  {
    var all := events + [StoredRow(events, e)];
    forall i: nat | i < |all| ensures StoredAt(all, i) {
      assert all[..i] == events[..i];
      assert i < |events| ==> StoredAt(events, i);
      assert events[..|events|] == events;
    }
  }

  lemma {:induction false} WriteKeepsSnapshots(j: Journal, e: Event, row: OrderRow)
    requires SnapshotsAgree(j.events, j.orders)
    requires row == Snapshot(Timeline(j.events, e.intentId) + [e])
    ensures SnapshotsAgree(Write(j, e, row).events, Write(j, e, row).orders)
  {
    var next := Write(j, e, row);
    forall intent | intent in next.orders ensures Agrees(next.events, next.orders, intent) {
      TimelineSnoc(j.events, StoredRow(j.events, e), intent);
      assert intent != e.intentId ==> Agrees(j.events, j.orders, intent);
    }
  }

  lemma {:induction false} WriteKeepsLifecycles(j: Journal, e: Event, row: OrderRow)
    requires Lifecycles(j.events) && Edge(LastState(Timeline(j.events, e.intentId)), e.state)
    ensures Lifecycles(Write(j, e, row).events)
  {
    var next := Write(j, e, row);
    forall intent ensures Lifecycle(Timeline(next.events, intent)) {
      TimelineSnoc(j.events, StoredRow(j.events, e), intent);
      assert Lifecycle(Timeline(j.events, intent));
      if intent == e.intentId {
        LifecycleSnoc(Timeline(j.events, intent), e);
      }
    }
  }

  lemma {:induction false} WriteKeepsDistinct(j: Journal, e: Event, row: OrderRow)
    requires DistinctEvents(j.events) && DistinctClients(j.orders)
    requires !UsesEventId(j.events, e.eventId) && !UsesClientId(j.orders, e.intentId, row.clientOrderId)
    ensures DistinctEvents(Write(j, e, row).events) && DistinctClients(Write(j, e, row).orders)
  {
  }

  lemma {:induction false} WriteKeeps(j: Journal, e: Event, row: OrderRow)
    requires Sound(j) && e.Valid()
    requires row == Snapshot(Timeline(j.events, e.intentId) + [e])
    requires Edge(LastState(Timeline(j.events, e.intentId)), e.state)
    requires !UsesEventId(j.events, e.eventId) && !UsesClientId(j.orders, e.intentId, row.clientOrderId)
    ensures Sound(Write(j, e, row))
  {
    StoredSnoc(j.events, e);
    IntentsSnoc(j.events, StoredRow(j.events, e));
    WriteKeepsSnapshots(j, e, row);
    WriteKeepsLifecycles(j, e, row);
    WriteKeepsDistinct(j, e, row);
  }

  lemma {:induction false} BeginKeeps(j: Journal, e: Event)
    requires Sound(j) && e.Valid() && BeginStep(j, e).Ok?
    ensures Sound(BeginStep(j, e).value)
  {
    KnownIntentHasTimeline(j.events, e.intentId);
    SnapshotSnoc([], e);
    assert Timeline(j.events, e.intentId) + [e] == [] + [e];
    WriteKeeps(j, e, FirstRow(e));
  }

  /** The row of a known intent is the snapshot of its history. */
  lemma {:induction false} RowIsSnapshot(j: Journal, intent: string)
    requires Sound(j) && intent in j.orders
    ensures Timeline(j.events, intent) != [] && j.orders[intent] == Snapshot(Timeline(j.events, intent))
    ensures LastState(Timeline(j.events, intent)) == Some(j.orders[intent].state)
  {
    assert Agrees(j.events, j.orders, intent);
  }

  lemma {:induction false} ClientStaysUnique(j: Journal, intent: string, id: Option<string>)
    requires DistinctClients(j.orders) && intent in j.orders && !UsesClientId(j.orders, intent, id)
    ensures !UsesClientId(j.orders, intent, Coalesce(id, j.orders[intent].clientOrderId))
  {
  }

  lemma {:induction false} AppendKeeps(j: Journal, e: Event)
    requires Sound(j) && e.Valid() && AppendStep(j, e).Ok?
    ensures Sound(AppendStep(j, e).value)
  {
    RowIsSnapshot(j, e.intentId);
    SnapshotSnoc(Timeline(j.events, e.intentId), e);
    ClientStaysUnique(j, e.intentId, e.clientOrderId);
    WriteKeeps(j, e, NextRow(j.orders[e.intentId], e));
  }

  /** Every state the sweep looks for may move to unknown by the table it skips. */
  lemma {:induction false} SweepTakesTableEdges(state: State)
    requires AwaitsOutcome(state)
    ensures Unknown in AllowedTransitions(state)
  {
  }

  lemma {:induction false} LastIdsPresent(timeline: seq<Event>)
    requires forall i | 0 <= i < |timeline| :: timeline[i].Valid()
    ensures LastClientId(timeline) != Some("") && LastVenueId(timeline) != Some("")
  {
    if timeline != [] {
      LastIdsPresent(timeline[..|timeline| - 1]);
    }
  }

  lemma {:induction false} TimelineEventsStored(rows: seq<EventRow>, intent: string, k: nat) returns (i: nat)
    requires k < |Timeline(rows, intent)|
    ensures i < |rows| && rows[i].payload == Timeline(rows, intent)[k] && rows[i].payload.intentId == intent
  {
    var init := rows[..|rows| - 1];
    if k < |Timeline(init, intent)| {
      i := TimelineEventsStored(init, intent, k);
    } else {
      i := |rows| - 1;
    }
  }

  lemma {:induction false} TimelineValid(j: Journal, intent: string)
    requires Stored(j.events)
    ensures forall k | 0 <= k < |Timeline(j.events, intent)| :: Timeline(j.events, intent)[k].Valid()
  {
    forall k | 0 <= k < |Timeline(j.events, intent)| ensures Timeline(j.events, intent)[k].Valid() {
      var i := TimelineEventsStored(j.events, intent, k);
      assert StoredAt(j.events, i);
    }
  }

  lemma {:induction false} TimeoutEventValid(j: Journal, intent: string, id: string -> string, clock: string -> nat)
    requires Sound(j) && intent in j.orders && intent != "" && id(intent) != ""
    ensures TimeoutEvent(j.orders, intent, id, clock).Valid()
  {
    RowIsSnapshot(j, intent);
    var timeline := Timeline(j.events, intent);
    TimelineValid(j, intent);
    LastIdsPresent(timeline);
    assert timeline[|timeline| - 1].Valid();
  }

  lemma {:induction false} KnownIntentNotEmpty(j: Journal, intent: string)
    requires Sound(j) && intent in j.orders
    ensures intent != ""
  {
    KnownIntentHasTimeline(j.events, intent);
    var i := TimelineEventsStored(j.events, intent, 0);
    assert StoredAt(j.events, i);
  }

  lemma {:induction false} TimedOutIsNext(row: OrderRow, e: Event)
    requires e.clientOrderId == row.clientOrderId && e.venueOrderId == row.venueOrderId
    requires e.state == Unknown && e.filled == row.filled
    ensures NextRow(row, e) == TimedOut(row, e.ts)
  {
  }

  lemma {:induction false} SweepOneKeeps(j: Journal, intent: string, id: string -> string, clock: string -> nat)
    requires Sound(j) && SweepOne(j, intent, id, clock).Ok? && id(intent) != ""
    requires AwaitsOutcome(j.orders[intent].state)
    ensures Sound(SweepOne(j, intent, id, clock).value)
  {
    var e := TimeoutEvent(j.orders, intent, id, clock);
    KnownIntentNotEmpty(j, intent);
    TimeoutEventValid(j, intent, id, clock);
    RowIsSnapshot(j, intent);
    SnapshotSnoc(Timeline(j.events, intent), e);
    TimedOutIsNext(j.orders[intent], e);
    SweepTakesTableEdges(j.orders[intent].state);
    WriteKeeps(j, e, TimedOut(j.orders[intent], e.ts));
  }

  /** Orders not listed are untouched by the sweep. */
  lemma {:induction false} SweepTouchesOnlyListed(
    j: Journal, stale: seq<string>, id: string -> string, clock: string -> nat, intent: string)
    requires SweepStep(j, stale, id, clock).Ok? && intent !in stale
    ensures intent in SweepStep(j, stale, id, clock).value.orders <==> intent in j.orders
    ensures intent in j.orders ==> SweepStep(j, stale, id, clock).value.orders[intent] == j.orders[intent]
  {
    if stale != [] {
      SweepTouchesOnlyListed(j, stale[..|stale| - 1], id, clock, intent);
    }
  }

  lemma {:induction false} SweepKeeps(
    j: Journal, cutoff: nat, stale: seq<string>, id: string -> string, clock: string -> nat)
    requires Sound(j) && ListsStale(j, cutoff, stale) && (forall intent :: id(intent) != "")
    requires SweepStep(j, stale, id, clock).Ok?
    ensures Sound(SweepStep(j, stale, id, clock).value)
  {
    if stale != [] {
      var init, last := stale[..|stale| - 1], stale[|stale| - 1];
      SweepKeeps(j, cutoff, init, id, clock);
      SweepTouchesOnlyListed(j, init, id, clock, last);
      SweepOneKeeps(SweepStep(j, init, id, clock).value, last, id, clock);
    }
  }

  lemma {:induction false} StepKeeps(j: Journal, op: Op)
    requires Sound(j) && ValidOp(j, op)
    ensures Sound(Step(j, op))
  {
    if Attempt(j, op).Ok? {
      match op
      case OpBegin(e) => BeginKeeps(j, e);
      case OpAppend(e) => AppendKeeps(j, e);
      case OpSweep(cutoff, stale, id, clock) => SweepKeeps(j, cutoff, stale, id, clock);
    }
  }

  lemma {:induction false} RunKeeps(j: Journal, ops: seq<Op>)
    requires Sound(j) && ValidRun(j, ops)
    ensures Sound(Run(j, ops))
    decreases |ops|
  {
    if ops != [] {
      StepKeeps(j, ops[0]);
      RunKeeps(Step(j, ops[0]), ops[1..]);
    }
  }

  lemma {:induction false} EmptyIsSound()
    ensures Sound(EMPTY)
  {
  }

  // ----- writer and auditor agree -----

  lemma {:induction false} StoredIsWellFormed(events: seq<EventRow>)
    requires Stored(events)
    ensures WellFormedRows(events)
  {
    forall i: nat | i < |events| ensures WellFormedAt(events, i) {
      assert StoredAt(events, i);
      if i > 0 {
        assert StoredAt(events, i - 1);
      }
    }
  }

  /**
   Whatever a run of the journal wrote, the auditor accepts it exactly when
   every event lies in the run and no intent's time moves backward.
   */
  lemma {:induction false} AuditorAcceptsExactly(ops: seq<Op>, started: nat, ended: nat)
    requires ValidRun(EMPTY, ops)
    ensures var j := Run(EMPTY, ops);
            Accepts(j.events, j.orders, started, ended)
            <==> AllInRun(j.events, started, ended) && TimesForward(j.events)
  {
    EmptyIsSound();
    RunKeeps(EMPTY, ops);
    StoredIsWellFormed(Run(EMPTY, ops).events);
  }

  /** An intent whose row is not waiting and not unknown has a resolving event after its last unknown one. */
  lemma {:induction false} SettledIsResolved(j: Journal, intent: string)
    requires Sound(j) && intent in j.orders && !IsUnresolved(j.orders[intent].state)
    ensures Resolved(Timeline(j.events, intent))
  {
    RowIsSnapshot(j, intent);
    var timeline := Timeline(j.events, intent);
    assert timeline[|timeline| - 1].state in RESOLVED && NoUnknownFrom(timeline, |timeline| - 1);
  }

  lemma {:induction false} NoneUnresolved(j: Journal, intent: string)
    requires UnresolvedCount(j) == 0 && intent in j.orders
    ensures !IsUnresolved(j.orders[intent].state)
  {
    var unresolved := set i | i in j.orders && IsUnresolved(j.orders[i].state);
    assert intent !in unresolved;
  }

  lemma {:induction false} UnknownIntentsKnown(rows: seq<EventRow>, states: set<State>)
    ensures IntentsIn(rows, states) <= Intents(rows)
  {
    forall x | x in IntentsIn(rows, states) ensures x in Intents(rows) {
      var i :| 0 <= i < |rows| && rows[i].payload.state in states && rows[i].payload.intentId == x;
    }
  }

  /** When the journal counts no unresolved command, the auditor finds every unknown outcome resolved. */
  lemma {:induction false} AllSettledAllResolved(ops: seq<Op>, stats: Stats)
    requires ValidRun(EMPTY, ops) && IsStats(stats, Run(EMPTY, ops).events)
    requires UnresolvedCount(Run(EMPTY, ops)) == 0
    ensures stats.resolvedUnknownOutcomes == stats.unknownOutcomes
  {
    EmptyIsSound();
    RunKeeps(EMPTY, ops);
    var j := Run(EMPTY, ops);
    UnknownIntentsKnown(j.events, {Unknown});
    forall intent | intent in IntentsIn(j.events, {Unknown}) ensures Resolved(Timeline(j.events, intent)) {
      NoneUnresolved(j, intent);
      SettledIsResolved(j, intent);
    }
    assert ResolvedIntents(j.events) == IntentsIn(j.events, {Unknown});
  }

  /** After a terminal state an intent only ever repeats that state. */
  lemma {:induction false} TerminalAbsorbs(timeline: seq<Event>, i: nat, k: nat)
    requires Lifecycle(timeline) && i <= k < |timeline| && timeline[i].state in TERMINAL
    ensures timeline[k].state == timeline[i].state
    decreases k
  {
    if i < k {
      TerminalAbsorbs(timeline, i, k - 1);
      assert timeline[..k][k - 1] == timeline[k - 1];
      assert EdgeAt(timeline, k);
    }
  }

  lemma {:induction false} FinishedIn(j: Journal, intent: string, i: nat)
    requires Sound(j) && i < |Timeline(j.events, intent)| && Timeline(j.events, intent)[i].state in TERMINAL
    ensures intent in j.orders && j.orders[intent].state == Timeline(j.events, intent)[i].state
  {
    var timeline := Timeline(j.events, intent);
    KnownIntentHasTimeline(j.events, intent);
    RowIsSnapshot(j, intent);
    LifecycleOf(j, intent);
    TerminalAbsorbs(timeline, i, |timeline| - 1);
  }

  lemma {:induction false} LifecycleOf(j: Journal, intent: string)
    requires Lifecycles(j.events)
    ensures Lifecycle(Timeline(j.events, intent))
  {
  }

  /** In every reachable journal a finished order stays finished, whatever arrives afterwards. */
  lemma {:induction false} FinishedForGood(ops: seq<Op>, intent: string, i: nat)
    requires ValidRun(EMPTY, ops) && i < |Timeline(Run(EMPTY, ops).events, intent)|
    requires Timeline(Run(EMPTY, ops).events, intent)[i].state in TERMINAL
    ensures intent in Run(EMPTY, ops).orders
    ensures Run(EMPTY, ops).orders[intent].state == Timeline(Run(EMPTY, ops).events, intent)[i].state
  {
    EmptyIsSound();
    RunKeeps(EMPTY, ops);
    FinishedIn(Run(EMPTY, ops), intent, i);
  }
}
