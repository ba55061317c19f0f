/**
 The durable execution journal: an orders table updated in place and an
 append-only events table, changed together in transactions.
 */
module ExecutionJournal {
  import opened Wrappers

  datatype State =
    | PendingSubmit | Submitted | Accepted | PartiallyFilled | Filled | PendingModify
    | PendingCancel | Canceled | Rejected | Denied | Unknown

  datatype Event = Event(
    eventId: string, intentId: string, clientOrderId: Option<string>, venueOrderId: Option<string>,
    state: State, ts: nat, filled: real)
  {
    /** Identifiers have at least one character. */
    predicate Valid() {
      && eventId != "" && intentId != "" && clientOrderId != Some("") && venueOrderId != Some("")
      && filled >= 0.0
    }
  }

  datatype OrderRow = OrderRow(
    clientOrderId: Option<string>, venueOrderId: Option<string>, state: State, updatedTs: nat, filled: real)

  /** The columns repeat parts of the stored payload. */
  datatype EventRow = EventRow(
    sequence: nat, eventId: string, intentId: string, ts: nat, state: State, payload: Event)

  datatype Journal = Journal(orders: map<string, OrderRow>, events: seq<EventRow>)

  const EMPTY := Journal(map[], [])

  datatype JournalError = InvalidTransition | DuplicateIntent | IntegrityError

  const TERMINAL: set<State> := {Filled, Canceled, Rejected, Denied}

  function AllowedTransitions(state: State): set<State> {
    match state
    case PendingSubmit => {Submitted, Denied, Unknown}
    case Submitted => {Accepted, PartiallyFilled, Filled, Canceled, Rejected, Denied, Unknown}
    case Accepted => {PendingModify, PartiallyFilled, Filled, PendingCancel, Canceled, Rejected, Unknown}
    case PartiallyFilled => {PendingModify, PartiallyFilled, Filled, PendingCancel, Canceled, Unknown}
    case PendingCancel => {Canceled, Filled, PartiallyFilled, Accepted, Unknown}
    case PendingModify => {Accepted, PartiallyFilled, Filled, Canceled, Rejected, Unknown}
    case Unknown =>
      {Accepted, PartiallyFilled, Filled, PendingCancel, Canceled, Rejected, Unknown, PendingModify}
    case _ => {}
  }

  // ----- the operations as functions on tables -----

  predicate UsesEventId(events: seq<EventRow>, id: string) {
    exists i :: 0 <= i < |events| && events[i].eventId == id
  }

  predicate UsesClientId(orders: map<string, OrderRow>, intent: string, id: Option<string>) {
    id.Some? && exists other :: other in orders && other != intent && orders[other].clientOrderId == id
  }

  function StoredRow(events: seq<EventRow>, e: Event): EventRow {
    EventRow(|events| + 1, e.eventId, e.intentId, e.ts, e.state, e)
  }

  /** Put the order row of the event's intent and append the event. */
  function Write(j: Journal, e: Event, row: OrderRow): Journal {
    Journal(j.orders[e.intentId := row], j.events + [StoredRow(j.events, e)])
  }

  function FirstRow(e: Event): OrderRow {
    OrderRow(e.clientOrderId, e.venueOrderId, e.state, e.ts, e.filled)
  }

  function Coalesce<T>(first: Option<T>, second: Option<T>): Option<T> {
    if first.Some? then first else second
  }

  function NextRow(row: OrderRow, e: Event): OrderRow {
    OrderRow(Coalesce(e.clientOrderId, row.clientOrderId), Coalesce(e.venueOrderId, row.venueOrderId),
             e.state, e.ts, e.filled)
  }

  function BeginStep(j: Journal, e: Event): Result<Journal, JournalError> {
    if e.state != PendingSubmit then Err(InvalidTransition)
    else if e.intentId in j.orders then Err(DuplicateIntent)
    else if UsesClientId(j.orders, e.intentId, e.clientOrderId) || UsesEventId(j.events, e.eventId)
    then Err(IntegrityError)
    else Ok(Write(j, e, FirstRow(e)))
  }

  predicate CanMove(current: State, next: State) {
    next == current || next in AllowedTransitions(current)
  }

  function AppendStep(j: Journal, e: Event): Result<Journal, JournalError> {
    if e.intentId !in j.orders then Err(InvalidTransition)
    else if !CanMove(j.orders[e.intentId].state, e.state) then Err(InvalidTransition)
    else if UsesClientId(j.orders, e.intentId, e.clientOrderId) then Err(InvalidTransition)
    else if UsesEventId(j.events, e.eventId) then Err(IntegrityError)
    else Ok(Write(j, e, NextRow(j.orders[e.intentId], e)))
  }

  predicate AwaitsOutcome(state: State) {
    state == PendingSubmit || state == Submitted || state == PendingModify || state == PendingCancel
  }

  predicate Stale(row: OrderRow, cutoff: nat) {
    AwaitsOutcome(row.state) && row.updatedTs <= cutoff
  }

  /** The event the sweep writes for one stale order; its id and instant come from outside. */
  function TimeoutEvent(orders: map<string, OrderRow>, intent: string, id: string -> string, clock: string -> nat): Event
    requires intent in orders
  {
    var row := orders[intent];
    Event(id(intent), intent, row.clientOrderId, row.venueOrderId, Unknown, clock(intent), row.filled)
  }

  /** The sweep's own UPDATE touches only the state and the time of the order. */
  function TimedOut(row: OrderRow, ts: nat): OrderRow {
    row.(state := Unknown, updatedTs := ts)
  }

  function SweepOne(j: Journal, intent: string, id: string -> string, clock: string -> nat): Result<Journal, JournalError> {
    if intent !in j.orders || UsesEventId(j.events, id(intent)) then Err(IntegrityError)
    else Ok(Write(j, TimeoutEvent(j.orders, intent, id, clock), TimedOut(j.orders[intent], clock(intent))))
  }

  function SweepStep(j: Journal, stale: seq<string>, id: string -> string, clock: string -> nat): Result<Journal, JournalError>
  {
    if stale == [] then Ok(j)
    else
      var before := SweepStep(j, stale[..|stale| - 1], id, clock);
      if before.Err? then before else SweepOne(before.value, stale[|stale| - 1], id, clock)
  }

  /** `stale` lists stale orders, none twice, in whatever order the rows come back. */
  ghost predicate ListsStale(j: Journal, cutoff: nat, stale: seq<string>) {
    && (forall i | 0 <= i < |stale| :: stale[i] in j.orders && Stale(j.orders[stale[i]], cutoff))
    && (forall i, k | 0 <= i < k < |stale| :: stale[i] != stale[k])
  }

  ghost predicate ListsAllStale(j: Journal, cutoff: nat, stale: seq<string>) {
    forall intent | intent in j.orders && Stale(j.orders[intent], cutoff) :: intent in stale
  }

  function UnresolvedCount(j: Journal): nat {
    |set intent | intent in j.orders && IsUnresolved(j.orders[intent].state)|
  }

  predicate IsUnresolved(state: State) { AwaitsOutcome(state) || state == Unknown }

  // ----- what a write needs and what it leaves -----

  /** The table read backwards: from which states each state can be entered. */
  function MayPrecede(next: State): set<State> {
    match next
    case PendingSubmit => {}
    case Submitted => {PendingSubmit}
    case Accepted => {Submitted, PendingModify, PendingCancel, Unknown}
    case PartiallyFilled => {Submitted, Accepted, PartiallyFilled, PendingModify, PendingCancel, Unknown}
    case Filled => {Submitted, Accepted, PartiallyFilled, PendingModify, PendingCancel, Unknown}
    case PendingModify => {Accepted, PartiallyFilled, Unknown}
    case PendingCancel => {Accepted, PartiallyFilled, Unknown}
    case Canceled => {Submitted, Accepted, PartiallyFilled, PendingModify, PendingCancel, Unknown}
    case Rejected => {Submitted, Accepted, PendingModify, Unknown}
    case Denied => {PendingSubmit, Submitted}
    case Unknown => {PendingSubmit, Submitted, Accepted, PartiallyFilled, PendingModify, PendingCancel, Unknown}
  }

  /** The two readings of the table agree on every pair of states. */
  lemma {:induction false} TableReadsBackwards(current: State, next: State)
    ensures next in AllowedTransitions(current) <==> current in MayPrecede(next)
  {
  }

  ghost predicate FreeClientId(j: Journal, e: Event) {
    e.clientOrderId.None?
    || forall other | other in j.orders && other != e.intentId :: j.orders[other].clientOrderId != e.clientOrderId
  }

  ghost predicate FreeEventId(j: Journal, id: string) {
    forall i | 0 <= i < |j.events| :: j.events[i].eventId != id
  }

  /** One event row was added, numbered next, and only its own order row was written. */
  ghost predicate Wrote(j: Journal, k: Journal, e: Event) {
    && |k.events| == |j.events| + 1 && j.events <= k.events
    && k.events[|j.events|] == EventRow(|j.events| + 1, e.eventId, e.intentId, e.ts, e.state, e)
    && k.orders.Keys == j.orders.Keys + {e.intentId}
    && (forall other | other in j.orders && other != e.intentId :: k.orders[other] == j.orders[other])
    && k.orders[e.intentId].state == e.state && k.orders[e.intentId].updatedTs == e.ts
    && k.orders[e.intentId].filled == e.filled
  }

  /** A first event is accepted exactly when it is a pending submission under identities nobody uses. */
  lemma {:induction false} BeginsExactlyWhen(j: Journal, e: Event)
    ensures BeginStep(j, e).Ok?
            <==> e.state == PendingSubmit && e.intentId !in j.orders && FreeClientId(j, e) && FreeEventId(j, e.eventId)
    ensures BeginStep(j, e).Ok? ==>
              var k := BeginStep(j, e).value;
              Wrote(j, k, e)
              && k.orders[e.intentId].clientOrderId == e.clientOrderId && k.orders[e.intentId].venueOrderId == e.venueOrderId
  {
  }

  /**
   A further event is accepted exactly when its order is stored and its state is
   the current one or may follow it; an identifier it leaves out keeps its
   stored value.
   */
  lemma {:induction false} AppendsExactlyWhen(j: Journal, e: Event)
    ensures AppendStep(j, e).Ok?
            <==> e.intentId in j.orders
                 && (e.state == j.orders[e.intentId].state || j.orders[e.intentId].state in MayPrecede(e.state))
                 && FreeClientId(j, e) && FreeEventId(j, e.eventId)
    ensures AppendStep(j, e).Ok? ==>
              var was, row := j.orders[e.intentId], AppendStep(j, e).value.orders[e.intentId];
              && Wrote(j, AppendStep(j, e).value, e)
              && row.clientOrderId == (if e.clientOrderId.Some? then e.clientOrderId else was.clientOrderId)
              && row.venueOrderId == (if e.venueOrderId.Some? then e.venueOrderId else was.venueOrderId)
  {
    if e.intentId in j.orders {
      TableReadsBackwards(j.orders[e.intentId].state, e.state);
    }
  }

  /** The event written for the order listed at position `n`. */
  ghost predicate SweptAt(
    j: Journal, k: Journal, stale: seq<string>, n: int, id: string -> string, clock: string -> nat)
  {
    && 0 <= n < |stale| && stale[n] in j.orders && |j.events| + n < |k.events|
    && var intent, was := stale[n], j.orders[stale[n]];
       k.events[|j.events| + n].payload
       == Event(id(intent), intent, was.clientOrderId, was.venueOrderId, Unknown, clock(intent), was.filled)
  }

  /** Every listed order is now unknown since its own instant, with everything else as it was, and has one new event. */
  ghost predicate Swept(j: Journal, k: Journal, stale: seq<string>, id: string -> string, clock: string -> nat) {
    && k.orders.Keys == j.orders.Keys
    && (forall intent | intent in j.orders ::
          k.orders[intent]
          == if intent in stale then j.orders[intent].(state := Unknown, updatedTs := clock(intent)) else j.orders[intent])
    && |k.events| == |j.events| + |stale| && j.events <= k.events
    && (forall n | 0 <= n < |stale| :: SweptAt(j, k, stale, n, id, clock))
  }

  ghost predicate NoRepeats(stale: seq<string>) {
    forall i, k | 0 <= i < k < |stale| :: stale[i] != stale[k]
  }

  lemma {:induction false} SweptOne(
    j: Journal, k: Journal, done: seq<string>, intent: string, id: string -> string, clock: string -> nat)
    requires Swept(j, k, done, id, clock) && intent !in done && SweepOne(k, intent, id, clock).Ok?
    ensures Swept(j, SweepOne(k, intent, id, clock).value, done + [intent], id, clock)
  {
    var next := SweepOne(k, intent, id, clock).value;
    assert next.events == k.events + [StoredRow(k.events, TimeoutEvent(k.orders, intent, id, clock))];
    assert k.orders[intent] == j.orders[intent];
    var all := done + [intent];
    forall n | 0 <= n < |all| ensures SweptAt(j, next, all, n, id, clock) {
      if n < |done| {
        assert SweptAt(j, k, done, n, id, clock);
        assert all[n] == done[n] && next.events[|j.events| + n] == k.events[|j.events| + n];
      } else {
        assert next.events[|j.events| + n] == StoredRow(k.events, TimeoutEvent(k.orders, intent, id, clock));
      }
    }
  }

  /** What the sweep leaves when it succeeds. */
  lemma {:induction false} SweepWrites(j: Journal, stale: seq<string>, id: string -> string, clock: string -> nat)
    requires NoRepeats(stale) && SweepStep(j, stale, id, clock).Ok?
    ensures Swept(j, SweepStep(j, stale, id, clock).value, stale, id, clock)
  {
    if stale != [] {
      var init, last := stale[..|stale| - 1], stale[|stale| - 1];
      SweepWrites(j, init, id, clock);
      assert stale == init + [last];
      SweptOne(j, SweepStep(j, init, id, clock).value, init, last, id, clock);
    }
  }

  // ----- the journal object -----

  class ExecutionJournal {
    var orders: map<string, OrderRow>
    var events: seq<EventRow>

    ghost function View(): Journal
      reads this
    {
      Journal(orders, events)
    }

    constructor ()
      ensures View() == EMPTY
    {
      orders, events := map[], [];
    }

    method InsertEvent(e: Event) returns (ok: bool)
      modifies this`events
      ensures ok <==> !UsesEventId(old(events), e.eventId)
      ensures events == if ok then old(events) + [StoredRow(old(events), e)] else old(events)
    {
      ok := !UsesEventId(events, e.eventId);
      if ok { events := events + [StoredRow(events, e)]; }
    }

    method Begin(e: Event) returns (error: Option<JournalError>)
      modifies this
      ensures var step := BeginStep(old(View()), e);
              if step.Ok? then error == None && View() == step.value
              else error == Some(step.error) && View() == old(View())
    {
      if e.state != PendingSubmit { return Some(InvalidTransition); }
      if e.intentId in orders { return Some(DuplicateIntent); }
      if UsesClientId(orders, e.intentId, e.clientOrderId) { return Some(IntegrityError); }
      var saved := orders;
      orders := orders[e.intentId := OrderRow(e.clientOrderId, e.venueOrderId, e.state, e.ts, e.filled)];
      var ok := InsertEvent(e);
      if !ok {
        orders := saved;
        return Some(IntegrityError);
      }
      return None;
    }

    method Append(e: Event) returns (error: Option<JournalError>)
      modifies this
      ensures var step := AppendStep(old(View()), e);
              if step.Ok? then error == None && View() == step.value
              else error == Some(step.error) && View() == old(View())
    {
      if e.intentId !in orders { return Some(InvalidTransition); }
      var row := orders[e.intentId];
      if e.state != row.state && e.state !in AllowedTransitions(row.state) { return Some(InvalidTransition); }
      if UsesClientId(orders, e.intentId, e.clientOrderId) { return Some(InvalidTransition); }
      var saved := orders;
      orders := orders[e.intentId := OrderRow(
                         Coalesce(e.clientOrderId, row.clientOrderId), Coalesce(e.venueOrderId, row.venueOrderId),
                         e.state, e.ts, e.filled)];
      var ok := InsertEvent(e);
      if !ok {
        orders := saved;
        return Some(IntegrityError);
      }
      return None;
    }

    /** Move every command that has waited too long to the unknown state, or change nothing. */
    method MarkStaleSubmissionsUnknown(cutoff: nat, id: string -> string, clock: string -> nat)
      returns (count: nat, error: Option<JournalError>, ghost stale: seq<string>)
      modifies this
      ensures ListsStale(old(View()), cutoff, stale)
      ensures forall intent | intent in stale ::
                intent in old(orders) && old(orders)[intent].updatedTs <= cutoff
                && old(orders)[intent].state in {PendingSubmit, Submitted, PendingModify, PendingCancel}
      ensures error.None? ==>
                forall intent | intent in old(orders) && old(orders)[intent].updatedTs <= cutoff
                                && old(orders)[intent].state in {PendingSubmit, Submitted, PendingModify, PendingCancel} ::
                  intent in stale
      ensures error.None? ==> ListsAllStale(old(View()), cutoff, stale)
      ensures var step := SweepStep(old(View()), stale, id, clock);
              if step.Ok? then error == None && View() == step.value && count == |stale|
              else error == Some(step.error) && View() == old(View()) && count == 0
    {
      var savedOrders, savedEvents := orders, events;
      ghost var was := View();
      var rows := set intent | intent in orders && Stale(orders[intent], cutoff);
      var remaining := rows;
      ghost var done: seq<string> := [];
      count := 0;
      error := None;
      while remaining != {} && error.None?
        invariant remaining <= rows
        invariant forall k | 0 <= k < |done| :: done[k] in rows && done[k] !in remaining
        invariant forall i, k | 0 <= i < k < |done| :: done[i] != done[k]
        invariant forall intent | intent in rows && intent !in remaining :: intent in done
        invariant count == |done| && orders.Keys == was.orders.Keys
        invariant forall intent | intent in remaining :: orders[intent] == was.orders[intent]
        invariant error.None? ==> SweepStep(was, done, id, clock) == Ok(View())
        invariant error.Some? ==> SweepStep(was, done, id, clock) == Err(error.value)
        decreases |remaining|
      {
        var intent :| intent in remaining;
        remaining := remaining - {intent};
        var row := orders[intent];
        var e := Event(id(intent), intent, row.clientOrderId, row.venueOrderId, Unknown, clock(intent), row.filled);
        ghost var longer := done + [intent];
        assert longer[..|done|] == done;
        orders := orders[intent := row.(state := Unknown, updatedTs := e.ts)];
        var ok := InsertEvent(e);
        if !ok { error := Some(IntegrityError); }
        done := longer;
        count := count + 1;
      }
      stale := done;
      if error.Some? {
        orders, events := savedOrders, savedEvents;
        count := 0;
      }
    }
  }
}
