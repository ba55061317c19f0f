/**
 The independent auditor of a retained execution journal.  It rebuilds every
 order from the event rows alone and counts outcomes.
 */
module ExecutionAudit {
  import opened Wrappers
  import opened ExecutionJournal

  datatype AuditError =
    | SequenceNotIncreasing | ColumnsDisagree | OutsideRun | TimeMovesBackward
    | InventoriesDisagree | SnapshotDisagrees

  datatype Stats = Stats(
    orders: nat, fills: nat, unknownOutcomes: nat, resolvedUnknownOutcomes: nat, duplicateVenueOrders: nat)

  const RESOLVED: set<State> := {Accepted, PartiallyFilled, Filled, Canceled, Rejected, Denied}

  // ----- what the auditor checks -----

  function LastSequence(rows: seq<EventRow>): nat {
    if rows == [] then 0 else rows[|rows| - 1].sequence
  }

  predicate ColumnsMatch(row: EventRow) {
    row.eventId == row.payload.eventId && row.intentId == row.payload.intentId
    && row.ts == row.payload.ts && row.state == row.payload.state
  }

  predicate InRun(row: EventRow, started: nat, ended: nat) {
    started <= row.payload.ts <= ended
  }

  /** The sequence number moves on from the row before, and the columns repeat the payload. */
  predicate WellFormedAt(rows: seq<EventRow>, i: nat)
    requires i < |rows|
  {
    LastSequence(rows[..i]) < rows[i].sequence && ColumnsMatch(rows[i])
  }

  ghost predicate WellFormedRows(rows: seq<EventRow>) {
    forall i: nat | i < |rows| :: WellFormedAt(rows, i)
  }

  ghost predicate AllInRun(rows: seq<EventRow>, started: nat, ended: nat) {
    forall i | 0 <= i < |rows| :: InRun(rows[i], started, ended)
  }

  /** The times of one intent's events never move backward. */
  ghost predicate TimesForward(rows: seq<EventRow>) {
    forall i, k | 0 <= i < k < |rows| && rows[i].payload.intentId == rows[k].payload.intentId ::
      rows[i].payload.ts <= rows[k].payload.ts
  }

  ghost function Intents(rows: seq<EventRow>): set<string> {
    set i | 0 <= i < |rows| :: rows[i].payload.intentId
  }

  /** The events of one intent, in order. */
  function Timeline(rows: seq<EventRow>, intent: string): seq<Event> {
    if rows == [] then []
    else
      var last := rows[|rows| - 1].payload;
      Timeline(rows[..|rows| - 1], intent) + if last.intentId == intent then [last] else []
  }

  predicate Present(id: Option<string>) { id.Some? && id.value != "" }

  function LastClientId(timeline: seq<Event>): Option<string> {
    if timeline == [] then None
    else
      var last := timeline[|timeline| - 1];
      if Present(last.clientOrderId) then last.clientOrderId else LastClientId(timeline[..|timeline| - 1])
  }

  function LastVenueId(timeline: seq<Event>): Option<string> {
    if timeline == [] then None
    else
      var last := timeline[|timeline| - 1];
      if Present(last.venueOrderId) then last.venueOrderId else LastVenueId(timeline[..|timeline| - 1])
  }

  /** The order row an event history amounts to. */
  function Snapshot(timeline: seq<Event>): OrderRow
    requires timeline != []
  {
    var final := timeline[|timeline| - 1];
    OrderRow(LastClientId(timeline), LastVenueId(timeline), final.state, final.ts, final.filled)
  }

  ghost predicate Agrees(rows: seq<EventRow>, orders: map<string, OrderRow>, intent: string)
    requires intent in orders
  {
    Timeline(rows, intent) != [] && orders[intent] == Snapshot(Timeline(rows, intent))
  }

  ghost predicate SnapshotsAgree(rows: seq<EventRow>, orders: map<string, OrderRow>) {
    forall intent | intent in orders :: Agrees(rows, orders, intent)
  }

  ghost predicate Accepts(rows: seq<EventRow>, orders: map<string, OrderRow>, started: nat, ended: nat) {
    && WellFormedRows(rows)
    && AllInRun(rows, started, ended)
    && TimesForward(rows)
    && orders.Keys == Intents(rows)
    && SnapshotsAgree(rows, orders)
  }

  /** What each refusal says about the evidence. */
  ghost predicate Explains(
    error: AuditError, rows: seq<EventRow>, orders: map<string, OrderRow>, started: nat, ended: nat)
  {
    match error
    case SequenceNotIncreasing => !WellFormedRows(rows)
    case ColumnsDisagree => !WellFormedRows(rows)
    case OutsideRun => WellFormedRows(rows) && !AllInRun(rows, started, ended)
    case TimeMovesBackward => WellFormedRows(rows) && AllInRun(rows, started, ended) && !TimesForward(rows)
    case InventoriesDisagree => TimesForward(rows) && orders.Keys != Intents(rows)
    case SnapshotDisagrees => orders.Keys == Intents(rows) && !SnapshotsAgree(rows, orders)
  }

  // ----- what the auditor counts -----

  ghost function IntentsIn(rows: seq<EventRow>, states: set<State>): set<string> {
    set i | 0 <= i < |rows| && rows[i].payload.state in states :: rows[i].payload.intentId
  }

  /** A resolving event is followed by no further unknown one. */
  ghost predicate Resolved(timeline: seq<Event>) {
    exists k :: 0 <= k < |timeline| && timeline[k].state in RESOLVED && NoUnknownFrom(timeline, k)
  }

  ghost predicate NoUnknownFrom(timeline: seq<Event>, k: nat) {
    forall m | k <= m < |timeline| :: timeline[m].state != Unknown
  }

  ghost function ResolvedIntents(rows: seq<EventRow>): set<string> {
    set intent | intent in IntentsIn(rows, {Unknown}) && Resolved(Timeline(rows, intent))
  }

  /** Which intent used which venue order id. */
  ghost function VenueUses(rows: seq<EventRow>): set<(string, string)> {
    set i | 0 <= i < |rows| && rows[i].payload.venueOrderId.Some? ::
      (rows[i].payload.venueOrderId.value, rows[i].payload.intentId)
  }

  ghost function Venues(rows: seq<EventRow>): set<string> {
    set i | 0 <= i < |rows| && rows[i].payload.venueOrderId.Some? :: rows[i].payload.venueOrderId.value
  }

  /** Each use of a venue order id beyond the first intent is a duplicate. */
  ghost predicate IsStats(stats: Stats, rows: seq<EventRow>) {
    && stats.orders == |IntentsIn(rows, {Submitted})|
    && stats.fills == |IntentsIn(rows, {PartiallyFilled, Filled})|
    && stats.unknownOutcomes == |IntentsIn(rows, {Unknown})|
    && stats.resolvedUnknownOutcomes == |ResolvedIntents(rows)|
    && stats.duplicateVenueOrders == |VenueUses(rows)| - |Venues(rows)|
  }

  // ----- the auditor -----

  method CheckRows(rows: seq<EventRow>) returns (error: Option<AuditError>)
    ensures error.None? <==> WellFormedRows(rows)
    ensures error.Some? ==> error.value == SequenceNotIncreasing || error.value == ColumnsDisagree
  {
    var prior := 0;
    for i := 0 to |rows|
      invariant prior == LastSequence(rows[..i])
      invariant forall k: nat | k < i :: WellFormedAt(rows, k)
    {
      assert WellFormedAt(rows, i) <==> prior < rows[i].sequence && ColumnsMatch(rows[i]);
      if rows[i].sequence <= prior { return Some(SequenceNotIncreasing); }
      prior := rows[i].sequence;
      if !ColumnsMatch(rows[i]) { return Some(ColumnsDisagree); }
      assert rows[..i + 1][i] == rows[i];
    }
    return None;
  }

  function TimelineOf(timelines: map<string, seq<Event>>, intent: string): seq<Event> {
    if intent in timelines then timelines[intent] else []
  }

  ghost predicate IsTimeline(timelines: map<string, seq<Event>>, rows: seq<EventRow>, intent: string) {
    TimelineOf(timelines, intent) == Timeline(rows, intent)
  }

  ghost predicate AreTimelines(timelines: map<string, seq<Event>>, rows: seq<EventRow>) {
    timelines.Keys == Intents(rows) && forall intent :: IsTimeline(timelines, rows, intent)
  }

  lemma {:induction false} TimelineSnoc(rows: seq<EventRow>, row: EventRow, intent: string)
    ensures row.payload.intentId == intent ==>
              Timeline(rows + [row], intent) == Timeline(rows, intent) + [row.payload]
    ensures row.payload.intentId != intent ==> Timeline(rows + [row], intent) == Timeline(rows, intent)
  {
    assert (rows + [row])[..|rows|] == rows;
  }

  lemma {:induction false} IntentsSnoc(rows: seq<EventRow>, row: EventRow)
    ensures Intents(rows + [row]) == Intents(rows) + {row.payload.intentId}
  {
    var all := rows + [row];
    forall x | x in Intents(all) ensures x in Intents(rows) + {row.payload.intentId} {
      var i :| 0 <= i < |all| && all[i].payload.intentId == x;
      assert i < |rows| ==> all[i] == rows[i];
    }
    forall x | x in Intents(rows) + {row.payload.intentId} ensures x in Intents(all) {
      if x in Intents(rows) {
        var i :| 0 <= i < |rows| && rows[i].payload.intentId == x;
        assert all[i] == rows[i];
      } else {
        assert all[|rows|] == row;
      }
    }
  }

  lemma {:induction false} TimelinesSnoc(timelines: map<string, seq<Event>>, rows: seq<EventRow>, row: EventRow)
    requires AreTimelines(timelines, rows)
    ensures var intent := row.payload.intentId;
            AreTimelines(timelines[intent := TimelineOf(timelines, intent) + [row.payload]], rows + [row])
  {
    IntentsSnoc(rows, row);
    var intent := row.payload.intentId;
    var next := timelines[intent := TimelineOf(timelines, intent) + [row.payload]];
    forall other ensures IsTimeline(next, rows + [row], other) {
      TimelineSnoc(rows, row, other);
      assert IsTimeline(timelines, rows, other) && IsTimeline(timelines, rows, intent);
    }
  }

  /** The last event of an intent comes from some row, and every earlier row of the intent precedes it in time. */
  lemma {:induction false} LastEvent(rows: seq<EventRow>, intent: string) returns (i: int)
    ensures i == -1 <==> Timeline(rows, intent) == []
    ensures i == -1 ==> forall k | 0 <= k < |rows| :: rows[k].payload.intentId != intent
    ensures i != -1 ==>
              var timeline := Timeline(rows, intent);
              0 <= i < |rows| && rows[i].payload == timeline[|timeline| - 1] && rows[i].payload.intentId == intent
              && forall k | i < k < |rows| :: rows[k].payload.intentId != intent
  {
    if rows == [] {
      i := -1;
    } else if rows[|rows| - 1].payload.intentId == intent {
      i := |rows| - 1;
    } else {
      i := LastEvent(rows[..|rows| - 1], intent);
      assert forall k | 0 <= k < |rows| - 1 :: rows[k] == rows[..|rows| - 1][k];
    }
  }

  lemma {:induction false} TimesForwardSnoc(rows: seq<EventRow>, row: EventRow)
    requires TimesForward(rows)
    ensures var timeline := Timeline(rows, row.payload.intentId);
            TimesForward(rows + [row]) <==> (timeline == [] || timeline[|timeline| - 1].ts <= row.payload.ts)
  {
    var intent := row.payload.intentId;
    var timeline := Timeline(rows, intent);
    var all := rows + [row];
    var last := LastEvent(rows, intent);
    assert all[|rows|] == row;
    if timeline == [] || timeline[|timeline| - 1].ts <= row.payload.ts {
      forall i, k | 0 <= i < k < |all| && all[i].payload.intentId == all[k].payload.intentId
        ensures all[i].payload.ts <= all[k].payload.ts
      {
        assert all[i] == rows[i];
        if k < |rows| {
          assert all[k] == rows[k];
        } else if i < last {
          assert rows[i].payload.ts <= rows[last].payload.ts;
        }
      }
    } else {
      assert all[last] == rows[last];
      assert all[last].payload.intentId == all[|rows|].payload.intentId;
    }
  }

  lemma {:induction false} TimesForwardPrefix(rows: seq<EventRow>, n: nat)
    requires TimesForward(rows) && n <= |rows|
    ensures TimesForward(rows[..n])
  {
  }

  lemma {:induction false} CollectStep(timelines: map<string, seq<Event>>, rows: seq<EventRow>, i: nat)
    requires i < |rows| && TimesForward(rows[..i]) && AreTimelines(timelines, rows[..i])
    ensures var e := rows[i].payload;
            var timeline := TimelineOf(timelines, e.intentId);
            && (TimesForward(rows[..i + 1]) <==> (timeline == [] || timeline[|timeline| - 1].ts <= e.ts))
            && AreTimelines(timelines[e.intentId := timeline + [e]], rows[..i + 1])
  {
    assert rows[..i] + [rows[i]] == rows[..i + 1];
    TimesForwardSnoc(rows[..i], rows[i]);
    TimelinesSnoc(timelines, rows[..i], rows[i]);
    assert IsTimeline(timelines, rows[..i], rows[i].payload.intentId);
  }

  lemma {:induction false} BackwardPrefix(rows: seq<EventRow>, n: nat)
    requires n <= |rows| && !TimesForward(rows[..n])
    ensures !TimesForward(rows)
  {
    if TimesForward(rows) {
      TimesForwardPrefix(rows, n);
    }
  }

  /** Group the events by intent, refusing an intent whose time moves backward. */
  method CollectTimelines(rows: seq<EventRow>) returns (ok: bool, timelines: map<string, seq<Event>>)
    ensures ok <==> TimesForward(rows)
    ensures ok ==> AreTimelines(timelines, rows)
  {
    timelines := map[];
    for i := 0 to |rows|
      invariant TimesForward(rows[..i]) && AreTimelines(timelines, rows[..i])
    {
      var e := rows[i].payload;
      var timeline := TimelineOf(timelines, e.intentId);
      CollectStep(timelines, rows, i);
      if timeline != [] && e.ts < timeline[|timeline| - 1].ts {
        BackwardPrefix(rows, i + 1);
        return false, timelines;
      }
      timelines := timelines[e.intentId := timeline + [e]];
    }
    assert rows[..|rows|] == rows;
    return true, timelines;
  }

  lemma {:induction false} IntentsInSnoc(rows: seq<EventRow>, row: EventRow, states: set<State>)
    ensures IntentsIn(rows + [row], states)
            == IntentsIn(rows, states) + if row.payload.state in states then {row.payload.intentId} else {}
  {
    var all := rows + [row];
    var grown := IntentsIn(rows, states) + if row.payload.state in states then {row.payload.intentId} else {};
    forall x | x in IntentsIn(all, states) ensures x in grown {
      var i :| 0 <= i < |all| && all[i].payload.state in states && all[i].payload.intentId == x;
      assert i < |rows| ==> all[i] == rows[i];
    }
    forall x | x in grown ensures x in IntentsIn(all, states) {
      if x in IntentsIn(rows, states) {
        var i :| 0 <= i < |rows| && rows[i].payload.state in states && rows[i].payload.intentId == x;
        assert all[i] == rows[i];
      } else {
        assert all[|rows|] == row;
      }
    }
  }

  method CollectOutcomes(rows: seq<EventRow>) returns (submitted: set<string>, filled: set<string>, unknown: set<string>)
    ensures submitted == IntentsIn(rows, {Submitted})
    ensures filled == IntentsIn(rows, {PartiallyFilled, Filled})
    ensures unknown == IntentsIn(rows, {Unknown})
  {
    submitted, filled, unknown := {}, {}, {};
    for i := 0 to |rows|
      invariant submitted == IntentsIn(rows[..i], {Submitted})
      invariant filled == IntentsIn(rows[..i], {PartiallyFilled, Filled})
      invariant unknown == IntentsIn(rows[..i], {Unknown})
    {
      var e := rows[i].payload;
      assert rows[..i] + [rows[i]] == rows[..i + 1];
      IntentsInSnoc(rows[..i], rows[i], {Submitted});
      IntentsInSnoc(rows[..i], rows[i], {PartiallyFilled, Filled});
      IntentsInSnoc(rows[..i], rows[i], {Unknown});
      if e.state == Submitted { submitted := submitted + {e.intentId}; }
      if e.state == PartiallyFilled || e.state == Filled { filled := filled + {e.intentId}; }
      if e.state == Unknown { unknown := unknown + {e.intentId}; }
    }
    assert rows[..|rows|] == rows;
  }

  /** The last identifier that is present, searching backward. */
  method FindIds(timeline: seq<Event>) returns (client: Option<string>, venue: Option<string>)
    ensures client == LastClientId(timeline) && venue == LastVenueId(timeline)
  {
    client, venue := None, None;
    for i := 0 to |timeline|
      invariant client == LastClientId(timeline[..i]) && venue == LastVenueId(timeline[..i])
    {
      assert timeline[..i + 1][..i] == timeline[..i];
      if Present(timeline[i].clientOrderId) { client := timeline[i].clientOrderId; }
      if Present(timeline[i].venueOrderId) { venue := timeline[i].venueOrderId; }
    }
    assert timeline[..|timeline|] == timeline;
  }

  lemma {:induction false} KnownIntentHasTimeline(rows: seq<EventRow>, intent: string)
    ensures intent in Intents(rows) <==> Timeline(rows, intent) != []
  {
    var i := LastEvent(rows, intent);
  }

  /** Compare one stored row with what its history amounts to. */
  method CheckSnapshot(row: OrderRow, timeline: seq<Event>) returns (ok: bool)
    requires timeline != []
    ensures ok <==> row == Snapshot(timeline)
  {
    var final := timeline[|timeline| - 1];
    var client, venue := FindIds(timeline);
    return row == OrderRow(client, venue, final.state, final.ts, final.filled);
  }

  method CheckSnapshots(rows: seq<EventRow>, orders: map<string, OrderRow>, timelines: map<string, seq<Event>>)
    returns (ok: bool)
    requires AreTimelines(timelines, rows) && orders.Keys == Intents(rows)
    ensures ok <==> SnapshotsAgree(rows, orders)
  {
    var remaining := orders.Keys;
    while remaining != {}
      invariant remaining <= orders.Keys
      invariant forall intent | intent in orders && intent !in remaining :: Agrees(rows, orders, intent)
      decreases |remaining|
    {
      var intent :| intent in remaining;
      remaining := remaining - {intent};
      KnownIntentHasTimeline(rows, intent);
      assert IsTimeline(timelines, rows, intent);
      var same := CheckSnapshot(orders[intent], TimelineOf(timelines, intent));
      if !same {
        assert !Agrees(rows, orders, intent);
        return false;
      }
    }
    return true;
  }

  /** Is some event after the last unknown one resolving? */
  method ResolvedAfterUnknown(timeline: seq<Event>) returns (yes: bool)
    requires exists k :: 0 <= k < |timeline| && timeline[k].state == Unknown
    ensures yes <==> Resolved(timeline)
  {
    var last := |timeline| - 1;
    while timeline[last].state != Unknown
      invariant 0 <= last < |timeline|
      invariant NoUnknownFrom(timeline, last + 1)
      invariant exists k :: 0 <= k <= last && timeline[k].state == Unknown
      decreases last
    {
      last := last - 1;
    }
    for i := last + 1 to |timeline|
      invariant forall k | last < k < i :: timeline[k].state !in RESOLVED
    {
      if timeline[i].state in RESOLVED {
        assert NoUnknownFrom(timeline, i);
        return true;
      }
    }
    return false;
  }

  lemma {:induction false} UnknownInTimeline(rows: seq<EventRow>, intent: string)
    requires intent in IntentsIn(rows, {Unknown})
    ensures exists k :: 0 <= k < |Timeline(rows, intent)| && Timeline(rows, intent)[k].state == Unknown
    decreases |rows|
  {
    var init, last := rows[..|rows| - 1], rows[|rows| - 1];
    assert rows == init + [last];
    IntentsInSnoc(init, last, {Unknown});
    TimelineSnoc(init, last, intent);
    if intent in IntentsIn(init, {Unknown}) {
      UnknownInTimeline(init, intent);
      var k :| 0 <= k < |Timeline(init, intent)| && Timeline(init, intent)[k].state == Unknown;
      assert Timeline(rows, intent)[k].state == Unknown;
    } else {
      assert Timeline(rows, intent)[|Timeline(init, intent)|] == last.payload;
    }
  }

  method CountResolved(rows: seq<EventRow>, unknown: set<string>, timelines: map<string, seq<Event>>) returns (count: nat)
    requires AreTimelines(timelines, rows) && unknown == IntentsIn(rows, {Unknown})
    ensures count == |ResolvedIntents(rows)|
  {
    var remaining := unknown;
    ghost var found := {};
    count := 0;
    while remaining != {}
      invariant remaining <= unknown && count == |found|
      invariant forall x :: x in found <==> x in unknown && x !in remaining && Resolved(Timeline(rows, x))
      decreases |remaining|
    {
      var intent :| intent in remaining;
      remaining := remaining - {intent};
      UnknownInTimeline(rows, intent);
      assert IsTimeline(timelines, rows, intent);
      var timeline := TimelineOf(timelines, intent);
      var yes := ResolvedAfterUnknown(timeline);
      if yes {
        found := found + {intent};
        count := count + 1;
      }
    }
    assert found == ResolvedIntents(rows);
  }

  function UsersOf(users: map<string, set<string>>, venue: string): set<string> {
    if venue in users then users[venue] else {}
  }

  ghost predicate AreUsers(users: map<string, set<string>>, rows: seq<EventRow>) {
    && users.Keys == Venues(rows)
    && (forall v, x :: x in UsersOf(users, v) <==> (v, x) in VenueUses(rows))
    && (forall v | v in users :: users[v] != {})
  }

  lemma {:induction false} VenueSnoc(rows: seq<EventRow>, row: EventRow)
    ensures row.payload.venueOrderId.None? ==>
              VenueUses(rows + [row]) == VenueUses(rows) && Venues(rows + [row]) == Venues(rows)
    ensures row.payload.venueOrderId.Some? ==>
              && VenueUses(rows + [row]) == VenueUses(rows) + {(row.payload.venueOrderId.value, row.payload.intentId)}
              && Venues(rows + [row]) == Venues(rows) + {row.payload.venueOrderId.value}
  {
    var all := rows + [row];
    assert all[|rows|] == row;
    forall p | p in VenueUses(rows) ensures p in VenueUses(all) {
      var i :| 0 <= i < |rows| && rows[i].payload.venueOrderId.Some?
               && p == (rows[i].payload.venueOrderId.value, rows[i].payload.intentId);
      assert all[i] == rows[i];
    }
    forall v | v in Venues(rows) ensures v in Venues(all) {
      var i :| 0 <= i < |rows| && rows[i].payload.venueOrderId.Some? && v == rows[i].payload.venueOrderId.value;
      assert all[i] == rows[i];
    }
    forall p | p in VenueUses(all)
      ensures p in VenueUses(rows)
              || (row.payload.venueOrderId.Some? && p == (row.payload.venueOrderId.value, row.payload.intentId))
    {
      var i :| 0 <= i < |all| && all[i].payload.venueOrderId.Some?
               && p == (all[i].payload.venueOrderId.value, all[i].payload.intentId);
      assert i < |rows| ==> all[i] == rows[i];
    }
    forall v | v in Venues(all)
      ensures v in Venues(rows) || (row.payload.venueOrderId.Some? && v == row.payload.venueOrderId.value)
    {
      var i :| 0 <= i < |all| && all[i].payload.venueOrderId.Some? && v == all[i].payload.venueOrderId.value;
      assert i < |rows| ==> all[i] == rows[i];
    }
  }

  lemma {:induction false} UsersKept(users: map<string, set<string>>, rows: seq<EventRow>, row: EventRow)
    requires AreUsers(users, rows) && row.payload.venueOrderId.None?
    ensures AreUsers(users, rows + [row])
  {
    VenueSnoc(rows, row);
  }

  lemma {:induction false} PairAdded(users: map<string, set<string>>, rows: seq<EventRow>, row: EventRow, w: string, x: string)
    requires AreUsers(users, rows) && row.payload.venueOrderId.Some?
    ensures var v := row.payload.venueOrderId.value;
            x in UsersOf(users[v := UsersOf(users, v) + {row.payload.intentId}], w)
            <==> (w, x) in VenueUses(rows) + {(v, row.payload.intentId)}
  {
    assert x in UsersOf(users, w) <==> (w, x) in VenueUses(rows);
  }

  lemma {:induction false} UsersSnoc(users: map<string, set<string>>, rows: seq<EventRow>, row: EventRow)
    requires AreUsers(users, rows) && row.payload.venueOrderId.Some?
    ensures var v := row.payload.venueOrderId.value;
            AreUsers(users[v := UsersOf(users, v) + {row.payload.intentId}], rows + [row])
  {
    VenueSnoc(rows, row);
    var v := row.payload.venueOrderId.value;
    var next := users[v := UsersOf(users, v) + {row.payload.intentId}];
    forall w, x ensures x in UsersOf(next, w) <==> (w, x) in VenueUses(rows + [row]) {
      PairAdded(users, rows, row, w, x);
    }
  }

  method CollectVenues(rows: seq<EventRow>) returns (users: map<string, set<string>>)
    ensures AreUsers(users, rows)
  {
    users := map[];
    for i := 0 to |rows|
      invariant AreUsers(users, rows[..i])
    {
      var e := rows[i].payload;
      assert rows[..i] + [rows[i]] == rows[..i + 1];
      if e.venueOrderId.None? {
        UsersKept(users, rows[..i], rows[i]);
      } else {
        UsersSnoc(users, rows[..i], rows[i]);
        var v := e.venueOrderId.value;
        users := users[v := UsersOf(users, v) + {e.intentId}];
      }
    }
    assert rows[..|rows|] == rows;
  }

  ghost function UsesOf(users: map<string, set<string>>, venues: set<string>): set<(string, string)> {
    set v, x | v in venues && v in users && x in users[v] :: (v, x)
  }

  lemma {:induction false} PairsOf(venue: string, users: set<string>) returns (pairs: set<(string, string)>)
    ensures |pairs| == |users| && forall p :: p in pairs <==> p.0 == venue && p.1 in users
    decreases |users|
  {
    if users == {} {
      pairs := {};
    } else {
      var x :| x in users;
      var rest := PairsOf(venue, users - {x});
      pairs := rest + {(venue, x)};
    }
  }

  lemma {:induction false} OneMoreVenue(users: map<string, set<string>>, done: set<string>, venue: string)
    requires venue in users && venue !in done
    ensures |UsesOf(users, done + {venue})| == |UsesOf(users, done)| + |users[venue]|
  {
    var pairs := PairsOf(venue, users[venue]);
    assert UsesOf(users, done + {venue}) == UsesOf(users, done) + pairs;
    assert UsesOf(users, done) !! pairs;
  }

  lemma {:induction false} AllUses(users: map<string, set<string>>, rows: seq<EventRow>)
    requires AreUsers(users, rows)
    ensures UsesOf(users, users.Keys) == VenueUses(rows)
  {
    forall p | p in VenueUses(rows) ensures p in UsesOf(users, users.Keys) {
      assert p.1 in UsersOf(users, p.0);
    }
    forall p | p in UsesOf(users, users.Keys) ensures p in VenueUses(rows) {
      assert p.1 in UsersOf(users, p.0);
    }
  }

  /** Sum of the users beyond the first over all venue order ids. */
  method CountDuplicates(users: map<string, set<string>>) returns (count: nat)
    requires forall v | v in users :: users[v] != {}
    ensures count == |UsesOf(users, users.Keys)| - |users|
  {
    var remaining := users.Keys;
    ghost var done: set<string> := {};
    count := 0;
    while remaining != {}
      invariant remaining !! done && remaining + done == users.Keys
      invariant count == |UsesOf(users, done)| - |done|
      decreases |remaining|
    {
      var venue :| venue in remaining;
      OneMoreVenue(users, done, venue);
      remaining := remaining - {venue};
      done := done + {venue};
      if |users[venue]| > 1 { count := count + |users[venue]| - 1; }
    }
    assert done == users.Keys;
  }

  /** Rebuild every order from the event rows, compare, and count outcomes. */
  method ExecutionStats(rows: seq<EventRow>, orders: map<string, OrderRow>, started: nat, ended: nat)
    returns (r: Result<Stats, AuditError>)
    ensures r.Ok? <==> Accepts(rows, orders, started, ended)
    ensures r.Ok? ==> IsStats(r.value, rows)
    ensures r.Err? ==> Explains(r.error, rows, orders, started, ended)
  {
    var problem := CheckRows(rows);
    if problem.Some? { return Err(problem.value); }
    if exists i | 0 <= i < |rows| :: !InRun(rows[i], started, ended) { return Err(OutsideRun); }
    var ok, timelines := CollectTimelines(rows);
    if !ok { return Err(TimeMovesBackward); }
    if orders.Keys != timelines.Keys { return Err(InventoriesDisagree); }
    var agree := CheckSnapshots(rows, orders, timelines);
    if !agree { return Err(SnapshotDisagrees); }
    var submitted, filled, unknown := CollectOutcomes(rows);
    var resolved := CountResolved(rows, unknown, timelines);
    var users := CollectVenues(rows);
    var duplicates := CountDuplicates(users);
    AllUses(users, rows);
    return Ok(Stats(|submitted|, |filled|, |unknown|, resolved, duplicates));
  }
}
