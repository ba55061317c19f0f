/**
 What evidence the auditor accepts, told from row positions and columns alone.
 */
module AuditEvidence {
  import opened Wrappers
  import opened ExecutionJournal
  import opened ExecutionAudit

  // ----- the event rows -----

  /** Numbers count up from at least one, the columns repeat the payload, and every instant lies in the run. */
  ghost predicate GoodRows(rows: seq<EventRow>, started: nat, ended: nat) {
    && (forall i | 0 <= i < |rows| :: rows[i].sequence >= 1)
    && (forall i, k | 0 <= i < k < |rows| :: rows[i].sequence < rows[k].sequence)
    && (forall i | 0 <= i < |rows| ::
          var row := rows[i];
          row.eventId == row.payload.eventId && row.intentId == row.payload.intentId
          && row.ts == row.payload.ts && row.state == row.payload.state)
    && (forall i | 0 <= i < |rows| :: started <= rows[i].payload.ts && rows[i].payload.ts <= ended)
    && (forall i, k | 0 <= i < k < |rows| && rows[i].payload.intentId == rows[k].payload.intentId ::
          rows[i].payload.ts <= rows[k].payload.ts)
  }

  lemma {:induction false} CountsUp(rows: seq<EventRow>, i: nat, k: nat)
    requires WellFormedRows(rows) && i < k < |rows|
    ensures rows[i].sequence < rows[k].sequence
  {
    assert WellFormedAt(rows, k) && rows[..k][k - 1] == rows[k - 1];
    if i < k - 1 {
      CountsUp(rows, i, k - 1);
    }
  }

  lemma {:induction false} RowsMean(rows: seq<EventRow>, started: nat, ended: nat)
    ensures GoodRows(rows, started, ended)
            <==> WellFormedRows(rows) && AllInRun(rows, started, ended) && TimesForward(rows)
  {
    if WellFormedRows(rows) {
      forall i, k | 0 <= i < k < |rows| ensures rows[i].sequence < rows[k].sequence {
        CountsUp(rows, i, k);
      }
      forall i: nat | i < |rows| ensures rows[i].sequence >= 1 && ColumnsMatch(rows[i]) {
        assert WellFormedAt(rows, i);
      }
    }
    if GoodRows(rows, started, ended) {
      forall i: nat | i < |rows| ensures WellFormedAt(rows, i) {
        assert i > 0 ==> rows[..i][i - 1] == rows[i - 1] && rows[i - 1].sequence < rows[i].sequence;
      }
    }
  }

  // ----- the order rows -----

  /** Position of the last event of an intent. */
  ghost predicate LastOf(rows: seq<EventRow>, intent: string, i: int) {
    && 0 <= i < |rows| && rows[i].payload.intentId == intent
    && forall k | i < k < |rows| :: rows[k].payload.intentId != intent
  }

  predicate Named(id: Option<string>) { id.Some? && |id.value| > 0 }

  function IdOn(row: EventRow, venue: bool): Option<string> {
    if venue then row.payload.venueOrderId else row.payload.clientOrderId
  }

  /** The event is about the intent and names an id. */
  predicate Names(row: EventRow, intent: string, venue: bool) {
    row.payload.intentId == intent && Named(IdOn(row, venue))
  }

  /** Position of the last event of the intent that names an id. */
  ghost predicate LastNaming(rows: seq<EventRow>, intent: string, venue: bool, i: int) {
    0 <= i < |rows| && Names(rows[i], intent, venue) && forall k | i < k < |rows| :: !Names(rows[k], intent, venue)
  }

  /** The id on the intent's last event that names one; none when no event does. */
  ghost predicate LastNamed(rows: seq<EventRow>, intent: string, id: Option<string>, venue: bool) {
    if id.None? then forall k | 0 <= k < |rows| :: !Names(rows[k], intent, venue)
    else exists i :: LastNaming(rows, intent, venue, i) && IdOn(rows[i], venue) == id
  }

  lemma {:induction false} LastNamedSnoc(rows: seq<EventRow>, row: EventRow, intent: string, id: Option<string>, venue: bool)
    requires LastNamed(rows, intent, id, venue)
    ensures LastNamed(rows + [row], intent, if Names(row, intent, venue) then IdOn(row, venue) else id, venue)
  {
    var all := rows + [row];
    assert all[|rows|] == row;
    assert forall k | 0 <= k < |rows| :: all[k] == rows[k];
    if Names(row, intent, venue) {
      assert LastNaming(all, intent, venue, |rows|);
    } else if id.Some? {
      var i :| LastNaming(rows, intent, venue, i) && IdOn(rows[i], venue) == id;
      assert LastNaming(all, intent, venue, i);
    }
  }

  lemma {:induction false} LastIdsSnoc(timeline: seq<Event>, e: Event)
    ensures LastClientId(timeline + [e]) == if Named(e.clientOrderId) then e.clientOrderId else LastClientId(timeline)
    ensures LastVenueId(timeline + [e]) == if Named(e.venueOrderId) then e.venueOrderId else LastVenueId(timeline)
  {
    assert (timeline + [e])[..|timeline|] == timeline;
  }

  lemma {:induction false} ClientIdMeans(rows: seq<EventRow>, intent: string)
    ensures LastNamed(rows, intent, LastClientId(Timeline(rows, intent)), false)
  {
    if rows != [] {
      var init, row := rows[..|rows| - 1], rows[|rows| - 1];
      var id := LastClientId(Timeline(init, intent));
      ClientIdMeans(init, intent);
      LastNamedSnoc(init, row, intent, id, false);
      assert rows == init + [row];
      assert LastClientId(Timeline(rows, intent)) == if Names(row, intent, false) then IdOn(row, false) else id by {
        TimelineSnoc(init, row, intent);
        LastIdsSnoc(Timeline(init, intent), row.payload);
      }
    }
  }

  lemma {:induction false} VenueIdMeans(rows: seq<EventRow>, intent: string)
    ensures LastNamed(rows, intent, LastVenueId(Timeline(rows, intent)), true)
  {
    if rows != [] {
      var init, row := rows[..|rows| - 1], rows[|rows| - 1];
      var id := LastVenueId(Timeline(init, intent));
      VenueIdMeans(init, intent);
      LastNamedSnoc(init, row, intent, id, true);
      assert rows == init + [row];
      assert LastVenueId(Timeline(rows, intent)) == if Names(row, intent, true) then IdOn(row, true) else id by {
        TimelineSnoc(init, row, intent);
        LastIdsSnoc(Timeline(init, intent), row.payload);
      }
    }
  }

  lemma {:induction false} OneId(rows: seq<EventRow>, intent: string, a: Option<string>, b: Option<string>, venue: bool)
    requires LastNamed(rows, intent, a, venue) && LastNamed(rows, intent, b, venue)
    ensures a == b
  {
  }

  /** The stored order says what the intent's last event says, under the last ids its events name. */
  ghost predicate GoodOrder(rows: seq<EventRow>, intent: string, row: OrderRow) {
    && (exists i ::
          LastOf(rows, intent, i) && row.state == rows[i].payload.state
          && row.updatedTs == rows[i].payload.ts && row.filled == rows[i].payload.filled)
    && LastNamed(rows, intent, row.clientOrderId, false) && LastNamed(rows, intent, row.venueOrderId, true)
  }

  lemma {:induction false} OrderMeans(rows: seq<EventRow>, orders: map<string, OrderRow>, intent: string)
    requires intent in orders
    ensures Agrees(rows, orders, intent) <==> GoodOrder(rows, intent, orders[intent])
  {
    var row, timeline := orders[intent], Timeline(rows, intent);
    var i := LastEvent(rows, intent);
    ClientIdMeans(rows, intent);
    VenueIdMeans(rows, intent);
    if Agrees(rows, orders, intent) {
      assert LastOf(rows, intent, i);
    }
    if GoodOrder(rows, intent, row) {
      var k :| LastOf(rows, intent, k)
               && row.state == rows[k].payload.state && row.updatedTs == rows[k].payload.ts && row.filled == rows[k].payload.filled;
      assert i != -1 && k == i;
      OneId(rows, intent, row.clientOrderId, LastClientId(timeline), false);
      OneId(rows, intent, row.venueOrderId, LastVenueId(timeline), true);
    }
  }

  /** Every order has an event, every event has an order, and each order says what its events amount to. */
  ghost predicate GoodOrders(rows: seq<EventRow>, orders: map<string, OrderRow>) {
    && (forall i | 0 <= i < |rows| :: rows[i].payload.intentId in orders)
    && (forall intent | intent in orders :: GoodOrder(rows, intent, orders[intent]))
  }

  lemma {:induction false} OrdersMean(rows: seq<EventRow>, orders: map<string, OrderRow>)
    ensures GoodOrders(rows, orders) <==> orders.Keys == Intents(rows) && SnapshotsAgree(rows, orders)
  {
    forall intent | intent in orders ensures Agrees(rows, orders, intent) <==> GoodOrder(rows, intent, orders[intent]) {
      OrderMeans(rows, orders, intent);
    }
    if GoodOrders(rows, orders) {
      forall intent | intent in orders ensures intent in Intents(rows) {
        var i :| LastOf(rows, intent, i);
      }
      assert orders.Keys == Intents(rows);
    }
  }

  /** The auditor accepts exactly the evidence whose rows and orders are good. */
  lemma {:induction false} AcceptsExactlyWhen(rows: seq<EventRow>, orders: map<string, OrderRow>, started: nat, ended: nat)
    ensures Accepts(rows, orders, started, ended) <==> GoodRows(rows, started, ended) && GoodOrders(rows, orders)
  {
    RowsMean(rows, started, ended);
    OrdersMean(rows, orders);
  }
}
