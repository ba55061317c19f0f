/**
 Normalized dataset conversion: ordered streams are merged, and every event is
 expanded into the flat rows the replay engine consumes.
 */
module Conversion {
  import opened Wrappers
  import opened Market

  datatype RowKind = DepthRow | ClearRow | SnapshotRow | BboRow | TradeRow

  /** One replay row; `buy` and `sell` are the two side flags of its event word. */
  datatype Row = Row(kind: RowKind, buy: bool, sell: bool, exchTs: nat, localTs: nat, price: real, qty: real)

  /** One normalized row with its position in its source (segment index and event order). */
  datatype Item = Item(order: nat, event: Event)
  {
    function Priority(): nat { if event.Trade? then 0 else 1 }

    predicate KeyLess(other: Item) {
      || event.eventTs < other.event.eventTs
      || (event.eventTs == other.event.eventTs
          && (|| event.receiveTs < other.event.receiveTs
              || (event.receiveTs == other.event.receiveTs
                  && (|| Priority() < other.Priority()
                      || (Priority() == other.Priority() && order < other.order)))))
    }
  }

  /** `y` may come after `x`, read off the columns: exchange time, receipt time, trades ahead of books, position. */
  predicate MayFollow(x: Item, y: Item) {
    var a, b := x.event, y.event;
    && a.eventTs <= b.eventTs
    && (a.eventTs == b.eventTs ==> a.receiveTs <= b.receiveTs)
    && (a.eventTs == b.eventTs && a.receiveTs == b.receiveTs && b.Trade? ==> a.Trade?)
    && (a.eventTs == b.eventTs && a.receiveTs == b.receiveTs && (a.Trade? <==> b.Trade?) ==> x.order <= y.order)
  }

  ghost predicate InColumnOrder(items: seq<Item>) {
    forall i, j | 0 <= i < j < |items| :: MayFollow(items[i], items[j])
  }

  datatype ConversionError = UnorderedStream | ReceiptBeforeExchange | NoEvents

  // ----- expansion -----

  /** The price the CLEAR row carries: the minimum bid or the maximum ask. */
  function WorstPrice(side: Side, levels: seq<Level>): real
    requires |levels| > 0
  {
    var p := levels[|levels| - 1].price;
    if |levels| == 1 then p
    else
      var w := WorstPrice(side, levels[..|levels| - 1]);
      if Better(side, w, p) then p else w
  }

  lemma {:induction false} WorstPriceIsLast(side: Side, levels: seq<Level>)
    requires |levels| > 0 && BestFirst(side, levels)
    ensures WorstPrice(side, levels) == levels[|levels| - 1].price
  {
    if |levels| > 1 {
      WorstPriceIsLast(side, levels[..|levels| - 1]);
    }
  }

  function DepthFlagged(kind: RowKind, side: Side, e: Event, price: real, qty: real): Row {
    Row(kind, side == Bid, side == Ask, e.eventTs, e.receiveTs, price, qty)
  }

  function LevelRows(side: Side, e: Event, levels: seq<Level>): seq<Row> {
    if levels == [] then []
    else
      var last := levels[|levels| - 1];
      LevelRows(side, e, levels[..|levels| - 1]) + [DepthFlagged(SnapshotRow, side, e, last.price, last.size)]
  }

  function SideRows(side: Side, e: Event, levels: seq<Level>): seq<Row>
    requires |levels| > 0
  {
    [DepthFlagged(ClearRow, side, e, WorstPrice(side, levels), 0.0)] + LevelRows(side, e, levels)
  }

  function Expand(e: Event): seq<Row>
    requires e.Valid()
  {
    match e
    case Trade(eventTs, receiveTs, price, size, aggressor) =>
      [Row(TradeRow, aggressor == Buyer, aggressor == Seller, eventTs, receiveTs, price, size)]
    case Bbo(_, _, bid, ask) =>
      [DepthFlagged(BboRow, Bid, e, bid.price, bid.size), DepthFlagged(BboRow, Ask, e, ask.price, ask.size)]
    case L2Book(_, _, bids, asks) => SideRows(Bid, e, bids) + SideRows(Ask, e, asks)
  }

  ghost predicate AllValid(events: seq<Event>) {
    forall i | 0 <= i < |events| :: events[i].Valid()
  }

  /** Every event expanded in place, in order. */
  function RowsOf(events: seq<Event>): seq<Row>
    requires AllValid(events)
  {
    if events == [] then []
    else RowsOf(events[..|events| - 1]) + Expand(events[|events| - 1])
  }

  // ----- stream ordering and merge -----

  predicate Ordered(items: seq<Item>) {
    forall i | 0 < i < |items| :: !items[i].KeyLess(items[i - 1])
  }

  lemma {:induction false} OrderedPair(items: seq<Item>, i: nat, j: nat)
    requires Ordered(items) && i < j < |items|
    ensures MayFollow(items[i], items[j])
  {
    assert !items[j].KeyLess(items[j - 1]);
    if i < j - 1 {
      OrderedPair(items, i, j - 1);
    }
  }

  /**
   The neighbour-by-neighbour key comparison accepts exactly the streams in
   which, between any two rows, exchange times do not fall, then receipt times
   do not fall, then no trade follows a book, then positions do not fall.
   */
  lemma {:induction false} OrderedExactlyWhen(items: seq<Item>)
    ensures Ordered(items) <==> InColumnOrder(items)
  {
    if Ordered(items) {
      forall i, j | 0 <= i < j < |items| ensures MayFollow(items[i], items[j]) {
        OrderedPair(items, i, j);
      }
    }
    if InColumnOrder(items) {
      forall i | 0 < i < |items| ensures !items[i].KeyLess(items[i - 1]) {
        assert MayFollow(items[i - 1], items[i]);
      }
    }
  }

  /** Index of the stream whose head comes next; the lowest index wins a tie. */
  function NextStream(streams: seq<seq<Item>>): (k: nat)
    requires exists i | 0 <= i < |streams| :: streams[i] != []
    ensures k < |streams| && streams[k] != []
    ensures forall i | 0 <= i < |streams| && streams[i] != [] ::
              !streams[i][0].KeyLess(streams[k][0]) && (i < k ==> streams[k][0].KeyLess(streams[i][0]))
  {
    var n := |streams| - 1;
    if exists i | 0 <= i < n :: streams[i] != [] then
      assert exists i | 0 <= i < |streams[..n]| :: streams[..n][i] != [] by {
        var i :| 0 <= i < n && streams[i] != [];
        assert streams[..n][i] != [];
      }
      var k := NextStream(streams[..n]);
      assert forall i | 0 <= i < n :: streams[..n][i] == streams[i];
      if streams[n] != [] && streams[n][0].KeyLess(streams[k][0]) then n else k
    else n
  }

  function TotalItems(streams: seq<seq<Item>>): nat {
    if streams == [] then 0 else TotalItems(streams[..|streams| - 1]) + |streams[|streams| - 1]|
  }

  lemma {:induction false} PopShrinks(streams: seq<seq<Item>>, k: nat)
    requires k < |streams| && streams[k] != []
    ensures TotalItems(streams[k := streams[k][1..]]) + 1 == TotalItems(streams)
  {
    var n := |streams| - 1;
    var popped := streams[k := streams[k][1..]];
    if k < n {
      PopShrinks(streams[..n], k);
      assert popped[..n] == streams[..n][k := streams[..n][k][1..]];
    } else {
      assert popped[..n] == streams[..n];
    }
  }

  /** The stable k-way merge of ordered streams. */
  function Merge(streams: seq<seq<Item>>): seq<Item>
    decreases TotalItems(streams)
  {
    if exists i | 0 <= i < |streams| :: streams[i] != [] then
      var k := NextStream(streams);
      PopShrinks(streams, k);
      [streams[k][0]] + Merge(streams[k := streams[k][1..]])
    else []
  }

  function AllItems(streams: seq<seq<Item>>): multiset<Item> {
    if streams == [] then multiset{}
    else AllItems(streams[..|streams| - 1]) + multiset(streams[|streams| - 1])
  }

  lemma {:induction false} PopRemovesHead(streams: seq<seq<Item>>, k: nat)
    requires k < |streams| && streams[k] != []
    ensures AllItems(streams) == multiset{streams[k][0]} + AllItems(streams[k := streams[k][1..]])
  {
    var n := |streams| - 1;
    var popped := streams[k := streams[k][1..]];
    if k < n {
      PopRemovesHead(streams[..n], k);
      assert popped[..n] == streams[..n][k := streams[..n][k][1..]];
    } else {
      assert popped[..n] == streams[..n];
      assert streams[n] == [streams[n][0]] + streams[n][1..];
    }
  }

  lemma {:induction false} EmptyStreams(streams: seq<seq<Item>>)
    requires forall i | 0 <= i < |streams| :: streams[i] == []
    ensures AllItems(streams) == multiset{}
  {
    if streams != [] {
      EmptyStreams(streams[..|streams| - 1]);
    }
  }

  lemma {:induction false} OrderedFromHead(items: seq<Item>, i: nat)
    requires Ordered(items) && i < |items|
    ensures !items[i].KeyLess(items[0])
  {
    if i > 0 {
      OrderedFromHead(items, i - 1);
      assert !items[i].KeyLess(items[i - 1]);
    }
  }

  ghost predicate AllOrdered(streams: seq<seq<Item>>) {
    forall i | 0 <= i < |streams| :: Ordered(streams[i])
  }

  /** `x` is the head of some stream. */
  ghost predicate HeadsOne(streams: seq<seq<Item>>, x: Item) {
    exists i | 0 <= i < |streams| :: streams[i] != [] && streams[i][0] == x
  }

  lemma {:induction false} OrderedTail(items: seq<Item>)
    requires Ordered(items) && items != []
    ensures Ordered(items[1..])
  {
    forall i | 0 < i < |items[1..]| ensures !items[1..][i].KeyLess(items[1..][i - 1]) {
      assert !items[i + 1].KeyLess(items[i]);
    }
  }

  lemma {:induction false} PoppedOrdered(streams: seq<seq<Item>>, k: nat)
    requires AllOrdered(streams) && k < |streams| && streams[k] != []
    ensures AllOrdered(streams[k := streams[k][1..]])
  {
    OrderedTail(streams[k]);
  }

  lemma {:induction false} ConsOrdered(x: Item, rest: seq<Item>)
    requires Ordered(rest) && (rest != [] ==> !rest[0].KeyLess(x))
    ensures Ordered([x] + rest)
  {
    var all := [x] + rest;
    forall i | 0 < i < |all| ensures !all[i].KeyLess(all[i - 1]) {
      if i > 1 {
        assert !rest[i - 1].KeyLess(rest[i - 2]);
      }
    }
  }

  /** Whatever heads a stream after the pop does not precede what was popped. */
  lemma {:induction false} NextNotBefore(streams: seq<seq<Item>>, k: nat, x: Item)
    requires AllOrdered(streams) && k < |streams| && streams[k] != []
    requires forall i | 0 <= i < |streams| && streams[i] != [] :: !streams[i][0].KeyLess(streams[k][0])
    requires HeadsOne(streams[k := streams[k][1..]], x)
    ensures !x.KeyLess(streams[k][0])
  {
    var popped := streams[k := streams[k][1..]];
    var i :| 0 <= i < |popped| && popped[i] != [] && popped[i][0] == x;
    if i == k {
      OrderedFromHead(streams[k], 1);
    } else {
      assert streams[i] == popped[i];
    }
  }

  lemma {:induction false} MergeHead(streams: seq<seq<Item>>)
    requires Merge(streams) != []
    ensures HeadsOne(streams, Merge(streams)[0])
  {
  }

  lemma {:induction false} MergeKeepsAll(streams: seq<seq<Item>>)
    ensures multiset(Merge(streams)) == AllItems(streams)
    decreases TotalItems(streams)
  {
    if exists i | 0 <= i < |streams| :: streams[i] != [] {
      var k := NextStream(streams);
      PopShrinks(streams, k);
      PopRemovesHead(streams, k);
      MergeKeepsAll(streams[k := streams[k][1..]]);
    } else {
      EmptyStreams(streams);
    }
  }

  lemma {:induction false} MergeIsOrdered(streams: seq<seq<Item>>)
    requires AllOrdered(streams)
    ensures Ordered(Merge(streams))
    decreases TotalItems(streams)
  {
    if exists i | 0 <= i < |streams| :: streams[i] != [] {
      var k := NextStream(streams);
      var popped := streams[k := streams[k][1..]];
      PopShrinks(streams, k);
      PoppedOrdered(streams, k);
      MergeIsOrdered(popped);
      if Merge(popped) != [] {
        MergeHead(popped);
        NextNotBefore(streams, k, Merge(popped)[0]);
      }
      ConsOrdered(streams[k][0], Merge(popped));
    }
  }

  /** Merging ordered streams loses nothing, invents nothing, and comes out ordered by key. */
  lemma {:induction false} MergeIsOrderedUnion(streams: seq<seq<Item>>)
    requires AllOrdered(streams)
    ensures multiset(Merge(streams)) == AllItems(streams)
    ensures Ordered(Merge(streams))
  {
    MergeKeepsAll(streams);
    MergeIsOrdered(streams);
  }

  // ----- the rows that come out -----

  /** The row is one of those that show the event. */
  predicate Shows(row: Row, e: Event) {
    row.exchTs == e.eventTs && row.localTs == e.receiveTs && (row.kind == TradeRow <==> e.Trade?)
  }

  /** `b` may come after `a`: exchange time, then local time, then trades ahead of books. */
  predicate RowMayFollow(a: Row, b: Row) {
    && a.exchTs <= b.exchTs
    && (a.exchTs == b.exchTs ==> a.localTs <= b.localTs)
    && (a.exchTs == b.exchTs && a.localTs == b.localTs && b.kind == TradeRow ==> a.kind == TradeRow)
  }

  ghost predicate RowsInOrder(rows: seq<Row>) {
    forall i, j | 0 <= i < j < |rows| :: RowMayFollow(rows[i], rows[j])
  }

  /** A side of a snapshot: one row that clears down to its worst price, then one row per level, best first. */
  ghost predicate SideShown(rows: seq<Row>, side: Side, e: Event, levels: seq<Level>)
    requires levels != []
  {
    && |rows| == 1 + |levels|
    && rows[0] == Row(ClearRow, side == Bid, side == Ask, e.eventTs, e.receiveTs, levels[|levels| - 1].price, 0.0)
    && forall k | 0 <= k < |levels| ::
         rows[1 + k]
         == Row(SnapshotRow, side == Bid, side == Ask, e.eventTs, e.receiveTs, levels[k].price, levels[k].size)
  }

  lemma {:induction false} LevelRowsAt(side: Side, e: Event, levels: seq<Level>)
    ensures |LevelRows(side, e, levels)| == |levels|
    ensures forall k | 0 <= k < |levels| ::
              LevelRows(side, e, levels)[k]
              == Row(SnapshotRow, side == Bid, side == Ask, e.eventTs, e.receiveTs, levels[k].price, levels[k].size)
  {
    if levels != [] {
      LevelRowsAt(side, e, levels[..|levels| - 1]);
    }
  }

  /** The rows of a snapshot: the bid side and then the ask side, each cleared and then listed. */
  lemma {:induction false} SnapshotRowsAt(e: Event)
    requires e.L2Book? && e.Valid()
    ensures |Expand(e)| == (1 + |e.bids|) + (1 + |e.asks|)
    ensures SideShown(Expand(e)[..1 + |e.bids|], Bid, e, e.bids)
    ensures SideShown(Expand(e)[1 + |e.bids|..], Ask, e, e.asks)
  {
    LevelRowsAt(Bid, e, e.bids);
    LevelRowsAt(Ask, e, e.asks);
    WorstPriceIsLast(Bid, e.bids);
    WorstPriceIsLast(Ask, e.asks);
    assert Expand(e)[..1 + |e.bids|] == SideRows(Bid, e, e.bids);
    assert Expand(e)[1 + |e.bids|..] == SideRows(Ask, e, e.asks);
  }

  lemma {:induction false} SideRowsShow(side: Side, e: Event, levels: seq<Level>)
    requires levels != [] && !e.Trade?
    ensures forall k | 0 <= k < |SideRows(side, e, levels)| :: Shows(SideRows(side, e, levels)[k], e)
  {
    LevelRowsAt(side, e, levels);
  }

  lemma {:induction false} ExpandShows(e: Event)
    requires e.Valid()
    ensures forall k | 0 <= k < |Expand(e)| :: Shows(Expand(e)[k], e)
  {
    if e.L2Book? {
      SideRowsShow(Bid, e, e.bids);
      SideRowsShow(Ask, e, e.asks);
    }
  }

  lemma {:induction false} RowFromEvent(events: seq<Event>, k: nat) returns (i: nat)
    requires AllValid(events) && k < |RowsOf(events)|
    ensures i < |events| && Shows(RowsOf(events)[k], events[i])
  {
    var n := |events| - 1;
    ExpandShows(events[n]);
    if k < |RowsOf(events[..n])| {
      i := RowFromEvent(events[..n], k);
    } else {
      i := n;
    }
  }

  function EventsOf(items: seq<Item>): seq<Event> {
    seq(|items|, i requires 0 <= i < |items| => items[i].event)
  }

  /** Events in column order expand to rows in column order. */
  lemma {:induction false} RowsKeepOrder(items: seq<Item>)
    requires InColumnOrder(items) && AllValid(EventsOf(items))
    ensures RowsInOrder(RowsOf(EventsOf(items)))
  {
    if items != [] {
      var n := |items| - 1;
      var init, e := items[..n], items[n].event;
      assert EventsOf(items)[..n] == EventsOf(init);
      assert forall i, j | 0 <= i < j < n :: init[i] == items[i] && init[j] == items[j];
      RowsKeepOrder(init);
      assert EventsOf(items)[n] == e && e.Valid();
      ExpandShows(e);
      var before, all := RowsOf(EventsOf(init)), RowsOf(EventsOf(items));
      forall a, b | 0 <= a < b < |all| ensures RowMayFollow(all[a], all[b]) {
        if b < |before| {
          assert RowMayFollow(before[a], before[b]);
        } else if a < |before| {
          var i := RowFromEvent(EventsOf(init), a);
          assert MayFollow(items[i], items[n]) && Shows(all[b], e);
        } else {
          assert Shows(all[a], e) && Shows(all[b], e);
        }
      }
    }
  }

  // ----- the conversion loop -----

  ghost predicate ValidStreams(streams: seq<seq<Item>>) {
    forall i, j | 0 <= i < |streams| && 0 <= j < |streams[i]| :: streams[i][j].event.Valid()
  }

  lemma {:induction false} AllItemsValid(streams: seq<seq<Item>>, item: Item)
    requires ValidStreams(streams) && item in AllItems(streams)
    ensures item.event.Valid()
  {
    var n := |streams| - 1;
    if item in multiset(streams[n]) {
      assert item in streams[n];
    } else {
      AllItemsValid(streams[..n], item);
    }
  }

  lemma {:induction false} MergedEventsValid(streams: seq<seq<Item>>)
    requires ValidStreams(streams)
    ensures AllValid(EventsOf(Merge(streams)))
  {
    MergeKeepsAll(streams);
    var merged := Merge(streams);
    forall i | 0 <= i < |merged| ensures merged[i].event.Valid() {
      assert merged[i] in multiset(merged);
      AllItemsValid(streams, merged[i]);
    }
  }

  /** No event is received before the exchange produced it. */
  ghost predicate Causal(events: seq<Event>) {
    forall i | 0 <= i < |events| :: events[i].eventTs <= events[i].receiveTs
  }

  // ----- what can fail, and what fails first -----

  predicate Pending(streams: seq<seq<Item>>) { exists i | 0 <= i < |streams| :: streams[i] != [] }

  /** The streams once the next item has been taken. */
  function Taken(streams: seq<seq<Item>>): (rest: seq<seq<Item>>)
    requires Pending(streams)
    ensures TotalItems(rest) + 1 == TotalItems(streams)
  {
    var k := NextStream(streams);
    PopShrinks(streams, k);
    streams[k := streams[k][1..]]
  }

  /** The next item is followed, in its own stream, by a smaller one. */
  predicate BreaksNext(streams: seq<seq<Item>>)
    requires Pending(streams)
  {
    var stream := streams[NextStream(streams)];
    |stream| > 1 && stream[1].KeyLess(stream[0])
  }

  function Shift(n: Option<nat>, count: nat): Option<nat> { if n.None? then None else Some(n.value + count) }

  /** The merge position after which a stream first turns out to be unordered. */
  function BreakAt(streams: seq<seq<Item>>): Option<nat>
    decreases TotalItems(streams)
  {
    if !Pending(streams) then None
    else if BreaksNext(streams) then Some(0)
    else Shift(BreakAt(Taken(streams)), 1)
  }

  /** The position of the first event that was received before it was produced. */
  function LateAt(events: seq<Event>): Option<nat> {
    if events == [] then None
    else if events[0].receiveTs < events[0].eventTs then Some(0)
    else Shift(LateAt(events[1..]), 1)
  }

  /** Of the two faults the one met first in merge order; an event is checked before its stream is read on. */
  function FirstFault(merged: seq<Item>, broken: Option<nat>): Option<ConversionError> {
    var late := LateAt(EventsOf(merged));
    if late.Some? && (broken.None? || late.value <= broken.value) then Some(ReceiptBeforeExchange)
    else if broken.Some? then Some(UnorderedStream)
    else if merged == [] then Some(NoEvents)
    else None
  }

  function Fault(streams: seq<seq<Item>>): Option<ConversionError> { FirstFault(Merge(streams), BreakAt(streams)) }

  lemma {:induction false} TailOrderedExactlyWhen(items: seq<Item>)
    requires items != []
    ensures Ordered(items) <==> Ordered(items[1..]) && (|items| > 1 ==> !items[1].KeyLess(items[0]))
  {
    if Ordered(items) {
      OrderedTail(items);
    }
    if Ordered(items[1..]) && (|items| > 1 ==> !items[1].KeyLess(items[0])) {
      ConsOrdered(items[0], items[1..]);
      assert items == [items[0]] + items[1..];
    }
  }

  /** Reading on finds a break if and only if some stream is unordered. */
  lemma {:induction false} BreaksExactlyWhen(streams: seq<seq<Item>>)
    ensures BreakAt(streams).None? <==> AllOrdered(streams)
    decreases TotalItems(streams)
  {
    if Pending(streams) {
      var k := NextStream(streams);
      var rest := Taken(streams);
      TailOrderedExactlyWhen(streams[k]);
      BreaksExactlyWhen(rest);
      assert rest[k] == streams[k][1..];
      assert forall i | 0 <= i < |streams| && i != k :: rest[i] == streams[i];
    }
  }

  lemma {:induction false} LateExactlyWhen(events: seq<Event>)
    ensures LateAt(events).None? <==> Causal(events)
    ensures LateAt(events).Some? ==>
              var n := LateAt(events).value;
              n < |events| && events[n].receiveTs < events[n].eventTs && Causal(events[..n])
  {
    if events != [] {
      var rest := events[1..];
      LateExactlyWhen(rest);
      assert events == [events[0]] + rest;
      if LateAt(events).Some? && LateAt(events).value > 0 {
        assert events[..LateAt(events).value] == [events[0]] + rest[..LateAt(events).value - 1];
      }
    }
  }

  /** There is no fault exactly when every stream is ordered, something is left to convert and every event is causal. */
  lemma {:induction false} NoFaultExactlyWhen(streams: seq<seq<Item>>)
    ensures Fault(streams).None? <==> AllOrdered(streams) && Merge(streams) != [] && Causal(EventsOf(Merge(streams)))
  {
    BreaksExactlyWhen(streams);
    LateExactlyWhen(EventsOf(Merge(streams)));
  }

  /** The reported fault is always true of the input. */
  lemma {:induction false} FaultIsTrue(streams: seq<seq<Item>>)
    ensures Fault(streams) == Some(UnorderedStream) ==> !AllOrdered(streams)
    ensures Fault(streams) == Some(ReceiptBeforeExchange) ==> !Causal(EventsOf(Merge(streams)))
    ensures Fault(streams) == Some(NoEvents) <==> Merge(streams) == []
  {
    BreaksExactlyWhen(streams);
    LateExactlyWhen(EventsOf(Merge(streams)));
  }

  // ----- reading streams -----

  /** One pull from a stream: the row after `previous`, refused when its key goes backwards. */
  method PullRow(previous: Option<Item>, upcoming: seq<Item>) returns (ordered: bool)
    ensures ordered <==> upcoming == [] || previous.None? || !upcoming[0].KeyLess(previous.value)
  {
    return upcoming == [] || previous.None? || !upcoming[0].KeyLess(previous.value);
  }

  /** Read one stream to its end, refusing it as soon as a key goes backwards. */
  method NormalizedRows(stream: seq<Item>) returns (ordered: bool)
    ensures ordered <==> Ordered(stream)
    ensures ordered <==> InColumnOrder(stream)
  {
    OrderedExactlyWhen(stream);
    var previous: Option<Item> := None;
    for k := 0 to |stream|
      invariant previous == if k == 0 then None else Some(stream[k - 1])
      invariant forall i | 0 < i < k :: !stream[i].KeyLess(stream[i - 1])
    {
      var next := PullRow(previous, stream[k..]);
      if !next { return false; }
      previous := Some(stream[k]);
    }
    return true;
  }

  // ----- the conversion loop -----

  /** What a partly consumed merge says about the whole one: items taken, items left, and the break ahead. */
  ghost predicate Ahead(
    all: seq<Item>, broken: Option<nat>, taken: seq<Item>, left: seq<Item>, brokenLeft: Option<nat>)
  {
    && all == taken + left
    && broken == Shift(brokenLeft, |taken|)
    && LateAt(EventsOf(all)) == Shift(LateAt(EventsOf(left)), |taken|)
  }

  ghost predicate Consumed(streams: seq<seq<Item>>, rest: seq<seq<Item>>, taken: seq<Item>) {
    Ahead(Merge(streams), BreakAt(streams), taken, Merge(rest), BreakAt(rest))
  }

  /** The next item, and what the merge and the break look like once it has been taken. */
  lemma {:induction false} NextUnfolds(streams: seq<seq<Item>>)
    requires Pending(streams)
    ensures Merge(streams) == [streams[NextStream(streams)][0]] + Merge(Taken(streams))
    ensures BreakAt(streams) == if BreaksNext(streams) then Some(0) else Shift(BreakAt(Taken(streams)), 1)
  {
  }

  lemma {:induction false} LateFromHead(x: Item, left: seq<Item>)
    ensures LateAt(EventsOf([x] + left))
            == if x.event.receiveTs < x.event.eventTs then Some(0) else Shift(LateAt(EventsOf(left)), 1)
  {
    assert EventsOf([x] + left)[1..] == EventsOf(left);
  }

  lemma {:induction false} TakeItem(
    all: seq<Item>, broken: Option<nat>, taken: seq<Item>, x: Item, left: seq<Item>, brokenLeft: Option<nat>)
    requires Ahead(all, broken, taken, [x] + left, Shift(brokenLeft, 1)) && x.event.eventTs <= x.event.receiveTs
    ensures Ahead(all, broken, taken + [x], left, brokenLeft)
  {
    LateFromHead(x, left);
  }

  lemma {:induction false} StopAtItem(
    all: seq<Item>, broken: Option<nat>, taken: seq<Item>, x: Item, left: seq<Item>, brokenHere: Option<nat>)
    requires Ahead(all, broken, taken, [x] + left, brokenHere)
    ensures x.event.receiveTs < x.event.eventTs ==> FirstFault(all, broken) == Some(ReceiptBeforeExchange)
    ensures x.event.eventTs <= x.event.receiveTs && brokenHere == Some(0) ==> FirstFault(all, broken) == Some(UnorderedStream)
  {
    LateFromHead(x, left);
  }

  lemma {:induction false} TakeOne(streams: seq<seq<Item>>, rest: seq<seq<Item>>, taken: seq<Item>)
    requires Consumed(streams, rest, taken) && Pending(rest) && !BreaksNext(rest)
    requires var event := rest[NextStream(rest)][0].event; event.eventTs <= event.receiveTs
    ensures Consumed(streams, Taken(rest), taken + [rest[NextStream(rest)][0]])
  {
    NextUnfolds(rest);
    TakeItem(Merge(streams), BreakAt(streams), taken, rest[NextStream(rest)][0], Merge(Taken(rest)), BreakAt(Taken(rest)));
  }

  /** Which fault a consumption that stops here has met. */
  lemma {:induction false} StopsHere(streams: seq<seq<Item>>, rest: seq<seq<Item>>, taken: seq<Item>)
    requires Consumed(streams, rest, taken) && Pending(rest)
    ensures var event := rest[NextStream(rest)][0].event;
            && (event.receiveTs < event.eventTs ==> Fault(streams) == Some(ReceiptBeforeExchange))
            && (event.eventTs <= event.receiveTs && BreaksNext(rest) ==> Fault(streams) == Some(UnorderedStream))
  {
    NextUnfolds(rest);
    StopAtItem(Merge(streams), BreakAt(streams), taken, rest[NextStream(rest)][0], Merge(Taken(rest)), BreakAt(rest));
  }

  lemma {:induction false} RowsGrow(taken: seq<Item>, x: Item)
    requires AllValid(EventsOf(taken)) && x.event.Valid()
    ensures AllValid(EventsOf(taken + [x]))
    ensures RowsOf(EventsOf(taken + [x])) == RowsOf(EventsOf(taken)) + Expand(x.event)
    ensures Expand(x.event) != []
  {
    assert EventsOf(taken + [x]) == EventsOf(taken) + [x.event];
    assert (EventsOf(taken) + [x.event])[..|taken|] == EventsOf(taken);
  }

  lemma {:induction false} HeadIsValid(streams: seq<seq<Item>>, rest: seq<seq<Item>>, taken: seq<Item>)
    requires ValidStreams(streams) && Consumed(streams, rest, taken) && Pending(rest)
    ensures rest[NextStream(rest)][0].event.Valid()
  {
    MergedEventsValid(streams);
    NextUnfolds(rest);
    assert EventsOf(Merge(streams))[|taken|] == rest[NextStream(rest)][0].event;
  }

  /**
   Merge the admitted streams lazily: take the smallest head, check and expand
   its event, and only then read on in its stream.  The result is the row list
   before the replay library re-orders it by local time.
   */
  method RawNormalizedEvents(streams: seq<seq<Item>>) returns (result: Result<seq<Row>, ConversionError>)
    requires ValidStreams(streams)
    ensures AllValid(EventsOf(Merge(streams)))
    ensures result.Ok? <==> AllOrdered(streams) && Merge(streams) != [] && Causal(EventsOf(Merge(streams)))
    ensures result.Ok? ==> result.value == RowsOf(EventsOf(Merge(streams)))
    ensures result.Ok? ==> RowsInOrder(result.value)
    ensures result.Err? ==> Fault(streams) == Some(result.error)
  {
    MergedEventsValid(streams);
    NoFaultExactlyWhen(streams);
    var rest: seq<seq<Item>> := streams;
    var output: seq<Row> := [];
    ghost var taken: seq<Item> := [];
    assert [] + Merge(streams) == Merge(streams);
    while exists i | 0 <= i < |rest| :: rest[i] != []
      invariant Consumed(streams, rest, taken)
      invariant AllValid(EventsOf(taken)) && output == RowsOf(EventsOf(taken))
      invariant output == [] <==> taken == []
      decreases TotalItems(rest)
    {
      var k := NextStream(rest);
      var item: Item := rest[k][0];
      StopsHere(streams, rest, taken);
      HeadIsValid(streams, rest, taken);
      if item.event.receiveTs < item.event.eventTs { return Err(ReceiptBeforeExchange); }
      RowsGrow(taken, item);
      output := output + Expand(item.event);
      var ordered := PullRow(Some(item), rest[k][1..]);
      if !ordered { return Err(UnorderedStream); }
      TakeOne(streams, rest, taken);
      taken := taken + [item];
      rest := Taken(rest);
    }
    assert Merge(rest) == [] && taken + [] == taken;
    if output == [] { return Err(NoEvents); }
    MergeIsOrderedUnion(streams);
    OrderedExactlyWhen(Merge(streams));
    RowsKeepOrder(Merge(streams));
    return Ok(output);
  }
}
