/**
 What the replay yields for any rows at all, whoever wrote them: which row
 decides the size at a price, what each group of rows shows, and exactly where
 and why the replay stops.
 */
module RowReplay {
  import opened Wrappers
  import opened Market
  import opened Conversion
  import opened BookReplay
  import R = ReplayCorrectness

  // ----- one price -----

  ghost predicate OnSide(row: Row, side: Side) {
    row.kind != TradeRow && (row.buy <==> side == Bid)
  }

  /** The row settles the price `p`: a CLEAR or BBO row its own price and every better one, any other row its own price only. */
  ghost predicate Settles(row: Row, side: Side, p: real) {
    && OnSide(row, side)
    && match row.kind
       case ClearRow => if side == Bid then p >= row.price else p <= row.price
       case BboRow => if side == Bid then p >= row.price else p <= row.price
       case _ => p == row.price
  }

  /** The size at one price: what the last row that settles it says there. */
  ghost function SizeAt(rows: seq<Row>, side: Side, p: real): Option<real> {
    if rows == [] then None
    else
      var row := rows[|rows| - 1];
      if !Settles(row, side, p) then SizeAt(rows[..|rows| - 1], side, p)
      else if row.kind == ClearRow || p != row.price || row.qty == 0.0 then None
      else Some(row.qty)
  }

  /** The exchange time of the last row of a side. */
  ghost function TimeOf(rows: seq<Row>, side: Side): Option<nat> {
    if rows == [] then None
    else
      var row := rows[|rows| - 1];
      if OnSide(row, side) then Some(row.exchTs) else TimeOf(rows[..|rows| - 1], side)
  }

  /** The trade a row reports, if it reports one. */
  ghost function TradeIn(row: Row): seq<KernelTrade> {
    if row.kind != TradeRow then []
    else if row.buy then [KernelTrade(row.exchTs, row.localTs, row.price, row.qty, Buyer)]
    else if row.sell then [KernelTrade(row.exchTs, row.localTs, row.price, row.qty, Seller)]
    else [KernelTrade(row.exchTs, row.localTs, row.price, row.qty, Unattributed)]
  }

  ghost function TradesIn(rows: seq<Row>): seq<KernelTrade> {
    if rows == [] then [] else TradesIn(rows[..|rows| - 1]) + TradeIn(rows[|rows| - 1])
  }

  ghost function TimeIn(book: Book, side: Side): Option<nat> {
    if side == Bid then book.bidTs else book.askTs
  }

  ghost function BookAfter(rows: seq<Row>): Book { ApplyRows(Group(EmptyBook, 0, []), rows).book }

  lemma {:induction false} DepthSettles(side: Side, ladder: Ladder, row: Row, p: real)
    requires OnSide(row, side)
    ensures R.Lookup(ApplyDepth(side, ladder, row.kind, row.price, row.qty), p)
            == if !Settles(row, side, p) then R.Lookup(ladder, p)
               else if row.kind == ClearRow || p != row.price || row.qty == 0.0 then None
               else Some(row.qty)
  {
  }

  /** The size the ladders hold at a price, and the times of the sides, are those of the last rows that settle them. */
  lemma {:induction false} LastRowSettles(rows: seq<Row>, side: Side, p: real)
    ensures R.Lookup(BookAfter(rows).Side(side), p) == SizeAt(rows, side, p)
    ensures TimeIn(BookAfter(rows), side) == TimeOf(rows, side)
  {
    if rows != [] {
      var init, row := rows[..|rows| - 1], rows[|rows| - 1];
      LastRowSettles(init, side, p);
      if OnSide(row, side) {
        DepthSettles(side, BookAfter(init).Side(side), row, p);
      }
    }
  }

  // ----- one group -----

  ghost predicate Latest(ts: nat, rows: seq<Row>, other: nat, another: nat) {
    && (forall i | 0 <= i < |rows| :: rows[i].exchTs <= ts) && other <= ts && another <= ts
    && (ts == other || ts == another || exists i :: 0 <= i < |rows| && rows[i].exchTs == ts)
  }

  lemma {:induction false} LatestSnoc(ts: nat, init: seq<Row>, row: Row)
    requires Latest(ts, init, 0, 0)
    ensures Latest(Max(ts, row.exchTs), init + [row], 0, 0)
  {
    var rows := init + [row];
    assert rows[|init|] == row;
    if ts > row.exchTs && ts != 0 {
      var i :| 0 <= i < |init| && init[i].exchTs == ts;
      assert rows[i] == init[i];
    }
  }

  lemma {:induction false} GroupBook(past: seq<Row>, now: seq<Row>)
    ensures ApplyRows(Group(BookAfter(past), 0, []), now).book == BookAfter(past + now)
  {
    if now == [] {
      assert past + now == past;
    } else {
      GroupBook(past, now[..|now| - 1]);
      assert (past + now)[..|past + now| - 1] == past + now[..|now| - 1];
    }
  }

  lemma {:induction false} GroupTrades(book: Book, now: seq<Row>)
    ensures ApplyRows(Group(book, 0, []), now).trades == TradesIn(now)
  {
    if now != [] {
      GroupTrades(book, now[..|now| - 1]);
    }
  }

  lemma {:induction false} GroupTime(book: Book, now: seq<Row>)
    ensures Latest(ApplyRows(Group(book, 0, []), now).exchangeTs, now, 0, 0)
  {
    if now != [] {
      var init, row := now[..|now| - 1], now[|now| - 1];
      GroupTime(book, init);
      LatestSnoc(ApplyRows(Group(book, 0, []), init).exchangeTs, init, row);
      assert init + [row] == now;
    }
  }

  /** A group on its own decides the book, the exchange time and the trades it adds. */
  lemma {:induction false} GroupIsOfItsRows(past: seq<Row>, now: seq<Row>)
    ensures var g := ApplyRows(Group(BookAfter(past), 0, []), now);
            g.book == BookAfter(past + now) && g.trades == TradesIn(now) && Latest(g.exchangeTs, now, 0, 0)
  {
    GroupBook(past, now);
    GroupTrades(BookAfter(past), now);
    GroupTime(BookAfter(past), now);
  }

  ghost predicate Quoted(rows: seq<Row>, side: Side) {
    exists p :: SizeAt(rows, side, p).Some?
  }

  /** Some bid is at or above some ask. */
  ghost predicate Crossed(rows: seq<Row>) {
    exists p, q :: SizeAt(rows, Bid, p).Some? && SizeAt(rows, Ask, q).Some? && p >= q
  }

  ghost predicate Beyond(side: Side, level: Level, p: real) {
    if side == Bid then level.price > p else level.price < p
  }

  /** `levels` are the best `depth` prices that the rows leave, best first. */
  ghost predicate IsBest(levels: seq<Level>, rows: seq<Row>, side: Side, depth: nat) {
    && |levels| <= depth
    && (forall i, j | 0 <= i < j < |levels| :: Beyond(side, levels[i], levels[j].price))
    && (forall i | 0 <= i < |levels| :: SizeAt(rows, side, levels[i].price) == Some(levels[i].size))
    && (forall p | SizeAt(rows, side, p).Some? :: Listed(levels, side, depth, p))
  }

  ghost predicate Listed(levels: seq<Level>, side: Side, depth: nat, p: real) {
    || (exists i :: 0 <= i < |levels| && levels[i].price == p)
    || (|levels| == depth && forall i | 0 <= i < |levels| :: Beyond(side, levels[i], p))
  }

  lemma {:induction false} TopIsBest(rows: seq<Row>, side: Side, depth: nat)
    ensures IsBest(Top(Sorted(side, BookAfter(rows).Side(side)), depth), rows, side, depth)
    ensures |BookAfter(rows).Side(side)| > 0 <==> Quoted(rows, side)
    ensures |BookAfter(rows).Side(side)| > 0 && depth > 0 ==> |Top(Sorted(side, BookAfter(rows).Side(side)), depth)| > 0
  {
    var ladder := BookAfter(rows).Side(side);
    R.SortedLists(side, ladder);
    var all, top := Sorted(side, ladder), Top(Sorted(side, ladder), depth);
    forall i | 0 <= i < |top| ensures SizeAt(rows, side, top[i].price) == Some(top[i].size) {
      LastRowSettles(rows, side, all[i].price);
      assert R.Lookup(ladder, all[i].price) == Some(all[i].size);
    }
    forall p | SizeAt(rows, side, p).Some? ensures p in ladder && Listed(top, side, depth, p) {
      LastRowSettles(rows, side, p);
      var i := R.SortedCovers(side, ladder, p);
      if i < |top| {
        assert top[i].price == p;
      }
    }
    if |ladder| > 0 {
      LastRowSettles(rows, side, all[0].price);
      assert R.Lookup(ladder, all[0].price) == Some(all[0].size);
    }
  }

  /** The tops of the two sides are crossed exactly when some bid is at or above some ask. */
  lemma {:induction false} TopsCross(bids: seq<Level>, asks: seq<Level>, rows: seq<Row>, depth: nat)
    requires IsBest(bids, rows, Bid, depth) && IsBest(asks, rows, Ask, depth) && |bids| > 0 && |asks| > 0
    ensures bids[0].price >= asks[0].price <==> Crossed(rows)
  {
    assert SizeAt(rows, Bid, bids[0].price).Some? && SizeAt(rows, Ask, asks[0].price).Some?;
    if Crossed(rows) {
      var p, q :| SizeAt(rows, Bid, p).Some? && SizeAt(rows, Ask, q).Some? && p >= q;
      FirstIsBest(bids, rows, Bid, depth, p);
      FirstIsBest(asks, rows, Ask, depth, q);
    }
  }

  lemma {:induction false} FirstIsBest(levels: seq<Level>, rows: seq<Row>, side: Side, depth: nat, p: real)
    requires IsBest(levels, rows, side, depth) && |levels| > 0 && SizeAt(rows, side, p).Some?
    ensures levels[0].price == p || Beyond(side, levels[0], p)
  {
    assert Listed(levels, side, depth, p);
    if i :| 0 <= i < |levels| && levels[i].price == p {
      assert i == 0 || Beyond(side, levels[0], levels[i].price);
    }
  }

  // ----- groups of rows with one local time -----

  ghost predicate Begins(rows: seq<Row>, b: int) {
    0 <= b < |rows| && (b == 0 || rows[b - 1].localTs != rows[b].localTs)
  }

  /** Where the rows that share the local time of row `b` end. */
  ghost function EndOf(rows: seq<Row>, b: nat): (e: nat)
    requires b < |rows|
    ensures b < e <= |rows|
    decreases |rows| - b
  {
    if b + 1 == |rows| || rows[b + 1].localTs != rows[b].localTs then b + 1 else EndOf(rows, b + 1)
  }

  /** How many groups begin before `b`. */
  ghost function GroupsBefore(rows: seq<Row>, b: nat): nat {
    if b == 0 then 0 else GroupsBefore(rows, b - 1) + if Begins(rows, b - 1) then 1 else 0
  }

  lemma {:induction false} OneGroup(rows: seq<Row>, b: nat)
    requires b < |rows|
    ensures EndOf(rows, b) < |rows| ==> Begins(rows, EndOf(rows, b))
    ensures forall i | b < i < EndOf(rows, b) :: !Begins(rows, i)
    ensures RunLength(rows[b..]) == EndOf(rows, b) - b
    ensures GroupsBefore(rows, EndOf(rows, b)) == GroupsBefore(rows, b + 1)
    decreases |rows| - b
  {
    if b + 1 < |rows| && rows[b + 1].localTs == rows[b].localTs {
      OneGroup(rows, b + 1);
      assert rows[b..][1..] == rows[b + 1..];
      assert !Begins(rows, b + 1);
    }
  }

  /** Every trade row of the group at `b` makes a trade: positive, and not received before it happened. */
  ghost predicate TradesHold(rows: seq<Row>, b: nat)
    requires b < |rows|
  {
    forall i | b <= i < EndOf(rows, b) && rows[i].kind == TradeRow ::
      rows[i].price > 0.0 && rows[i].qty > 0.0 && rows[i].exchTs <= rows[i].localTs
  }

  /** The state shows what the rows up to the end of the group at `b` leave, and the trades of that group. */
  ghost predicate Shows(state: KernelState, rows: seq<Row>, b: nat, depth: nat)
    requires b < |rows|
  {
    var seen, now := rows[..EndOf(rows, b)], rows[b..EndOf(rows, b)];
    && |state.bids| > 0 && IsBest(state.bids, seen, Bid, depth)
    && |state.asks| > 0 && IsBest(state.asks, seen, Ask, depth)
    && TimeOf(seen, Bid).Some? && TimeOf(seen, Ask).Some?
    && Latest(state.exchangeTs, now, TimeOf(seen, Bid).value, TimeOf(seen, Ask).value)
    && state.bookExchangeTs <= TimeOf(seen, Bid).value && state.bookExchangeTs <= TimeOf(seen, Ask).value
    && (state.bookExchangeTs == TimeOf(seen, Bid).value || state.bookExchangeTs == TimeOf(seen, Ask).value)
    && state.observedTs == rows[b].localTs && state.sequence == GroupsBefore(rows, b)
    && state.trades == TradesIn(now)
  }

  ghost predicate Positive(levels: seq<Level>) {
    forall i | 0 <= i < |levels| :: levels[i].price > 0.0 && levels[i].size > 0.0
  }

  /** Both sides hold a level after the group at `b`. */
  ghost predicate Ready(rows: seq<Row>, b: nat)
    requires b < |rows|
  {
    Quoted(rows[..EndOf(rows, b)], Bid) && Quoted(rows[..EndOf(rows, b)], Ask)
  }

  /** The group at `b` yields `state`. */
  ghost predicate Yields(state: KernelState, rows: seq<Row>, b: nat, depth: nat)
    requires b < |rows|
  {
    && TradesHold(rows, b) && Shows(state, rows, b, depth)
    && Positive(state.bids) && Positive(state.asks)
    && !Crossed(rows[..EndOf(rows, b)]) && state.exchangeTs <= state.observedTs
  }

  /** What stops the replay at a state that the group at `b` shows. */
  ghost predicate Refused(error: ReplayError, state: KernelState, rows: seq<Row>, b: nat)
    requires b < |rows|
  {
    var positive, crossed := Positive(state.bids) && Positive(state.asks), Crossed(rows[..EndOf(rows, b)]);
    || (error == CrossedBook && positive && crossed)
    || (error == InvalidState && (!positive || (!crossed && state.exchangeTs > state.observedTs)))
  }

  /** The replay stops at the group at `b` with `error`. */
  ghost predicate Stops(error: ReplayError, rows: seq<Row>, b: nat, depth: nat)
    requires b < |rows|
  {
    if error == InvalidTrade then !TradesHold(rows, b)
    else TradesHold(rows, b) && exists state :: Shows(state, rows, b, depth) && Refused(error, state, rows, b)
  }

  lemma {:induction false} TradeRowsHold(rows: seq<Row>, b: nat)
    requires b < |rows|
    ensures AllValidTrades(TradesIn(rows[b..EndOf(rows, b)])) <==> TradesHold(rows, b)
  {
    var e := EndOf(rows, b);
    TradesBuilt(rows[b..e]);
    assert forall i | b <= i < e :: rows[b..e][i - b] == rows[i];
    if TradesHold(rows, b) {
      forall k | 0 <= k < |rows[b..e]| && rows[b..e][k].kind == TradeRow ensures Builds(rows[b..e][k]) {
        assert rows[b + k].kind == TradeRow;
      }
    } else {
      var i :| b <= i < e && rows[i].kind == TradeRow
               && !(rows[i].price > 0.0 && rows[i].qty > 0.0 && rows[i].exchTs <= rows[i].localTs);
      assert !Builds(rows[b..e][i - b]);
    }
  }

  ghost predicate Builds(row: Row) { row.price > 0.0 && row.qty > 0.0 && row.exchTs <= row.localTs }

  lemma {:induction false} TradesBuilt(rows: seq<Row>)
    ensures AllValidTrades(TradesIn(rows)) <==> forall k | 0 <= k < |rows| && rows[k].kind == TradeRow :: Builds(rows[k])
  {
    if rows != [] {
      var init, row := rows[..|rows| - 1], rows[|rows| - 1];
      TradesBuilt(init);
      assert forall k | 0 <= k < |init| :: rows[k] == init[k];
      AllValidAppend(TradesIn(init), TradeIn(row));
      if row.kind == TradeRow {
        assert TradeIn(row)[0].Valid() <==> Builds(row);
      }
      assert rows[|init|] == row;
    }
  }

  lemma {:induction false} AllValidAppend(a: seq<KernelTrade>, b: seq<KernelTrade>)
    ensures AllValidTrades(a + b) <==> AllValidTrades(a) && AllValidTrades(b)
  {
    assert forall i | 0 <= i < |a| :: (a + b)[i] == a[i];
    assert forall i | 0 <= i < |b| :: (a + b)[|a| + i] == b[i];
    if AllValidTrades(a + b) {
      forall i | 0 <= i < |b| ensures b[i].Valid() {
        assert (a + b)[|a| + i].Valid();
      }
    }
  }

  /** The group at `b`, folded into the book of the rows before it. */
  ghost function GroupAt(rows: seq<Row>, b: nat): Group
    requires b < |rows|
  {
    ApplyRows(Group(BookAfter(rows[..b]), 0, []), rows[b..EndOf(rows, b)])
  }

  lemma {:induction false} GroupShows(rows: seq<Row>, b: nat, depth: nat)
    requires depth > 0 && b < |rows|
    ensures GroupAt(rows, b).book == BookAfter(rows[..EndOf(rows, b)])
    ensures AllValidTrades(GroupAt(rows, b).trades) <==> TradesHold(rows, b)
    ensures GroupAt(rows, b).book.Complete() <==> Ready(rows, b)
    ensures Ready(rows, b) ==> Shows(StateOf(GroupAt(rows, b), rows[b].localTs, GroupsBefore(rows, b), depth), rows, b, depth)
  {
    var e := EndOf(rows, b);
    GroupIsOfItsRows(rows[..b], rows[b..e]);
    assert rows[..b] + rows[b..e] == rows[..e];
    TradeRowsHold(rows, b);
    TopIsBest(rows[..e], Bid, depth);
    TopIsBest(rows[..e], Ask, depth);
    LastRowSettles(rows[..e], Bid, 0.0);
    LastRowSettles(rows[..e], Ask, 0.0);
    if Quoted(rows[..e], Bid) {
      QuotedHasTime(rows[..e], Bid);
    }
    if Quoted(rows[..e], Ask) {
      QuotedHasTime(rows[..e], Ask);
    }
  }

  lemma {:induction false} QuotedHasTime(rows: seq<Row>, side: Side)
    requires Quoted(rows, side)
    ensures TimeOf(rows, side).Some?
  {
    var p :| SizeAt(rows, side, p).Some?;
    if !OnSide(rows[|rows| - 1], side) {
      assert SizeAt(rows[..|rows| - 1], side, p).Some?;
      QuotedHasTime(rows[..|rows| - 1], side);
    }
  }

  // ----- what stops the replay -----

  ghost predicate FromRow(t: KernelTrade, rows: seq<Row>) {
    exists k :: 0 <= k < |rows| && t.exchangeTs == rows[k].exchTs && t.observedTs == rows[k].localTs
  }

  lemma {:induction false} TradesFrom(rows: seq<Row>)
    ensures forall i | 0 <= i < |TradesIn(rows)| :: FromRow(TradesIn(rows)[i], rows)
  {
    if rows != [] {
      var init, row := rows[..|rows| - 1], rows[|rows| - 1];
      TradesFrom(init);
      forall i | 0 <= i < |TradesIn(rows)| ensures FromRow(TradesIn(rows)[i], rows) {
        if i < |TradesIn(init)| {
          var t := TradesIn(init)[i];
          var k :| 0 <= k < |init| && t.exchangeTs == init[k].exchTs && t.observedTs == init[k].localTs;
          assert rows[k] == init[k] && TradesIn(rows)[i] == t;
        } else {
          assert rows[|init|] == row;
        }
      }
    }
  }

  /** Trades of a group are no later than the state that shows them. */
  lemma {:induction false} TradesInTime(rows: seq<Row>, ts: nat, other: nat, another: nat, observed: nat)
    requires Latest(ts, rows, other, another) && forall i | 0 <= i < |rows| :: rows[i].localTs == observed
    ensures forall i | 0 <= i < |TradesIn(rows)| :: TradesIn(rows)[i].exchangeTs <= ts && TradesIn(rows)[i].observedTs == observed
  {
    TradesFrom(rows);
    forall i | 0 <= i < |TradesIn(rows)|
      ensures TradesIn(rows)[i].exchangeTs <= ts && TradesIn(rows)[i].observedTs == observed
    {
      assert FromRow(TradesIn(rows)[i], rows);
    }
  }

  lemma {:induction false} SameLocal(rows: seq<Row>, b: nat)
    requires b < |rows|
    ensures forall i | b <= i < EndOf(rows, b) :: rows[i].localTs == rows[b].localTs
    decreases |rows| - b
  {
    if b + 1 < |rows| && rows[b + 1].localTs == rows[b].localTs {
      SameLocal(rows, b + 1);
    }
  }

  /** The checks of the kernel state come down to positive levels, an uncrossed book and an exchange time not after its receipt. */
  lemma {:induction false} ProblemExactly(state: KernelState, rows: seq<Row>, b: nat, depth: nat)
    requires b < |rows| && TradesHold(rows, b) && Shows(state, rows, b, depth)
    ensures Problem(state).None? <==> Yields(state, rows, b, depth)
    ensures Problem(state).Some? ==> Problem(state).value != InvalidTrade && Refused(Problem(state).value, state, rows, b)
  {
    var e := EndOf(rows, b);
    var seen, now := rows[..e], rows[b..e];
    TopsCross(state.bids, state.asks, seen, depth);
    TradeRowsHold(rows, b);
    SameLocal(rows, b);
    TradesInTime(now, state.exchangeTs, TimeOf(seen, Bid).value, TimeOf(seen, Ask).value, rows[b].localTs);
    assert Positive(state.bids) <==> AllValidLevels(state.bids);
    assert Positive(state.asks) <==> AllValidLevels(state.asks);
    if Positive(state.bids) && Positive(state.asks) && state.bids[0].price < state.asks[0].price {
      assert state.Valid() <==> state.exchangeTs <= state.observedTs;
    }
  }

  // ----- the whole replay -----

  /**
   The states come from the groups at `starts`, in order; up to `stop` no group
   that could show a state is left out; and the replay reaches the end of the
   rows, or stops at the group at `stop` for the reason it reports.
   */
  ghost predicate Tells(rows: seq<Row>, n: nat, depth: nat, o: Outcome, starts: seq<nat>, stop: nat) {
    && n <= stop <= |rows| && InOrder(rows, n, starts, stop)
    && AllYield(o.states, rows, starts, depth)
    && NoneLeftOut(rows, n, starts, stop)
    && match o.error
       case None => stop == |rows|
       case Some(error) => Begins(rows, stop) && Stops(error, rows, stop, depth)
  }

  ghost predicate InOrder(rows: seq<Row>, n: nat, starts: seq<nat>, stop: nat) {
    && (forall k | 0 <= k < |starts| :: n <= starts[k] < stop && Begins(rows, starts[k]))
    && (forall j, k | 0 <= j < k < |starts| :: starts[j] < starts[k])
  }

  /** Each state is the one that the group at its start yields. */
  ghost predicate AllYield(states: seq<KernelState>, rows: seq<Row>, starts: seq<nat>, depth: nat) {
    && |starts| == |states|
    && (states == [] || (YieldsAt(states[0], rows, starts[0], depth) && AllYield(states[1..], rows, starts[1..], depth)))
  }

  ghost predicate YieldsAt(state: KernelState, rows: seq<Row>, b: nat, depth: nat) {
    b < |rows| && Yields(state, rows, b, depth)
  }

  ghost predicate NoneLeftOut(rows: seq<Row>, n: nat, starts: seq<nat>, stop: nat) {
    forall b: nat | n <= b < stop && Begins(rows, b) :: TradesHold(rows, b) && (Ready(rows, b) <==> b in starts)
  }

  lemma {:induction false} InOrderCons(rows: seq<Row>, n: nat, e: nat, starts: seq<nat>, stop: nat)
    requires n < e <= stop && Begins(rows, n) && InOrder(rows, e, starts, stop)
    ensures InOrder(rows, n, [n] + starts, stop)
  {
    var all := [n] + starts;
    assert forall k | 1 <= k < |all| :: all[k] == starts[k - 1];
  }

  lemma {:induction false} AllYieldCons(
    state: KernelState, states: seq<KernelState>, rows: seq<Row>, n: nat, starts: seq<nat>, depth: nat)
    requires YieldsAt(state, rows, n, depth) && AllYield(states, rows, starts, depth)
    ensures AllYield([state] + states, rows, [n] + starts, depth)
  {
    assert ([state] + states)[1..] == states && ([n] + starts)[1..] == starts;
  }

  lemma {:induction false} CompleteMore(rows: seq<Row>, n: nat, starts: seq<nat>, stop: nat, all: seq<nat>)
    requires Begins(rows, n) && TradesHold(rows, n) && NoneLeftOut(rows, EndOf(rows, n), starts, stop)
    requires all == if Ready(rows, n) then [n] + starts else starts
    requires InOrder(rows, EndOf(rows, n), starts, stop)
    ensures NoneLeftOut(rows, n, all, stop)
  {
    OneGroup(rows, n);
    forall b: nat | n <= b < stop && Begins(rows, b) ensures TradesHold(rows, b) && (Ready(rows, b) <==> b in all) {
      if b == n {
        assert n !in starts;
      } else {
        assert b >= EndOf(rows, n);
      }
    }
  }

  lemma {:induction false} InOrderWidens(rows: seq<Row>, n: nat, e: nat, starts: seq<nat>, stop: nat)
    requires n <= e && InOrder(rows, e, starts, stop)
    ensures InOrder(rows, n, starts, stop)
  {
  }

  /** The replay of the rows from the start of a group on, as the source tells it. */
  ghost function ReplayAt(rows: seq<Row>, n: nat, depth: nat): Outcome
    requires depth > 0 && n <= |rows|
  {
    Replay(rows[n..], BookAfter(rows[..n]), GroupsBefore(rows, n), depth)
  }

  ghost function StateAt(rows: seq<Row>, n: nat, depth: nat): KernelState
    requires depth > 0 && n < |rows| && GroupAt(rows, n).book.Complete()
  {
    StateOf(GroupAt(rows, n), rows[n].localTs, GroupsBefore(rows, n), depth)
  }

  lemma {:induction false} FirstGroupOf(rows: seq<Row>, n: nat)
    requires Begins(rows, n)
    ensures rows[n..][..RunLength(rows[n..])] == rows[n..EndOf(rows, n)]
    ensures rows[n..][RunLength(rows[n..])..] == rows[EndOf(rows, n)..]
    ensures GroupsBefore(rows, EndOf(rows, n)) == GroupsBefore(rows, n) + 1
    ensures GroupAt(rows, n).book == BookAfter(rows[..EndOf(rows, n)])
  {
    var e := EndOf(rows, n);
    OneGroup(rows, n);
    GroupBook(rows[..n], rows[n..e]);
    assert rows[..n] + rows[n..e] == rows[..e];
  }

  lemma {:induction false} ReplayAtUnfolds(rows: seq<Row>, n: nat, depth: nat)
    requires depth > 0 && Begins(rows, n)
    ensures GoesOn(ReplayAt(rows, n, depth), GroupAt(rows, n), rows[n].localTs, GroupsBefore(rows, n), depth,
                   ReplayAt(rows, EndOf(rows, n), depth))
  {
    FirstGroupOf(rows, n);
    ReplayUnfolds(rows[n..], rows[n..EndOf(rows, n)], rows[EndOf(rows, n)..], BookAfter(rows[..n]), GroupsBefore(rows, n), depth);
  }

  lemma {:induction false} TellsFrom(rows: seq<Row>, n: nat, depth: nat) returns (starts: seq<nat>, stop: nat)
    requires depth > 0 && n <= |rows| && (n < |rows| ==> Begins(rows, n))
    ensures Tells(rows, n, depth, ReplayAt(rows, n, depth), starts, stop)
    decreases |rows| - n
  {
    if n == |rows| {
      return [], n;
    }
    OneGroup(rows, n);
    GroupShows(rows, n, depth);
    ReplayAtUnfolds(rows, n, depth);
    if !TradesHold(rows, n) {
      return [], n;
    }
    if Ready(rows, n) {
      ProblemExactly(StateAt(rows, n, depth), rows, n, depth);
      if Problem(StateAt(rows, n, depth)).Some? {
        return [], n;
      }
    }
    var e := EndOf(rows, n);
    var later;
    later, stop := TellsFrom(rows, e, depth);
    starts := if Ready(rows, n) then [n] + later else later;
    CompleteMore(rows, n, later, stop, starts);
    if Ready(rows, n) {
      InOrderCons(rows, n, e, later, stop);
      AllYieldCons(StateAt(rows, n, depth), ReplayAt(rows, e, depth).states, rows, n, later, depth);
    } else {
      InOrderWidens(rows, n, e, later, stop);
    }
  }

  /** For any rows: what the replay yields, in order, and exactly where and why it stops. */
  lemma {:induction false} ReplayTellsTheRows(rows: seq<Row>, depth: nat) returns (starts: seq<nat>, stop: nat)
    requires depth > 0
    ensures Tells(rows, 0, depth, Replay(rows, EmptyBook, 0, depth), starts, stop)
  {
    assert rows[0..] == rows && rows[..0] == [];
    starts, stop := TellsFrom(rows, 0, depth);
  }
}
