/**
 The local-arrival replay: rows grouped by local timestamp are folded into bid
 and ask ladders, and one kernel state is emitted per group.
 */
module BookReplay {
  import opened Wrappers
  import opened Market
  import opened Conversion

  type Ladder = map<real, real>

  datatype Book = Book(bids: Ladder, asks: Ladder, bidTs: Option<nat>, askTs: Option<nat>)
  {
    function Side(side: Side): Ladder { if side == Bid then bids else asks }

    predicate Complete() { |bids| > 0 && |asks| > 0 && bidTs.Some? && askTs.Some? }
  }

  const EmptyBook := Book(map[], map[], None, None)

  datatype ReplayError = InvalidTrade | CrossedBook | InvalidState

  /** Everything yielded before the end of the rows or before the first error. */
  datatype Outcome = Outcome(states: seq<KernelState>, error: Option<ReplayError>)

  // ----- one row -----

  function ApplyDepth(side: Side, ladder: Ladder, kind: RowKind, price: real, qty: real): Ladder {
    match kind
    case ClearRow => map p | p in ladder && Better(side, price, p) :: ladder[p]
    case BboRow =>
      var kept := map p | p in ladder && !Better(side, p, price) :: ladder[p];
      if qty == 0.0 then kept - {price} else kept[price := qty]
    case _ => if qty == 0.0 then ladder - {price} else ladder[price := qty]
  }

  datatype Group = Group(book: Book, exchangeTs: nat, trades: seq<KernelTrade>)

  function TradeOf(row: Row): KernelTrade {
    KernelTrade(row.exchTs, row.localTs, row.price, row.qty,
                if row.buy then Buyer else if row.sell then Seller else Unattributed)
  }

  function ApplyRow(g: Group, row: Row): Group {
    var exchangeTs := Max(g.exchangeTs, row.exchTs);
    if row.kind == TradeRow then Group(g.book, exchangeTs, g.trades + [TradeOf(row)])
    else if row.buy then
      Group(g.book.(bids := ApplyDepth(Bid, g.book.bids, row.kind, row.price, row.qty), bidTs := Some(row.exchTs)),
            exchangeTs, g.trades)
    else
      Group(g.book.(asks := ApplyDepth(Ask, g.book.asks, row.kind, row.price, row.qty), askTs := Some(row.exchTs)),
            exchangeTs, g.trades)
  }

  function ApplyRows(g: Group, rows: seq<Row>): Group {
    if rows == [] then g
    else ApplyRow(ApplyRows(g, rows[..|rows| - 1]), rows[|rows| - 1])
  }

  lemma {:induction false} ApplyRowsAppend(g: Group, a: seq<Row>, b: seq<Row>)
    ensures ApplyRows(g, a + b) == ApplyRows(ApplyRows(g, a), b)
  {
    if b == [] {
      assert a + b == a;
    } else {
      ApplyRowsAppend(g, a, b[..|b| - 1]);
      assert (a + b)[..|a + b| - 1] == a + b[..|b| - 1];
    }
  }

  // ----- reading a ladder in price order -----

  lemma {:induction false} BestExists(side: Side, prices: set<real>)
    requires prices != {}
    ensures exists p :: p in prices && forall q | q in prices :: q == p || Better(side, p, q)
  {
    if forall x :: x !in prices {
      assert false;
    }
    var x :| x in prices;
    if prices == {x} {
      assert x in prices && forall q | q in prices :: q == x || Better(side, x, q);
    } else {
      var others := prices - {x};
      assert others != {};
      BestExists(side, others);
      var y :| y in others && forall q | q in others :: q == y || Better(side, y, q);
      var best := if Better(side, x, y) then x else y;
      forall q | q in prices ensures q == best || Better(side, best, q) {
        assert q == x || q in others;
      }
      assert best in prices;
    }
  }

  function BestPrice(side: Side, prices: set<real>): (p: real)
    requires prices != {}
    ensures p in prices && forall q | q in prices :: q == p || Better(side, p, q)
  {
    BestExists(side, prices);
    var p :| p in prices && forall q | q in prices :: q == p || Better(side, p, q);
    p
  }

  /** The ladder as a list sorted from the best price. */
  function Sorted(side: Side, ladder: Ladder): seq<Level>
    decreases |ladder|
  {
    if ladder == map[] then []
    else
      var p := BestPrice(side, ladder.Keys);
      assert (ladder - {p}).Keys == ladder.Keys - {p};
      [Level(p, ladder[p])] + Sorted(side, ladder - {p})
  }

  function Top(levels: seq<Level>, depth: nat): (r: seq<Level>)
    ensures |r| == if depth < |levels| then depth else |levels|
    ensures r == levels[..|r|]
  {
    if depth < |levels| then levels[..depth] else levels
  }

  // ----- one group and the whole replay -----

  function StateOf(g: Group, localTs: nat, sequence: nat, depth: nat): KernelState
    requires g.book.Complete()
  {
    var bidTs, askTs := g.book.bidTs.value, g.book.askTs.value;
    KernelState(
      Max(g.exchangeTs, Max(bidTs, askTs)),
      if bidTs < askTs then bidTs else askTs,
      localTs, sequence,
      Top(Sorted(Bid, g.book.bids), depth),
      Top(Sorted(Ask, g.book.asks), depth),
      g.trades)
  }

  /** Number of leading rows that share the first row's local timestamp. */
  function RunLength(rows: seq<Row>): (n: nat)
    requires rows != []
    ensures 0 < n <= |rows|
    ensures forall i | 0 <= i < n :: rows[i].localTs == rows[0].localTs
    ensures n < |rows| ==> rows[n].localTs != rows[0].localTs
    decreases |rows|
  {
    if |rows| == 1 || rows[1].localTs != rows[0].localTs then 1 else 1 + RunLength(rows[1..])
  }

  predicate AllValidTrades(trades: seq<KernelTrade>) {
    forall i | 0 <= i < |trades| :: trades[i].Valid()
  }

  predicate AllValidLevels(levels: seq<Level>) {
    forall i | 0 <= i < |levels| :: ValidLevel(levels[i])
  }

  /** What stops the replay at a state of a complete book: its levels, a crossed top, or one of its other checks. */
  function Problem(state: KernelState): Option<ReplayError> {
    if !AllValidLevels(state.bids) || !AllValidLevels(state.asks) then Some(InvalidState)
    else if |state.bids| > 0 && |state.asks| > 0 && state.bids[0].price >= state.asks[0].price then Some(CrossedBook)
    else if !state.Valid() then Some(InvalidState)
    else None
  }

  function Replay(rows: seq<Row>, book: Book, sequence: nat, depth: nat): Outcome
    requires depth > 0
  {
    if rows == [] then Outcome([], None)
    else
      var n := RunLength(rows);
      var g := ApplyRows(Group(book, 0, []), rows[..n]);
      if !AllValidTrades(g.trades) then Outcome([], Some(InvalidTrade))
      else if !g.book.Complete() then Replay(rows[n..], g.book, sequence + 1, depth)
      else
        var state := StateOf(g, rows[0].localTs, sequence, depth);
        if Problem(state).Some? then Outcome([], Problem(state))
        else
          var rest := Replay(rows[n..], g.book, sequence + 1, depth);
          Outcome([state] + rest.states, rest.error)
  }

  /** What a replay comes to after its first group, given what the replay of the later rows comes to. */
  ghost predicate GoesOn(o: Outcome, g: Group, localTs: nat, sequence: nat, depth: nat, later: Outcome) {
    o == if !AllValidTrades(g.trades) then Outcome([], Some(InvalidTrade))
         else if !g.book.Complete() then later
         else
           var state := StateOf(g, localTs, sequence, depth);
           if Problem(state).Some? then Outcome([], Problem(state))
           else Outcome([state] + later.states, later.error)
  }

  lemma {:induction false} ReplayUnfolds(rows: seq<Row>, now: seq<Row>, rest: seq<Row>, book: Book, sequence: nat, depth: nat)
    requires depth > 0 && rows != [] && now == rows[..RunLength(rows)] && rest == rows[RunLength(rows)..]
    ensures var g := ApplyRows(Group(book, 0, []), now);
            GoesOn(Replay(rows, book, sequence, depth), g, rows[0].localTs, sequence, depth,
                   Replay(rest, g.book, sequence + 1, depth))
  {
  }

  /** One more state in front of what was yielded before it. */
  lemma {:induction false} YieldedSoFar(states: seq<KernelState>, state: KernelState, later: seq<KernelState>)
    ensures states + ([state] + later) == (states + [state]) + later
  {
  }

  /** The trades of the first rows of a group stay the first trades of the group. */
  lemma {:induction false} TradesGrow(g: Group, rows: seq<Row>, n: nat)
    requires n <= |rows|
    ensures ApplyRows(g, rows[..n]).trades <= ApplyRows(g, rows).trades
  {
    if n == |rows| {
      assert rows[..n] == rows;
    } else {
      TradesGrow(g, rows[..|rows| - 1], n);
      assert rows[..|rows| - 1][..n] == rows[..n];
    }
  }

  lemma {:induction false} FailsWithItsPart(g: Group, rows: seq<Row>, n: nat)
    requires n <= |rows| && !AllValidTrades(ApplyRows(g, rows[..n]).trades)
    ensures !AllValidTrades(ApplyRows(g, rows).trades)
  {
    TradesGrow(g, rows, n);
    var part := ApplyRows(g, rows[..n]).trades;
    var i :| 0 <= i < |part| && !part[i].Valid();
    assert ApplyRows(g, rows).trades[i] == part[i];
  }

  /** The inner loop: one group of rows updates the ladders in place, up to the first trade that cannot be built. */
  method ApplyGroup(rows: seq<Row>, book: Book) returns (g: Group, n: nat, failed: bool)
    requires rows != []
    ensures failed <==> !AllValidTrades(ApplyRows(Group(book, 0, []), rows[..RunLength(rows)]).trades)
    ensures !failed ==> n == RunLength(rows) && g == ApplyRows(Group(book, 0, []), rows[..n])
  {
    var bids, asks, bidTs, askTs := book.bids, book.asks, book.bidTs, book.askTs;
    var exchangeTs := 0;
    var trades: seq<KernelTrade> := [];
    n, failed := 0, false;
    while n < |rows| && rows[n].localTs == rows[0].localTs
      invariant n <= RunLength(rows)
      invariant Group(Book(bids, asks, bidTs, askTs), exchangeTs, trades)
             == ApplyRows(Group(book, 0, []), rows[..n])
      invariant AllValidTrades(trades) && !failed
    {
      var row := rows[n];
      assert rows[..n + 1][..n] == rows[..n];
      exchangeTs := Max(exchangeTs, row.exchTs);
      if row.kind == TradeRow {
        trades := trades + [TradeOf(row)];
        if !TradeOf(row).Valid() {
          g, failed := Group(Book(bids, asks, bidTs, askTs), exchangeTs, trades), true;
          assert !trades[|trades| - 1].Valid();
          assert rows[..RunLength(rows)][..n + 1] == rows[..n + 1];
          FailsWithItsPart(Group(book, 0, []), rows[..RunLength(rows)], n + 1);
          return;
        }
      } else if row.buy {
        bidTs := Some(row.exchTs);
        bids := ApplyDepth(Bid, bids, row.kind, row.price, row.qty);
      } else {
        askTs := Some(row.exchTs);
        asks := ApplyDepth(Ask, asks, row.kind, row.price, row.qty);
      }
      n := n + 1;
    }
    g := Group(Book(bids, asks, bidTs, askTs), exchangeTs, trades);
  }

  /** The generator itself: one state per group of rows with the same local timestamp. */
  method IterHftMarketStates(rows: seq<Row>, depthLevels: int) returns (r: Option<Outcome>)
    ensures r.None? <==> depthLevels < 1
    ensures r.Some? ==> r.value == Replay(rows, EmptyBook, 0, depthLevels)
  {
    if depthLevels < 1 { return None; }
    var book := EmptyBook;
    var states: seq<KernelState> := [];
    var rest, sequence := rows, 0;
    ghost var whole := Replay(rows, EmptyBook, 0, depthLevels);
    while rest != []
      invariant var o := Replay(rest, book, sequence, depthLevels);
                whole == Outcome(states + o.states, o.error)
      decreases |rest|
    {
      var g, n, failed := ApplyGroup(rest, book);
      ReplayUnfolds(rest, rest[..RunLength(rest)], rest[RunLength(rest)..], book, sequence, depthLevels);
      if failed { return Some(Outcome(states, Some(InvalidTrade))); }
      book := g.book;
      if book.Complete() {
        var state := StateOf(g, rest[0].localTs, sequence, depthLevels);
        if !AllValidLevels(state.bids) || !AllValidLevels(state.asks) {
          return Some(Outcome(states, Some(InvalidState)));
        }
        if state.bids[0].price >= state.asks[0].price {
          return Some(Outcome(states, Some(CrossedBook)));
        }
        if !state.Valid() {
          return Some(Outcome(states, Some(InvalidState)));
        }
        YieldedSoFar(states, state, Replay(rest[n..], book, sequence + 1, depthLevels).states);
        states := states + [state];
      }
      rest, sequence := rest[n..], sequence + 1;
    }
    return Some(Outcome(states, None));
  }
}
