/**
 Conversion followed by replay preserves the order book.

 The reference below never looks at rows: it reads the merged events directly.
 `Arrived(events, t)` lists what had been received by local time `t`, and
 `Depth` answers what size, if any, those events leave at one price.
 */
module ReplayCorrectness {
  import opened Wrappers
  import opened Market
  import opened Conversion
  import opened BookReplay

  // ----- the reference -----

  /** The events received exactly at local time `t`, in merge order. */
  ghost function EventsAt(events: seq<Event>, t: int): seq<Event> {
    if events == [] then []
    else
      var e := events[|events| - 1];
      EventsAt(events[..|events| - 1], t) + if e.receiveTs == t then [e] else []
  }

  /** The events received at or before `t`, in order of local time and then of merge order. */
  ghost function Arrived(events: seq<Event>, t: int): seq<Event>
    decreases if t < 0 then 0 else t + 1
  {
    if t < 0 then [] else Arrived(events, t - 1) + EventsAt(events, t)
  }

  /** The last book event of a list of arrivals. */
  ghost function LastBook(arrived: seq<Event>): Option<Event> {
    if arrived == [] then None
    else
      var e := arrived[|arrived| - 1];
      if e.IsBook() then Some(e) else LastBook(arrived[..|arrived| - 1])
  }

  /** The size a list of levels shows at price `p`. */
  ghost function Quoted(levels: seq<Level>, p: real): Option<real> {
    if levels == [] then None
    else
      var last := levels[|levels| - 1];
      if last.price == p then Some(last.size) else Quoted(levels[..|levels| - 1], p)
  }

  /**
   The size resting at price `p`: the newest event that says anything about `p`
   decides.  A snapshot or quote shows `p`, or hides it when `p` is at least as
   good as the worst price it reports; deeper prices keep their older size.
   */
  ghost function Depth(arrived: seq<Event>, side: Side, p: real): Option<real> {
    if arrived == [] then None
    else
      var e, older := arrived[|arrived| - 1], arrived[..|arrived| - 1];
      if e.IsBook() && e.Levels(side) != [] then Updated(side, e.Levels(side), p, Depth(older, side, p))
      else Depth(older, side, p)
  }

  ghost function Updated(side: Side, levels: seq<Level>, p: real, before: Option<real>): Option<real>
    requires levels != []
  {
    if Quoted(levels, p).Some? then Quoted(levels, p)
    else if Better(side, levels[|levels| - 1].price, p) then before
    else None
  }

  /** `levels` are the best `depth` prices of the reference book. */
  ghost predicate IsTop(levels: seq<Level>, arrived: seq<Event>, side: Side, depth: nat) {
    && |levels| <= depth
    && BestFirst(side, levels)
    && (forall i | 0 <= i < |levels| :: Depth(arrived, side, levels[i].price) == Some(levels[i].size))
    && (forall p | Depth(arrived, side, p).Some? ::
          || (exists i :: 0 <= i < |levels| && levels[i].price == p)
          || (|levels| == depth && forall i | 0 <= i < |levels| :: Better(side, levels[i].price, p)))
  }

  ghost function TradesOf(events: seq<Event>): seq<KernelTrade> {
    if events == [] then []
    else
      var e := events[|events| - 1];
      TradesOf(events[..|events| - 1]) +
      if e.Trade? then [KernelTrade(e.eventTs, e.receiveTs, e.price, e.size, e.aggressor)] else []
  }

  ghost function LatestExchange(events: seq<Event>): nat {
    if events == [] then 0
    else Max(LatestExchange(events[..|events| - 1]), events[|events| - 1].eventTs)
  }

  /** How many distinct local times before `t` carried any event. */
  ghost function Rank(events: seq<Event>, t: int): nat
    decreases if t < 0 then 0 else t + 1
  {
    if t <= 0 then 0 else Rank(events, t - 1) + if EventsAt(events, t - 1) != [] then 1 else 0
  }

  /** The state a reader of the merged events expects at local time `state.observedTs`. */
  ghost predicate Expected(state: KernelState, events: seq<Event>, depth: nat) {
    var arrived := Arrived(events, state.observedTs);
    var book := LastBook(arrived);
    var now := EventsAt(events, state.observedTs);
    && now != []
    && book.Some?
    && state.exchangeTs == Max(LatestExchange(now), book.value.eventTs)
    && state.bookExchangeTs == book.value.eventTs
    && state.sequence == Rank(events, state.observedTs)
    && state.trades == TradesOf(now)
    && IsTop(state.bids, arrived, Bid, depth)
    && IsTop(state.asks, arrived, Ask, depth)
  }

  // ----- what the replay library guarantees about row order -----

  ghost function RowsAt(rows: seq<Row>, t: int): seq<Row> {
    if rows == [] then []
    else
      var row := rows[|rows| - 1];
      RowsAt(rows[..|rows| - 1], t) + if row.localTs == t then [row] else []
  }

  ghost predicate SortedByLocal(rows: seq<Row>) {
    forall i, j | 0 <= i < j < |rows| :: rows[i].localTs <= rows[j].localTs
  }

  /** `ordered` is the stable sort of `rows` by local time. */
  ghost predicate StablyOrdered(rows: seq<Row>, ordered: seq<Row>) {
    && SortedByLocal(ordered)
    && forall t: int :: RowsAt(ordered, t) == RowsAt(rows, t)
  }

  // ----- rows of one event rebuild exactly that event -----

  ghost function Lookup(ladder: Ladder, p: real): Option<real> {
    if p in ladder then Some(ladder[p]) else None
  }

  /** The effect of one book event on one ladder, with no row in between. */
  ghost predicate LadderAfter(ladder: Ladder, before: Ladder, side: Side, levels: seq<Level>)
    requires levels != []
  {
    forall p :: Lookup(ladder, p) == Updated(side, levels, p, Lookup(before, p))
  }

  ghost function Install(ladder: Ladder, levels: seq<Level>): Ladder {
    if levels == [] then ladder
    else Install(ladder, levels[..|levels| - 1])[levels[|levels| - 1].price := levels[|levels| - 1].size]
  }

  lemma {:induction false} LevelRowsInstall(g: Group, side: Side, e: Event, levels: seq<Level>)
    requires forall i | 0 <= i < |levels| :: ValidLevel(levels[i])
    requires g.exchangeTs >= e.eventTs
    requires (if side == Bid then g.book.bidTs else g.book.askTs) == Some(e.eventTs)
    ensures ApplyRows(g, LevelRows(side, e, levels)) ==
            if side == Bid then g.(book := g.book.(bids := Install(g.book.bids, levels)))
            else g.(book := g.book.(asks := Install(g.book.asks, levels)))
  {
    if levels != [] {
      var init := levels[..|levels| - 1];
      LevelRowsInstall(g, side, e, init);
      var rows := LevelRows(side, e, levels);
      assert rows[..|rows| - 1] == LevelRows(side, e, init);
    }
  }

  lemma {:induction false} InstallMeaning(ladder: Ladder, levels: seq<Level>, p: real)
    ensures Lookup(Install(ladder, levels), p) ==
            if Quoted(levels, p).Some? then Quoted(levels, p) else Lookup(ladder, p)
  {
    if levels != [] {
      InstallMeaning(ladder, levels[..|levels| - 1], p);
    }
  }

  lemma {:induction false} QuotedMeaning(side: Side, levels: seq<Level>, p: real)
    requires BestFirst(side, levels)
    ensures forall i | 0 <= i < |levels| && levels[i].price == p :: Quoted(levels, p) == Some(levels[i].size)
    ensures Quoted(levels, p).Some? ==> exists i :: 0 <= i < |levels| && levels[i].price == p
  {
    if levels != [] {
      var init := levels[..|levels| - 1];
      QuotedMeaning(side, init, p);
      if levels[|init|].price != p && Quoted(init, p).Some? {
        var i :| 0 <= i < |init| && init[i].price == p;
        assert levels[i].price == p;
      }
    }
  }

  ghost predicate SideRebuilt(after: Group, g: Group, side: Side, e: Event, levels: seq<Level>)
    requires |levels| > 0
  {
    && LadderAfter(after.book.Side(side), g.book.Side(side), side, levels)
    && after.exchangeTs == Max(g.exchangeTs, e.eventTs)
    && after.trades == g.trades
    && (side == Bid ==> after.book == g.book.(bids := after.book.bids, bidTs := Some(e.eventTs)))
    && (side == Ask ==> after.book == g.book.(asks := after.book.asks, askTs := Some(e.eventTs)))
  }

  lemma {:induction false} SideRowsRebuild(g: Group, side: Side, e: Event, levels: seq<Level>)
    requires |levels| > 0 && BestFirst(side, levels)
    requires forall i | 0 <= i < |levels| :: ValidLevel(levels[i])
    ensures SideRebuilt(ApplyRows(g, SideRows(side, e, levels)), g, side, e, levels)
  {
    var clear := [DepthFlagged(ClearRow, side, e, WorstPrice(side, levels), 0.0)];
    ApplyRowsAppend(g, clear, LevelRows(side, e, levels));
    WorstPriceIsLast(side, levels);
    assert clear[..0] == [];
    var cleared := ApplyRows(g, clear);
    assert cleared == ApplyRow(g, clear[0]);
    LevelRowsInstall(cleared, side, e, levels);
    var after := ApplyRows(g, SideRows(side, e, levels)).book.Side(side);
    forall p ensures Lookup(after, p) == Updated(side, levels, p, Lookup(g.book.Side(side), p)) {
      InstallMeaning(cleared.book.Side(side), levels, p);
    }
  }

  lemma {:induction false} QuoteRebuilds(before: Ladder, side: Side, quote: Level)
    requires ValidLevel(quote)
    ensures LadderAfter(ApplyDepth(side, before, BboRow, quote.price, quote.size), before, side, [quote])
  {
    assert [quote][..0] == [];
    var after := ApplyDepth(side, before, BboRow, quote.price, quote.size);
    forall p ensures Lookup(after, p) == Updated(side, [quote], p, Lookup(before, p)) {
      assert Quoted([quote], p) == if quote.price == p then Some(quote.size) else None;
    }
  }

  ghost predicate EventApplied(after: Group, g: Group, e: Event) {
    && after.exchangeTs == Max(g.exchangeTs, e.eventTs)
    && after.trades == g.trades + TradesOf([e])
    && (e.Trade? ==> after.book == g.book)
    && (e.IsBook() ==>
          && |e.Levels(Bid)| > 0 && |e.Levels(Ask)| > 0
          && LadderAfter(after.book.bids, g.book.bids, Bid, e.Levels(Bid))
          && LadderAfter(after.book.asks, g.book.asks, Ask, e.Levels(Ask))
          && after.book.bidTs == Some(e.eventTs) && after.book.askTs == Some(e.eventTs))
  }

  lemma {:induction false} ExpandApplies(g: Group, e: Event)
    requires e.Valid()
    ensures EventApplied(ApplyRows(g, Expand(e)), g, e)
  {
    assert [e][..0] == [];
    assert TradesOf([e]) == if e.Trade? then [KernelTrade(e.eventTs, e.receiveTs, e.price, e.size, e.aggressor)] else [];
    var rows := Expand(e);
    match e {
      case Trade(_, _, _, _, _) =>
        assert rows[..0] == [];
        assert ApplyRows(g, rows) == ApplyRow(g, rows[0]);
      case Bbo(_, _, bid, ask) =>
        assert rows[..1][..0] == [] && rows[..1][0] == rows[0];
        assert ApplyRows(g, rows[..1]) == ApplyRow(g, rows[0]);
        assert ApplyRows(g, rows) == ApplyRow(ApplyRow(g, rows[0]), rows[1]);
        QuoteRebuilds(g.book.bids, Bid, bid);
        QuoteRebuilds(g.book.asks, Ask, ask);
      case L2Book(_, _, bids, asks) =>
        ApplyRowsAppend(g, SideRows(Bid, e, bids), SideRows(Ask, e, asks));
        SideRowsRebuild(g, Bid, e, bids);
        SideRowsRebuild(ApplyRows(g, SideRows(Bid, e, bids)), Ask, e, asks);
    }
  }

  // ----- ladders always agree with the reference -----

  ghost predicate LadderMatches(ladder: Ladder, arrived: seq<Event>, side: Side) {
    forall p :: Lookup(ladder, p) == Depth(arrived, side, p)
  }

  ghost predicate Matches(book: Book, arrived: seq<Event>) {
    && LadderMatches(book.bids, arrived, Bid)
    && LadderMatches(book.asks, arrived, Ask)
    && book.bidTs == book.askTs
    && (book.bidTs.Some? <==> LastBook(arrived).Some?)
    && (book.bidTs.Some? ==> book.bidTs.value == LastBook(arrived).value.eventTs)
  }

  lemma {:induction false} LadderStep(after: Ladder, before: Ladder, arrived: seq<Event>, e: Event, side: Side)
    requires e.IsBook() && e.Levels(side) != []
    requires LadderMatches(before, arrived, side)
    requires LadderAfter(after, before, side, e.Levels(side))
    ensures LadderMatches(after, arrived + [e], side)
  {
    assert (arrived + [e])[..|arrived|] == arrived;
    forall p ensures Lookup(after, p) == Depth(arrived + [e], side, p) {
      assert Lookup(before, p) == Depth(arrived, side, p);
    }
  }

  lemma {:induction false} LadderKept(ladder: Ladder, arrived: seq<Event>, e: Event, side: Side)
    requires e.Trade? && LadderMatches(ladder, arrived, side)
    ensures LadderMatches(ladder, arrived + [e], side)
  {
    assert (arrived + [e])[..|arrived|] == arrived;
    forall p ensures Lookup(ladder, p) == Depth(arrived + [e], side, p) {
      assert Lookup(ladder, p) == Depth(arrived, side, p);
    }
  }

  lemma {:induction false} EventStep(g: Group, arrived: seq<Event>, e: Event)
    requires e.Valid() && Matches(g.book, arrived)
    ensures Matches(ApplyRows(g, Expand(e)).book, arrived + [e])
  {
    ExpandApplies(g, e);
    var after := ApplyRows(g, Expand(e));
    assert (arrived + [e])[..|arrived|] == arrived;
    if e.IsBook() {
      LadderStep(after.book.bids, g.book.bids, arrived, e, Bid);
      LadderStep(after.book.asks, g.book.asks, arrived, e, Ask);
      assert LastBook(arrived + [e]) == Some(e);
    } else {
      LadderKept(g.book.bids, arrived, e, Bid);
      LadderKept(g.book.asks, arrived, e, Ask);
      assert LastBook(arrived + [e]) == LastBook(arrived);
    }
  }

  lemma {:induction false} GroupMatches(start: Group, older: seq<Event>, now: seq<Event>)
    requires AllValid(now) && Matches(start.book, older)
    ensures Matches(ApplyRows(start, RowsOf(now)).book, older + now)
  {
    if now == [] {
      assert older + now == older;
    } else {
      var init, e := now[..|now| - 1], now[|now| - 1];
      GroupMatches(start, older, init);
      ApplyRowsAppend(start, RowsOf(init), Expand(e));
      EventStep(ApplyRows(start, RowsOf(init)), older + init, e);
      assert older + now == older + init + [e];
    }
  }

  lemma {:induction false} ExpandCollects(g: Group, e: Event)
    requires e.Valid()
    ensures ApplyRows(g, Expand(e)).exchangeTs == Max(g.exchangeTs, e.eventTs)
    ensures ApplyRows(g, Expand(e)).trades == g.trades +
            if e.Trade? then [KernelTrade(e.eventTs, e.receiveTs, e.price, e.size, e.aggressor)] else []
  {
    ExpandApplies(g, e);
    assert [e][..0] == [];
    assert TradesOf([]) == [];
  }

  lemma {:induction false} GroupCollects(book: Book, now: seq<Event>)
    requires AllValid(now)
    ensures ApplyRows(Group(book, 0, []), RowsOf(now)).exchangeTs == LatestExchange(now)
    ensures ApplyRows(Group(book, 0, []), RowsOf(now)).trades == TradesOf(now)
  {
    if now != [] {
      var init, e := now[..|now| - 1], now[|now| - 1];
      GroupCollects(book, init);
      var start := Group(book, 0, []);
      ApplyRowsAppend(start, RowsOf(init), Expand(e));
      ExpandCollects(ApplyRows(start, RowsOf(init)), e);
    }
  }

  // ----- facts about the last book of a list of arrivals -----

  lemma {:induction false} LastBookOnTop(arrived: seq<Event>, side: Side)
    requires AllValid(arrived) && LastBook(arrived).Some?
    ensures LastBook(arrived).value in arrived
    ensures LastBook(arrived).value.Valid() && LastBook(arrived).value.IsBook()
    ensures var levels := LastBook(arrived).value.Levels(side);
            && BestFirst(side, levels) && |levels| > 0
            && (forall i | 0 <= i < |levels| :: Depth(arrived, side, levels[i].price) == Some(levels[i].size))
            && (forall p | Depth(arrived, side, p).Some? ::
                  || (exists i :: 0 <= i < |levels| && levels[i].price == p)
                  || Better(side, levels[|levels| - 1].price, p))
  {
    var e, older := arrived[|arrived| - 1], arrived[..|arrived| - 1];
    if e.IsBook() {
      var levels := e.Levels(side);
      forall p ensures Depth(arrived, side, p) == Updated(side, levels, p, Depth(older, side, p)) {}
      forall i | 0 <= i < |levels| ensures Depth(arrived, side, levels[i].price) == Some(levels[i].size) {
        QuotedMeaning(side, levels, levels[i].price);
      }
      forall p | Depth(arrived, side, p).Some?
        ensures || (exists i :: 0 <= i < |levels| && levels[i].price == p)
                || Better(side, levels[|levels| - 1].price, p)
      {
        QuotedMeaning(side, levels, p);
      }
    } else {
      LastBookOnTop(older, side);
      forall p ensures Depth(arrived, side, p) == Depth(older, side, p) {}
    }
  }

  lemma {:induction false} DepthIsValid(arrived: seq<Event>, side: Side, p: real)
    requires AllValid(arrived) && Depth(arrived, side, p).Some?
    ensures ValidLevel(Level(p, Depth(arrived, side, p).value))
  {
    var e, older := arrived[|arrived| - 1], arrived[..|arrived| - 1];
    if e.IsBook() && Quoted(e.Levels(side), p).Some? {
      QuotedMeaning(side, e.Levels(side), p);
    } else {
      DepthIsValid(older, side, p);
    }
  }

  lemma {:induction false} SortedLists(side: Side, ladder: Ladder)
    ensures |Sorted(side, ladder)| == |ladder|
    ensures forall i | 0 <= i < |Sorted(side, ladder)| ::
              Lookup(ladder, Sorted(side, ladder)[i].price) == Some(Sorted(side, ladder)[i].size)
    ensures BestFirst(side, Sorted(side, ladder))
    decreases |ladder|
  {
    if ladder != map[] {
      var p := BestPrice(side, ladder.Keys);
      var others := ladder - {p};
      assert others.Keys == ladder.Keys - {p};
      SortedLists(side, others);
      var rest := Sorted(side, others);
      forall i | 0 <= i < |rest| ensures rest[i].price in others && others[rest[i].price] == rest[i].size {
        assert Lookup(others, rest[i].price) == Some(rest[i].size);
      }
    }
  }

  lemma {:induction false} SortedCovers(side: Side, ladder: Ladder, q: real) returns (i: nat)
    requires q in ladder
    ensures i < |Sorted(side, ladder)| && Sorted(side, ladder)[i].price == q
    decreases |ladder|
  {
    var p := BestPrice(side, ladder.Keys);
    assert (ladder - {p}).Keys == ladder.Keys - {p};
    if q == p {
      i := 0;
    } else {
      i := SortedCovers(side, ladder - {p}, q);
      i := i + 1;
    }
  }

  lemma {:induction false} TopMatches(ladder: Ladder, arrived: seq<Event>, side: Side, depth: nat)
    requires LadderMatches(ladder, arrived, side)
    ensures IsTop(Top(Sorted(side, ladder), depth), arrived, side, depth)
  {
    SortedLists(side, ladder);
    var all, top := Sorted(side, ladder), Top(Sorted(side, ladder), depth);
    forall i | 0 <= i < |top| ensures Depth(arrived, side, top[i].price) == Some(top[i].size) {
      assert Lookup(ladder, all[i].price) == Depth(arrived, side, all[i].price);
    }
    forall p | Depth(arrived, side, p).Some?
      ensures || (exists i :: 0 <= i < |top| && top[i].price == p)
              || (|top| == depth && forall i | 0 <= i < |top| :: Better(side, top[i].price, p))
    {
      assert Lookup(ladder, p) == Depth(arrived, side, p);
      var i := SortedCovers(side, ladder, p);
      if i < |top| {
        assert top[i].price == p;
      }
    }
  }

  // ----- one group of ordered rows is one instant of events -----

  lemma {:induction false} RowsAtAppend(a: seq<Row>, b: seq<Row>, t: int)
    ensures RowsAt(a + b, t) == RowsAt(a, t) + RowsAt(b, t)
  {
    if b == [] {
      assert a + b == a;
    } else {
      RowsAtAppend(a, b[..|b| - 1], t);
      assert (a + b)[..|a + b| - 1] == a + b[..|b| - 1];
    }
  }

  lemma {:induction false} RowsAtUniform(rows: seq<Row>, local: nat, t: int)
    requires forall i | 0 <= i < |rows| :: rows[i].localTs == local
    ensures RowsAt(rows, t) == if local == t then rows else []
  {
    if rows != [] {
      RowsAtUniform(rows[..|rows| - 1], local, t);
    }
  }

  lemma {:induction false} LevelRowsLocal(side: Side, e: Event, levels: seq<Level>)
    ensures forall i | 0 <= i < |LevelRows(side, e, levels)| :: LevelRows(side, e, levels)[i].localTs == e.receiveTs
  {
    if levels != [] {
      LevelRowsLocal(side, e, levels[..|levels| - 1]);
    }
  }

  lemma {:induction false} ExpandLocal(e: Event, t: int)
    requires e.Valid()
    ensures RowsAt(Expand(e), t) == if e.receiveTs == t then Expand(e) else []
    ensures Expand(e) != []
  {
    if e.L2Book? {
      LevelRowsLocal(Bid, e, e.bids);
      LevelRowsLocal(Ask, e, e.asks);
    }
    RowsAtUniform(Expand(e), e.receiveTs, t);
  }

  lemma {:induction false} EventsAtValid(events: seq<Event>, t: int)
    ensures AllValid(events) ==> AllValid(EventsAt(events, t))
    ensures forall i | 0 <= i < |EventsAt(events, t)| ::
              EventsAt(events, t)[i].receiveTs == t && EventsAt(events, t)[i] in events
  {
    if events != [] {
      EventsAtValid(events[..|events| - 1], t);
      forall i | 0 <= i < |EventsAt(events, t)| ensures EventsAt(events, t)[i] in events {
        assert EventsAt(events, t)[i] in events[..|events| - 1] || EventsAt(events, t)[i] == events[|events| - 1];
      }
    }
  }

  lemma {:induction false} RowsOfSnoc(init: seq<Event>, e: Event)
    requires AllValid(init) && e.Valid()
    ensures AllValid(init + [e]) && RowsOf(init + [e]) == RowsOf(init) + Expand(e)
  {
    assert (init + [e])[..|init|] == init;
  }

  /** Expanding and then selecting an instant is selecting the instant and then expanding. */
  lemma {:induction false} RowsAtExpand(events: seq<Event>, t: int)
    requires AllValid(events)
    ensures AllValid(EventsAt(events, t)) && RowsAt(RowsOf(events), t) == RowsOf(EventsAt(events, t))
  {
    if events != [] {
      var init, e := events[..|events| - 1], events[|events| - 1];
      RowsAtExpand(init, t);
      RowsAtAppend(RowsOf(init), Expand(e), t);
      ExpandLocal(e, t);
      RowsOfSnoc(EventsAt(init, t), e);
      assert EventsAt(init, t) + [] == EventsAt(init, t);
    }
  }

  lemma {:induction false} RowsOfNothing(now: seq<Event>)
    requires AllValid(now)
    ensures RowsOf(now) == [] <==> now == []
  {
    if now != [] {
      ExpandLocal(now[|now| - 1], 0);
    }
  }

  lemma {:induction false} LaterGroups(rows: seq<Row>)
    requires rows != [] && SortedByLocal(rows)
    ensures SortedByLocal(rows[RunLength(rows)..])
    ensures forall i | RunLength(rows) <= i < |rows| :: rows[i].localTs > rows[0].localTs
  {
    var n := RunLength(rows);
    forall i | n <= i < |rows| ensures rows[i].localTs > rows[0].localTs {
      assert rows[n].localTs <= rows[i].localTs;
      assert rows[0].localTs <= rows[n].localTs;
    }
  }

  lemma {:induction false} FirstGroup(rows: seq<Row>, t: int)
    requires rows != [] && SortedByLocal(rows)
    ensures t == rows[0].localTs ==> RowsAt(rows, t) == rows[..RunLength(rows)]
    ensures t > rows[0].localTs ==> RowsAt(rows[RunLength(rows)..], t) == RowsAt(rows, t)
    ensures t < rows[0].localTs ==> RowsAt(rows, t) == []
  {
    var n, first := RunLength(rows), rows[0].localTs;
    LaterGroups(rows);
    RowsAtUniform(rows[..n], first, t);
    if t <= first {
      NoneAt(rows[n..], t);
    }
    SplitRowsAt(rows, n, t);
  }

  lemma {:induction false} SplitRowsAt(rows: seq<Row>, n: nat, t: int)
    requires n <= |rows|
    ensures RowsAt(rows, t) == RowsAt(rows[..n], t) + RowsAt(rows[n..], t)
  {
    RowsAtAppend(rows[..n], rows[n..], t);
    assert rows == rows[..n] + rows[n..];
  }

  lemma {:induction false} NoneAt(rows: seq<Row>, t: int)
    requires forall i | 0 <= i < |rows| :: rows[i].localTs > t
    ensures RowsAt(rows, t) == []
  {
    if rows != [] {
      NoneAt(rows[..|rows| - 1], t);
    }
  }

  lemma {:induction false} QuietInterval(events: seq<Event>, start: int, stop: int)
    requires -1 <= start < stop
    requires forall t | start < t < stop :: EventsAt(events, t) == []
    ensures Arrived(events, stop) == Arrived(events, start) + EventsAt(events, stop)
    ensures Rank(events, stop) == Rank(events, start + 1)
    decreases stop - start
  {
    if start + 1 < stop {
      QuietInterval(events, start, stop - 1);
      assert Arrived(events, stop - 1) == Arrived(events, start);
    }
  }

  lemma {:induction false} ArrivedFacts(events: seq<Event>, t: int)
    ensures AllValid(events) ==> AllValid(Arrived(events, t))
    ensures forall e | e in Arrived(events, t) :: e in events && e.receiveTs <= t
    decreases if t < 0 then 0 else t + 1
  {
    if t >= 0 {
      ArrivedFacts(events, t - 1);
      EventsAtValid(events, t);
    }
  }

  /** What the kernel state demands of one shown side. */
  ghost predicate Shows(side: Side, levels: seq<Level>) {
    |levels| > 0 && BestFirst(side, levels) && forall i | 0 <= i < |levels| :: ValidLevel(levels[i])
  }

  ghost predicate TradesWithin(trades: seq<KernelTrade>, exchangeTs: nat, observedTs: nat) {
    forall i | 0 <= i < |trades| ::
      trades[i].Valid() && trades[i].exchangeTs <= exchangeTs && trades[i].observedTs <= observedTs
  }

  lemma {:induction false} InstantBounds(now: seq<Event>, t: nat)
    requires AllValid(now) && Causal(now) && forall i | 0 <= i < |now| :: now[i].receiveTs == t
    ensures LatestExchange(now) <= t
    ensures TradesWithin(TradesOf(now), LatestExchange(now), t)
  {
    if now != [] {
      InstantBounds(now[..|now| - 1], t);
    }
  }

  // ----- emitted states -----

  ghost predicate Good(state: KernelState, events: seq<Event>, depth: nat) {
    state.Valid() && Expected(state, events, depth)
  }

  lemma {:induction false} StateIsValid(state: KernelState)
    requires Shows(Bid, state.bids) && Shows(Ask, state.asks)
    requires state.bids[0].price < state.asks[0].price
    requires TradesWithin(state.trades, state.exchangeTs, state.observedTs)
    requires state.bookExchangeTs <= state.exchangeTs <= state.observedTs
    ensures state.Valid()
  {
  }

  lemma {:induction false} ShownStateIsValid(g: Group, arrived: seq<Event>, now: seq<Event>, t: nat, sequence: nat, depth: nat)
    requires depth > 0 && AllValid(arrived) && Matches(g.book, arrived) && LastBook(arrived).Some?
    requires LastBook(arrived).value.eventTs <= t && g.exchangeTs == LatestExchange(now) && g.trades == TradesOf(now)
    requires AllValid(now) && Causal(now) && forall i | 0 <= i < |now| :: now[i].receiveTs == t
    ensures g.book.Complete()
    ensures StateOf(g, t, sequence, depth).Valid()
  {
    TopShowsLastBook(g.book.bids, arrived, Bid, depth);
    TopShowsLastBook(g.book.asks, arrived, Ask, depth);
    InstantBounds(now, t);
    StateIsValid(StateOf(g, t, sequence, depth));
  }

  /** A complete group whose ladders match the reference always yields a valid, expected state. */
  lemma {:induction false} GroupYields(g: Group, events: seq<Event>, t: nat, sequence: nat, depth: nat)
    requires depth > 0 && AllValid(events) && Causal(events)
    requires Matches(g.book, Arrived(events, t))
    requires g.exchangeTs == LatestExchange(EventsAt(events, t)) && g.trades == TradesOf(EventsAt(events, t))
    requires EventsAt(events, t) != [] && sequence == Rank(events, t)
    ensures AllValidTrades(g.trades)
    ensures g.book.Complete() <==> LastBook(Arrived(events, t)).Some?
    ensures g.book.Complete() ==> Good(StateOf(g, t, sequence, depth), events, depth)
  {
    var arrived := Arrived(events, t);
    ArrivedFacts(events, t);
    EventsAtValid(events, t);
    InstantBounds(EventsAt(events, t), t);
    if LastBook(arrived).Some? {
      LastBookOnTop(arrived, Bid);
      ShownStateIsValid(g, arrived, EventsAt(events, t), t, sequence, depth);
      TopMatches(g.book.bids, arrived, Bid, depth);
      TopMatches(g.book.asks, arrived, Ask, depth);
    }
  }

  lemma {:induction false} TopShowsLastBook(ladder: Ladder, arrived: seq<Event>, side: Side, depth: nat)
    requires depth > 0 && AllValid(arrived) && LadderMatches(ladder, arrived, side)
    requires LastBook(arrived).Some?
    ensures |ladder| > 0
    ensures LastBook(arrived).value in arrived
    ensures var top := Top(Sorted(side, ladder), depth);
            && Shows(side, top)
            && LastBook(arrived).value.Valid() && LastBook(arrived).value.IsBook()
            && top[0] == LastBook(arrived).value.Levels(side)[0]
  {
    var top := Top(Sorted(side, ladder), depth);
    TopMatches(ladder, arrived, side, depth);
    LastBookOnTop(arrived, side);
    forall i | 0 <= i < |top| ensures ValidLevel(top[i]) {
      DepthIsValid(arrived, side, top[i].price);
    }
    var levels := LastBook(arrived).value.Levels(side);
    assert Lookup(ladder, levels[0].price) == Depth(arrived, side, levels[0].price);
    TopPrefix(top, arrived, side, depth, 1);
    assert top[0] == top[..1][0] == levels[..1][0];
  }

  /** Two best-first lists that agree before `i` and rank each other's next price also agree at `i`. */
  lemma {:induction false} SameBest(side: Side, top: seq<Level>, levels: seq<Level>, i: nat)
    requires BestFirst(side, top) && BestFirst(side, levels)
    requires i < |levels| && i < |top|
    requires forall k | 0 <= k < i :: top[k] == levels[k]
    requires || (exists j :: 0 <= j < |top| && top[j].price == levels[i].price)
             || Better(side, top[i].price, levels[i].price)
    requires || (exists j :: 0 <= j < |levels| && levels[j].price == top[i].price)
             || Better(side, levels[|levels| - 1].price, top[i].price)
    ensures top[i].price == levels[i].price
  {
    assert !Better(side, top[i].price, levels[i].price) by {
      if exists j :: 0 <= j < |levels| && levels[j].price == top[i].price {
        var j :| 0 <= j < |levels| && levels[j].price == top[i].price;
        if j < i {
          assert false;
        }
      }
    }
    var j :| 0 <= j < |top| && top[j].price == levels[i].price;
  }

  /** `level` is listed in `top`, or `top` is full of better prices. */
  ghost predicate ListedOrBeaten(side: Side, top: seq<Level>, depth: nat, level: Level) {
    || (exists j :: 0 <= j < |top| && top[j] == level)
    || (|top| == depth && forall j | 0 <= j < |top| :: Better(side, top[j].price, level.price))
  }

  /** `p` is a price of `levels` or lies behind all of them. */
  ghost predicate QuotedOrDeeper(side: Side, levels: seq<Level>, p: real) {
    || (exists j :: 0 <= j < |levels| && levels[j].price == p)
    || (levels != [] && Better(side, levels[|levels| - 1].price, p))
  }

  /** The next level of both lists is the same one. */
  lemma {:induction false} SameNext(side: Side, top: seq<Level>, levels: seq<Level>, depth: nat, i: nat)
    requires BestFirst(side, top) && BestFirst(side, levels)
    requires i < |levels| && i < depth && i <= |top| && forall k | 0 <= k < i :: top[k] == levels[k]
    requires ListedOrBeaten(side, top, depth, levels[i])
    requires i < |top| ==> QuotedOrDeeper(side, levels, top[i].price)
    ensures i < |top| && top[i] == levels[i]
  {
    if exists j :: 0 <= j < |top| && top[j] == levels[i] {
      var j :| 0 <= j < |top| && top[j] == levels[i];
      assert j < i ==> top[j] == levels[j];
      SameBest(side, top, levels, i);
    } else {
      SameBest(side, top, levels, i);
    }
  }

  /** Every level of `levels` is listed or beaten, and every price of `top` is quoted or deeper. */
  ghost predicate Consistent(side: Side, top: seq<Level>, levels: seq<Level>, depth: nat) {
    && (forall k | 0 <= k < |levels| :: ListedOrBeaten(side, top, depth, levels[k]))
    && (forall k | 0 <= k < |top| :: QuotedOrDeeper(side, levels, top[k].price))
  }

  lemma {:induction false} ConsistentAt(side: Side, top: seq<Level>, levels: seq<Level>, depth: nat, i: nat)
    requires Consistent(side, top, levels, depth) && i < |levels|
    ensures ListedOrBeaten(side, top, depth, levels[i])
    ensures i < |top| ==> QuotedOrDeeper(side, levels, top[i].price)
  {
  }

  lemma {:induction false} SamePrefix(side: Side, top: seq<Level>, levels: seq<Level>, depth: nat, n: nat)
    requires BestFirst(side, top) && BestFirst(side, levels) && Consistent(side, top, levels, depth)
    requires n <= |levels| && n <= depth
    ensures n <= |top|
    ensures forall k | 0 <= k < n :: top[k] == levels[k]
  {
    if n > 0 {
      SamePrefix(side, top, levels, depth, n - 1);
      ConsistentAt(side, top, levels, depth, n - 1);
      SameNext(side, top, levels, depth, n - 1);
    }
  }

  lemma {:induction false} LastBookListed(top: seq<Level>, arrived: seq<Event>, side: Side, depth: nat, level: Level)
    requires IsTop(top, arrived, side, depth) && Depth(arrived, side, level.price) == Some(level.size)
    ensures ListedOrBeaten(side, top, depth, level)
  {
    if exists j :: 0 <= j < |top| && top[j].price == level.price {
      var j :| 0 <= j < |top| && top[j].price == level.price;
      assert Depth(arrived, side, top[j].price) == Some(top[j].size);
      assert top[j] == level;
    }
  }

  lemma {:induction false} TopConsistent(top: seq<Level>, arrived: seq<Event>, side: Side, depth: nat)
    requires AllValid(arrived) && LastBook(arrived).Some? && IsTop(top, arrived, side, depth)
    ensures LastBook(arrived).value.IsBook()
    ensures BestFirst(side, LastBook(arrived).value.Levels(side))
    ensures Consistent(side, top, LastBook(arrived).value.Levels(side), depth)
  {
    LastBookOnTop(arrived, side);
    var levels := LastBook(arrived).value.Levels(side);
    forall k | 0 <= k < |levels| ensures ListedOrBeaten(side, top, depth, levels[k]) {
      LastBookListed(top, arrived, side, depth, levels[k]);
    }
    forall k | 0 <= k < |top| ensures QuotedOrDeeper(side, levels, top[k].price) {
      assert Depth(arrived, side, top[k].price).Some?;
    }
  }

  /**
   The best levels of any expected state are the levels of the last book event,
   however many stale deeper levels survive below them.
   */
  lemma {:induction false} TopPrefix(top: seq<Level>, arrived: seq<Event>, side: Side, depth: nat, n: nat)
    requires AllValid(arrived) && LastBook(arrived).Some?
    requires IsTop(top, arrived, side, depth)
    requires LastBook(arrived).value.IsBook() && n <= |LastBook(arrived).value.Levels(side)| && n <= depth
    ensures n <= |top| && top[..n] == LastBook(arrived).value.Levels(side)[..n]
  {
    TopConsistent(top, arrived, side, depth);
    SamePrefix(side, top, LastBook(arrived).value.Levels(side), depth, n);
  }

  // ----- the whole replay -----

  ghost predicate AllGood(states: seq<KernelState>, events: seq<Event>, depth: nat) {
    states == [] || (Good(states[0], events, depth) && AllGood(states[1..], events, depth))
  }

  lemma {:induction false} AllGoodAt(states: seq<KernelState>, events: seq<Event>, depth: nat, k: nat)
    requires AllGood(states, events, depth) && k < |states|
    ensures Good(states[k], events, depth)
  {
    if k > 0 {
      AllGoodAt(states[1..], events, depth, k - 1);
    }
  }

  function Times(states: seq<KernelState>): seq<nat> {
    seq(|states|, i requires 0 <= i < |states| => states[i].observedTs)
  }

  ghost predicate Due(events: seq<Event>, t: int) {
    EventsAt(events, t) != [] && LastBook(Arrived(events, t)).Some?
  }

  /** Strictly increasing times later than `after`, hitting every due instant. */
  ghost predicate Schedule(times: seq<nat>, events: seq<Event>, after: int) {
    && (forall i | 0 <= i < |times| :: times[i] > after)
    && (forall i, j | 0 <= i < j < |times| :: times[i] < times[j])
    && (forall t | t > after && Due(events, t) :: exists i :: 0 <= i < |times| && times[i] == t)
  }

  ghost predicate Follows(o: Outcome, events: seq<Event>, after: int, depth: nat) {
    o.error.None? && AllGood(o.states, events, depth) && Schedule(Times(o.states), events, after)
  }

  lemma {:induction false} ScheduleCons(times: seq<nat>, events: seq<Event>, after: int, now: nat)
    requires Schedule(times, events, now) && after < now
    requires forall t | after < t < now :: EventsAt(events, t) == []
    ensures Schedule([now] + times, events, after)
    ensures LastBook(Arrived(events, now)).None? ==> Schedule(times, events, after)
  {
    var all := [now] + times;
    forall t | t > after && Due(events, t)
      ensures exists i :: 0 <= i < |all| && all[i] == t
      ensures LastBook(Arrived(events, now)).None? ==> exists i :: 0 <= i < |times| && times[i] == t
    {
      if t == now {
        assert all[0] == t;
      } else {
        var i :| 0 <= i < |times| && times[i] == t;
        assert all[i + 1] == t;
      }
    }
  }

  lemma {:induction false} TimesCons(state: KernelState, rest: seq<KernelState>)
    ensures Times([state] + rest) == [state.observedTs] + Times(rest)
  {
  }

  /** Ordered rows later than `after`, and a book that has caught up with `after`. */
  ghost predicate Aligned(events: seq<Event>, rows: seq<Row>, book: Book, sequence: nat, after: int)
    requires AllValid(events)
  {
    && SortedByLocal(rows)
    && (rows != [] ==> rows[0].localTs > after)
    && (forall t | t > after :: RowsAt(rows, t) == RowsAt(RowsOf(events), t))
    && Matches(book, Arrived(events, after))
    && sequence == Rank(events, after + 1)
  }

  /** The first group of rows holds exactly the events of its instant. */
  lemma {:induction false} GroupCatchesUp(events: seq<Event>, rows: seq<Row>, book: Book, after: int)
    requires after >= -1 && AllValid(events) && rows != [] && SortedByLocal(rows) && rows[0].localTs > after
    requires forall t | t > after :: RowsAt(rows, t) == RowsAt(RowsOf(events), t)
    requires Matches(book, Arrived(events, after))
    ensures forall t | after < t < rows[0].localTs :: EventsAt(events, t) == []
    ensures Rank(events, rows[0].localTs) == Rank(events, after + 1)
    ensures var g, t := ApplyRows(Group(book, 0, []), rows[..RunLength(rows)]), rows[0].localTs;
            && EventsAt(events, t) != []
            && Matches(g.book, Arrived(events, t))
            && g.exchangeTs == LatestExchange(EventsAt(events, t)) && g.trades == TradesOf(EventsAt(events, t))
  {
    var t := rows[0].localTs;
    GroupStart(events, rows, after);
    QuietInterval(events, after, t);
    var now := EventsAt(events, t);
    RowsOfNothing(now);
    GroupMatches(Group(book, 0, []), Arrived(events, after), now);
    GroupCollects(book, now);
  }

  /** Folding the first group of rows into the book catches up with one more instant. */
  lemma {:induction false} GroupStep(events: seq<Event>, rows: seq<Row>, book: Book, sequence: nat, after: int, depth: nat)
    requires depth > 0 && after >= -1 && AllValid(events) && Causal(events)
    requires rows != [] && Aligned(events, rows, book, sequence, after)
    ensures var g := ApplyRows(Group(book, 0, []), rows[..RunLength(rows)]);
            && (g.book.Complete() <==> LastBook(Arrived(events, rows[0].localTs)).Some?)
            && AllValidTrades(g.trades)
            && (g.book.Complete() ==> Good(StateOf(g, rows[0].localTs, sequence, depth), events, depth))
            && Aligned(events, rows[RunLength(rows)..], g.book, sequence + 1, rows[0].localTs)
    ensures forall t | after < t < rows[0].localTs :: EventsAt(events, t) == []
  {
    GroupCatchesUp(events, rows, book, after);
    RestAligned(events, rows, after);
    GroupYields(ApplyRows(Group(book, 0, []), rows[..RunLength(rows)]), events, rows[0].localTs, sequence, depth);
  }

  lemma {:induction false} RestAligned(events: seq<Event>, rows: seq<Row>, after: int)
    requires AllValid(events) && rows != [] && SortedByLocal(rows) && rows[0].localTs > after
    requires forall t | t > after :: RowsAt(rows, t) == RowsAt(RowsOf(events), t)
    ensures var rest := rows[RunLength(rows)..];
            && SortedByLocal(rest)
            && (rest != [] ==> rest[0].localTs > rows[0].localTs)
            && (forall t | t > rows[0].localTs :: RowsAt(rest, t) == RowsAt(RowsOf(events), t))
  {
    LaterGroups(rows);
    forall t | t > rows[0].localTs ensures RowsAt(rows[RunLength(rows)..], t) == RowsAt(RowsOf(events), t) {
      FirstGroup(rows, t);
    }
  }

  lemma {:induction false} ReplayUnfolds(rows: seq<Row>, book: Book, sequence: nat, depth: nat) returns (emitted: seq<KernelState>)
    requires depth > 0 && rows != []
    requires var g := ApplyRows(Group(book, 0, []), rows[..RunLength(rows)]);
             && AllValidTrades(g.trades)
             && (g.book.Complete() ==> StateOf(g, rows[0].localTs, sequence, depth).Valid())
    ensures var g := ApplyRows(Group(book, 0, []), rows[..RunLength(rows)]);
            var rest := Replay(rows[RunLength(rows)..], g.book, sequence + 1, depth);
            && Replay(rows, book, sequence, depth) == Outcome(emitted + rest.states, rest.error)
            && emitted == if g.book.Complete() then [StateOf(g, rows[0].localTs, sequence, depth)] else []
  {
    var g := ApplyRows(Group(book, 0, []), rows[..RunLength(rows)]);
    if g.book.Complete() {
      emitted := [StateOf(g, rows[0].localTs, sequence, depth)];
    } else {
      emitted := [];
      var rest := Replay(rows[RunLength(rows)..], g.book, sequence + 1, depth);
      assert emitted + rest.states == rest.states;
    }
  }

  lemma {:induction false} FollowsStep(
    o: Outcome, rest: Outcome, events: seq<Event>, after: int, now: nat, depth: nat, emitted: seq<KernelState>)
    requires Follows(rest, events, now, depth) && after < now
    requires forall t | after < t < now :: EventsAt(events, t) == []
    requires emitted == [] ==> LastBook(Arrived(events, now)).None?
    requires emitted != [] ==> |emitted| == 1 && emitted[0].observedTs == now && Good(emitted[0], events, depth)
    requires o == Outcome(emitted + rest.states, rest.error)
    ensures Follows(o, events, after, depth)
  {
    ScheduleCons(Times(rest.states), events, after, now);
    if emitted == [] {
      assert o.states == rest.states;
    } else {
      AllGoodCons(emitted[0], rest.states, events, depth);
      TimesCons(emitted[0], rest.states);
      assert o.states == [emitted[0]] + rest.states;
    }
  }

  lemma {:induction false} AllGoodCons(state: KernelState, rest: seq<KernelState>, events: seq<Event>, depth: nat)
    requires Good(state, events, depth) && AllGood(rest, events, depth)
    ensures AllGood([state] + rest, events, depth)
  {
    assert ([state] + rest)[1..] == rest;
  }

  lemma {:induction false} NothingLeft(events: seq<Event>, book: Book, sequence: nat, after: int, depth: nat)
    requires depth > 0 && AllValid(events)
    requires Aligned(events, [], book, sequence, after)
    ensures Follows(Outcome([], None), events, after, depth)
  {
    forall t | t > after ensures EventsAt(events, t) == [] {
      RowsAtExpand(events, t);
      assert RowsAt([], t) == RowsAt(RowsOf(events), t);
      RowsOfNothing(EventsAt(events, t));
    }
  }

  lemma {:induction false} ReplayFollows(
    events: seq<Event>, rows: seq<Row>, book: Book, sequence: nat, after: int, depth: nat)
    requires depth > 0 && after >= -1 && AllValid(events) && Causal(events)
    requires Aligned(events, rows, book, sequence, after)
    ensures Follows(Replay(rows, book, sequence, depth), events, after, depth)
    decreases |rows|
  {
    if rows == [] {
      NothingLeft(events, book, sequence, after, depth);
    } else {
      var t, n := rows[0].localTs, RunLength(rows);
      GroupStep(events, rows, book, sequence, after, depth);
      var g := ApplyRows(Group(book, 0, []), rows[..n]);
      var emitted := ReplayUnfolds(rows, book, sequence, depth);
      ReplayFollows(events, rows[n..], g.book, sequence + 1, t, depth);
      FollowsStep(Replay(rows, book, sequence, depth), Replay(rows[n..], g.book, sequence + 1, depth),
                  events, after, t, depth, emitted);
    }
  }

  lemma {:induction false} GroupStart(events: seq<Event>, rows: seq<Row>, after: int)
    requires AllValid(events) && rows != [] && SortedByLocal(rows)
    requires rows[0].localTs > after
    requires forall t | t > after :: RowsAt(rows, t) == RowsAt(RowsOf(events), t)
    ensures AllValid(EventsAt(events, rows[0].localTs))
    ensures rows[..RunLength(rows)] == RowsOf(EventsAt(events, rows[0].localTs))
    ensures forall t | after < t < rows[0].localTs :: EventsAt(events, t) == []
  {
    RowsAtExpand(events, rows[0].localTs);
    FirstGroup(rows, rows[0].localTs);
    forall t | after < t < rows[0].localTs ensures EventsAt(events, t) == [] {
      RowsAtExpand(events, t);
      FirstGroup(rows, t);
      RowsOfNothing(EventsAt(events, t));
    }
  }

  /**
   Main result.  For all valid, causal events, replaying their stably ordered
   rows never fails: neither the crossed-book error nor any kernel state check
   can be reached.  It yields exactly one state for every local timestamp that
   carries an event once a book event has been received, and each state shows
   the reference book, the trades of its timestamp, and the timestamps of the
   last book event.
   */
  lemma {:induction false} ReplayPreservesBook(events: seq<Event>, ordered: seq<Row>, depth: nat)
    requires depth > 0 && AllValid(events) && Causal(events)
    requires StablyOrdered(RowsOf(events), ordered)
    ensures Follows(Replay(ordered, EmptyBook, 0, depth), events, -1, depth)
  {
    assert Arrived(events, -1) == [];
    assert Rank(events, 0) == 0;
    ReplayFollows(events, ordered, EmptyBook, 0, -1, depth);
  }

  /**
   In every yielded state the top of each side is the last book event received:
   the complete snapshot cut to `depth` levels, or the quoted best bid and ask.
   Stale deeper levels can only appear below it.
   */
  lemma {:induction false} YieldedTopIsLastBook(events: seq<Event>, ordered: seq<Row>, depth: nat, k: nat, side: Side)
    requires depth > 0 && AllValid(events) && Causal(events)
    requires StablyOrdered(RowsOf(events), ordered)
    requires k < |Replay(ordered, EmptyBook, 0, depth).states|
    ensures var state := Replay(ordered, EmptyBook, 0, depth).states[k];
            var book := LastBook(Arrived(events, state.observedTs));
            && book.Some? && book.value.IsBook()
            && var levels, shown := book.value.Levels(side), if side == Bid then state.bids else state.asks;
               Top(levels, depth) <= shown
  {
    ReplayPreservesBook(events, ordered, depth);
    var state := Replay(ordered, EmptyBook, 0, depth).states[k];
    AllGoodAt(Replay(ordered, EmptyBook, 0, depth).states, events, depth, k);
    var arrived := Arrived(events, state.observedTs);
    ArrivedFacts(events, state.observedTs);
    LastBookOnTop(arrived, side);
    var levels := LastBook(arrived).value.Levels(side);
    TopPrefix(if side == Bid then state.bids else state.asks, arrived, side, depth, |Top(levels, depth)|);
  }

  // ----- which event is "the last one received" -----

  ghost predicate ReceivedLater(events: seq<Event>, i: nat, j: nat)
    requires i < |events| && j < |events|
  {
    events[j].receiveTs < events[i].receiveTs || (events[j].receiveTs == events[i].receiveTs && j <= i)
  }

  lemma {:induction false} LastBookAppend(a: seq<Event>, b: seq<Event>)
    ensures LastBook(a + b) == if LastBook(b).Some? then LastBook(b) else LastBook(a)
  {
    if b == [] {
      assert a + b == a;
    } else {
      LastBookAppend(a, b[..|b| - 1]);
      assert (a + b)[..|a + b| - 1] == a + b[..|b| - 1];
    }
  }

  /** The last book event of one instant is the one with the highest merge position. */
  lemma {:induction false} LastBookOfInstant(events: seq<Event>, t: int) returns (i: int)
    ensures i == -1 <==> LastBook(EventsAt(events, t)).None?
    ensures i == -1 ==> forall j | 0 <= j < |events| :: events[j].IsBook() ==> events[j].receiveTs != t
    ensures i != -1 ==>
              && 0 <= i < |events| && events[i].IsBook() && events[i].receiveTs == t
              && LastBook(EventsAt(events, t)) == Some(events[i])
              && forall j | i < j < |events| :: events[j].IsBook() ==> events[j].receiveTs != t
  {
    if events == [] {
      i := -1;
    } else {
      var init, e := events[..|events| - 1], events[|events| - 1];
      i := LastBookOfInstant(init, t);
      LastBookAppend(EventsAt(init, t), [e]);
      assert [e][..0] == [] && EventsAt(init, t) + [] == EventsAt(init, t);
      if e.receiveTs == t && e.IsBook() {
        i := |events| - 1;
      }
    }
  }

  /**
   The book every state shows is that of the book event received last: latest
   local time first, latest position in the merge (exchange time, receipt time,
   trades before books, source order) among equals.
   */
  lemma {:induction false} LastBookIsLatest(events: seq<Event>, t: int) returns (i: int)
    ensures i == -1 <==> LastBook(Arrived(events, t)).None?
    ensures i == -1 ==> forall j | 0 <= j < |events| :: events[j].IsBook() ==> events[j].receiveTs > t
    ensures i != -1 ==>
              && 0 <= i < |events| && events[i].IsBook() && events[i].receiveTs <= t
              && LastBook(Arrived(events, t)) == Some(events[i])
              && forall j | 0 <= j < |events| && events[j].IsBook() && events[j].receiveTs <= t :: ReceivedLater(events, i, j)
    decreases if t < 0 then 0 else t + 1
  {
    if t < 0 {
      i := -1;
    } else {
      var now := LastBookOfInstant(events, t);
      i := LastBookIsLatest(events, t - 1);
      LastBookAppend(Arrived(events, t - 1), EventsAt(events, t));
      if now != -1 {
        i := now;
      }
    }
  }

  /** End to end: every accepted set of ordered streams converts to rows whose replay preserves the book. */
  lemma {:induction false} ConversionThenReplay(streams: seq<seq<Item>>, ordered: seq<Row>, depth: nat)
    requires depth > 0 && ValidStreams(streams)
    requires AllOrdered(streams) && Causal(EventsOf(Merge(streams)))
    requires AllValid(EventsOf(Merge(streams))) ==> StablyOrdered(RowsOf(EventsOf(Merge(streams))), ordered)
    ensures multiset(Merge(streams)) == AllItems(streams) && Ordered(Merge(streams))
    ensures Follows(Replay(ordered, EmptyBook, 0, depth), EventsOf(Merge(streams)), -1, depth)
  {
    MergeIsOrderedUnion(streams);
    MergedEventsValid(streams);
    ReplayPreservesBook(EventsOf(Merge(streams)), ordered, depth);
  }
}
