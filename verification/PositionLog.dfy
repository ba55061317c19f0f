/**
 The compressed position log of a replay session, and the funding cashflows
 computed from it by bisection.
 */
module PositionLog {
  import opened Wrappers

  datatype Observation = Observation(ts: nat, position: real)

  datatype Funding = Funding(settlementTs: nat, rate: real, price: real)

  datatype Cashflow = Cashflow(settlementTs: nat, position: real, rate: real, price: real, cash: real)

  datatype FundingError =
    | NotStarted | OutsideReplay | NegativeMultiplier | PositionsNotIncreasing | FundingNotIncreasing

  /** Replace an entry of the same instant, skip an unchanged position, or append. */
  function Record(log: seq<Observation>, o: Observation): seq<Observation> {
    if log != [] && log[|log| - 1].ts == o.ts then log[|log| - 1 := o]
    else if log == [] || log[|log| - 1].position != o.position then log + [o]
    else log
  }

  function Compressed(history: seq<Observation>): seq<Observation> {
    if history == [] then [] else Record(Compressed(history[..|history| - 1]), history[|history| - 1])
  }

  /** The position of the last observation at or before an instant; flat before the first one. */
  function PositionAt(history: seq<Observation>, at: nat): real {
    if history == [] then 0.0
    else
      var last := history[|history| - 1];
      if last.ts <= at then last.position else PositionAt(history[..|history| - 1], at)
  }

  ghost predicate NonDecreasing(history: seq<Observation>) {
    forall i, j | 0 <= i < j < |history| :: history[i].ts <= history[j].ts
  }

  ghost predicate Increasing(log: seq<Observation>) {
    forall i, j | 0 <= i < j < |log| :: log[i].ts < log[j].ts
  }

  lemma {:induction false} PositionAtSnoc(history: seq<Observation>, o: Observation, at: nat)
    ensures PositionAt(history + [o], at) == if o.ts <= at then o.position else PositionAt(history, at)
  {
    assert (history + [o])[..|history|] == history;
  }

  lemma {:induction false} RecordOrdered(log: seq<Observation>, o: Observation)
    requires Increasing(log) && (log != [] ==> log[|log| - 1].ts <= o.ts)
    ensures Increasing(Record(log, o)) && Record(log, o) != [] && Record(log, o)[|Record(log, o)| - 1].ts <= o.ts
  {
  }

  lemma {:induction false} RecordKeeps(log: seq<Observation>, o: Observation, at: nat)
    requires log != [] ==> log[|log| - 1].ts <= o.ts
    ensures PositionAt(Record(log, o), at) == if o.ts <= at then o.position else PositionAt(log, at)
  {
    if log != [] && log[|log| - 1].ts == o.ts {
      var init := log[..|log| - 1];
      assert Record(log, o) == init + [o] && log == init + [log[|log| - 1]];
      PositionAtSnoc(init, o, at);
      PositionAtSnoc(init, log[|log| - 1], at);
    } else {
      PositionAtSnoc(log, o, at);
    }
  }

  lemma {:induction false} InitOrdered(history: seq<Observation>)
    requires NonDecreasing(history) && history != []
    ensures NonDecreasing(history[..|history| - 1])
    ensures |history| > 1 ==> history[|history| - 2].ts <= history[|history| - 1].ts
  {
  }

  lemma {:induction false} CompressedOrdered(history: seq<Observation>)
    requires NonDecreasing(history)
    ensures Increasing(Compressed(history))
    ensures history != [] ==> Compressed(history) != []
                              && Compressed(history)[|Compressed(history)| - 1].ts <= history[|history| - 1].ts
  {
    if history != [] {
      var init, o := history[..|history| - 1], history[|history| - 1];
      InitOrdered(history);
      CompressedOrdered(init);
      RecordOrdered(Compressed(init), o);
    }
  }

  lemma {:induction false} CompressedPosition(history: seq<Observation>, at: nat)
    requires NonDecreasing(history)
    ensures PositionAt(Compressed(history), at) == PositionAt(history, at)
  {
    if history != [] {
      var init, o := history[..|history| - 1], history[|history| - 1];
      InitOrdered(history);
      CompressedOrdered(init);
      CompressedPosition(init, at);
      RecordKeeps(Compressed(init), o, at);
    }
  }

  /**
   Compression loses nothing: the log is strictly increasing, and at every
   instant it gives the position of the last observation at or before it in the
   uncompressed history.
   */
  lemma {:induction false} CompressionIsLossless(history: seq<Observation>, at: nat)
    requires NonDecreasing(history)
    ensures Increasing(Compressed(history))
    ensures PositionAt(Compressed(history), at) == PositionAt(history, at)
  {
    CompressedOrdered(history);
    CompressedPosition(history, at);
  }

  // ----- funding -----

  function CashflowOf(f: Funding, position: real, multiplier: real): Cashflow {
    Cashflow(f.settlementTs, position, f.rate, f.price, -(position * f.price * f.rate * multiplier))
  }

  lemma {:induction false} CashMeans(f: Funding, position: real, multiplier: real)
    ensures var c := CashflowOf(f, position, multiplier);
            c.settlementTs == f.settlementTs && c.position == position && c.rate == f.rate && c.price == f.price
            && c.cash + position * f.price * f.rate * multiplier == 0.0
  {
  }

  /** The two sides of a position pay each other: what one receives the opposite one pays. */
  lemma {:induction false} OppositePays(f: Funding, position: real, multiplier: real)
    ensures CashflowOf(f, position, multiplier).cash + CashflowOf(f, -position, multiplier).cash == 0.0
  {
    var a := f.price * f.rate * multiplier;
    assert position * f.price * f.rate * multiplier == position * a;
    assert -position * f.price * f.rate * multiplier == -position * a;
  }

  /** At a positive rate the long side pays and the short side receives, and the other way round at a negative one. */
  lemma {:induction false} PayerExactlyWhen(f: Funding, position: real, multiplier: real)
    requires f.price > 0.0 && multiplier > 0.0
    ensures CashflowOf(f, position, multiplier).cash < 0.0
            <==> (position > 0.0 && f.rate > 0.0) || (position < 0.0 && f.rate < 0.0)
    ensures CashflowOf(f, position, multiplier).cash > 0.0
            <==> (position > 0.0 && f.rate < 0.0) || (position < 0.0 && f.rate > 0.0)
  {
    var scale := f.price * multiplier;
    ProductSign(f.price, multiplier);
    ProductSign(position, f.rate);
    ProductSign(position * f.rate, scale);
    assert position * f.price * f.rate * multiplier == position * f.rate * scale;
  }

  lemma {:induction false} ProductSign(x: real, y: real)
    ensures x * y > 0.0 <==> (x > 0.0 && y > 0.0) || (x < 0.0 && y < 0.0)
    ensures x * y < 0.0 <==> (x > 0.0 && y < 0.0) || (x < 0.0 && y > 0.0)
  {
    if x > 0.0 && y > 0.0 {
    } else if x < 0.0 && y < 0.0 {
      assert x * y == (-x) * (-y);
    } else if x > 0.0 && y < 0.0 {
      assert x * y == -(x * (-y));
    } else if x < 0.0 && y > 0.0 {
      assert x * y == -((-x) * y);
    }
  }

  /** One cashflow per settlement, from the position held at its instant. */
  function Cashflows(history: seq<Observation>, funding: seq<Funding>, multiplier: real): seq<Cashflow> {
    seq(|funding|, i requires 0 <= i < |funding| =>
      CashflowOf(funding[i], PositionAt(history, funding[i].settlementTs), multiplier))
  }

  ghost predicate FundingIncreasing(funding: seq<Funding>) {
    forall i, j | 0 <= i < j < |funding| :: funding[i].settlementTs < funding[j].settlementTs
  }

  /** How many entries lie at or before an instant. */
  method BisectRight(log: seq<Observation>, at: nat) returns (k: nat)
    requires Increasing(log)
    ensures k <= |log|
    ensures forall i | 0 <= i < k :: log[i].ts <= at
    ensures forall i | k <= i < |log| :: log[i].ts > at
  {
    var low, high := 0, |log|;
    while low < high
      invariant 0 <= low <= high <= |log|
      invariant forall i | 0 <= i < low :: log[i].ts <= at
      invariant forall i | high <= i < |log| :: log[i].ts > at
    {
      var mid := (low + high) / 2;
      if at < log[mid].ts { high := mid; } else { low := mid + 1; }
    }
    return low;
  }

  lemma {:induction false} BisectedPosition(log: seq<Observation>, at: nat, k: nat)
    requires k <= |log| && (forall i | 0 <= i < k :: log[i].ts <= at) && (forall i | k <= i < |log| :: log[i].ts > at)
    ensures PositionAt(log, at) == if k == 0 then 0.0 else log[k - 1].position
  {
    if k < |log| {
      BisectedPosition(log[..|log| - 1], at, k);
    }
  }

  /** Adjacent entries strictly increase. */
  method StrictlyIncreasing(stamps: seq<nat>) returns (yes: bool)
    ensures yes <==> forall i, j | 0 <= i < j < |stamps| :: stamps[i] < stamps[j]
  {
    for i := 0 to |stamps|
      invariant forall k, j | 0 <= k < j < i :: stamps[k] < stamps[j]
    {
      if i > 0 && stamps[i - 1] >= stamps[i] { return false; }
    }
    return true;
  }

  method CalculateFundingCashflows(positions: seq<Observation>, funding: seq<Funding>, multiplier: real)
    returns (r: Result<seq<Cashflow>, FundingError>)
    ensures multiplier < 0.0 <==> r == Err(NegativeMultiplier)
    ensures r != Err(NotStarted) && r != Err(OutsideReplay)
    ensures r.Ok? <==> multiplier >= 0.0 && Increasing(positions) && FundingIncreasing(funding)
    ensures r.Ok? ==> r.value == Cashflows(positions, funding, multiplier)
    ensures r == Err(PositionsNotIncreasing) ==> !Increasing(positions)
  {
    if multiplier < 0.0 { return Err(NegativeMultiplier); }
    var timestamps := seq(|positions|, i requires 0 <= i < |positions| => positions[i].ts);
    var ordered := StrictlyIncreasing(timestamps);
    if !ordered {
      var i, j :| 0 <= i < j < |timestamps| && timestamps[i] >= timestamps[j];
      assert positions[i].ts >= positions[j].ts;
      return Err(PositionsNotIncreasing);
    }
    assert Increasing(positions) by {
      forall i, j | 0 <= i < j < |positions| ensures positions[i].ts < positions[j].ts {
        assert timestamps[i] < timestamps[j];
      }
    }
    var settlements := seq(|funding|, i requires 0 <= i < |funding| => funding[i].settlementTs);
    ordered := StrictlyIncreasing(settlements);
    if !ordered {
      var i, j :| 0 <= i < j < |settlements| && settlements[i] >= settlements[j];
      assert funding[i].settlementTs >= funding[j].settlementTs;
      return Err(FundingNotIncreasing);
    }
    assert FundingIncreasing(funding) by {
      forall i, j | 0 <= i < j < |funding| ensures funding[i].settlementTs < funding[j].settlementTs {
        assert settlements[i] < settlements[j];
      }
    }
    var cashflows: seq<Cashflow> := [];
    for i := 0 to |funding|
      invariant cashflows == Cashflows(positions, funding[..i], multiplier)
    {
      var k := BisectRight(positions, funding[i].settlementTs);
      BisectedPosition(positions, funding[i].settlementTs, k);
      var position := if k == 0 then 0.0 else positions[k - 1].position;
      cashflows := cashflows + [CashflowOf(funding[i], position, multiplier)];
    }
    assert funding[..|funding|] == funding;
    return Ok(cashflows);
  }

  /** The cashflows from the compressed log are those of the uncompressed history. */
  lemma {:induction false} SameCashflows(history: seq<Observation>, funding: seq<Funding>, multiplier: real)
    requires NonDecreasing(history)
    ensures Cashflows(Compressed(history), funding, multiplier) == Cashflows(history, funding, multiplier)
  {
    forall i | 0 <= i < |funding|
      ensures PositionAt(Compressed(history), funding[i].settlementTs) == PositionAt(history, funding[i].settlementTs)
    {
      CompressionIsLossless(history, funding[i].settlementTs);
    }
  }

  // ----- the session -----

  lemma {:induction false} StaysOrdered(history: seq<Observation>, o: Observation)
    requires NonDecreasing(history) && (history != [] ==> history[|history| - 1].ts <= o.ts)
    ensures NonDecreasing(history + [o])
  {
  }

  /** The log starts when the history does. */
  lemma {:induction false} CompressedStart(history: seq<Observation>)
    requires history != []
    ensures Compressed(history) != [] && Compressed(history)[0].ts == history[0].ts
  {
    var init := history[..|history| - 1];
    if init != [] {
      CompressedStart(init);
    }
  }

  predicate Inside(funding: seq<Funding>, begin: nat, end: nat) {
    forall i | 0 <= i < |funding| :: begin <= funding[i].settlementTs <= end
  }

  lemma {:induction false} CompressedSnoc(history: seq<Observation>, o: Observation)
    ensures Compressed(history + [o]) == Record(Compressed(history), o)
  {
    assert (history + [o])[..|history|] == history;
  }

  /** The log part of a replay session: a clock that never runs backwards and the positions recorded by it. */
  class HftReplaySession {
    const datasetEnd: nat
    var positions: seq<Observation>
    var lastTimestamp: nat
    ghost var observed: seq<Observation>

    ghost predicate Valid()
      reads this
    {
      && NonDecreasing(observed)
      && (observed != [] ==> observed[|observed| - 1].ts <= lastTimestamp)
      && positions == Compressed(observed)
    }

    constructor (datasetEnd: nat)
      ensures Valid() && observed == [] && lastTimestamp == 0 && this.datasetEnd == datasetEnd
    {
      this.datasetEnd := datasetEnd;
      positions, lastTimestamp, observed := [], 0, [];
    }

    /** The engine's clock, held at its highest value so far. */
    method CurrentTimestamp(engineClock: int) returns (ts: nat)
      requires Valid()
      modifies this`lastTimestamp
      ensures Valid() && ts == lastTimestamp && ts >= engineClock
      ensures ts == old(lastTimestamp) || (ts == engineClock && ts > old(lastTimestamp))
    {
      if engineClock > lastTimestamp { lastTimestamp := engineClock; }
      return lastTimestamp;
    }

    method RecordPosition(engineClock: int, position: real)
      requires Valid()
      modifies this
      ensures Valid() && lastTimestamp >= old(lastTimestamp)
      ensures observed == old(observed) + [Observation(lastTimestamp, position)]
    {
      var ts := CurrentTimestamp(engineClock);
      var o := Observation(ts, position);
      StaysOrdered(observed, o);
      CompressedSnoc(observed, o);
      observed := observed + [o];
      if positions != [] && positions[|positions| - 1].ts == o.ts {
        positions := positions[|positions| - 1 := o];
      } else if positions == [] || positions[|positions| - 1].position != o.position {
        positions := positions + [o];
      }
    }

    /**
     The funding of the whole session, as the uncompressed observations would
     give it; a settlement before the first observation or after the end of the
     data is refused.
     */
    method FundingCashflows(funding: seq<Funding>, multiplier: real) returns (r: Result<seq<Cashflow>, FundingError>)
      requires Valid()
      ensures r == Err(NotStarted) <==> observed == []
      ensures r == Err(OutsideReplay)
              <==> observed != []
                   && exists i :: 0 <= i < |funding|
                        && (funding[i].settlementTs < observed[0].ts || datasetEnd < funding[i].settlementTs)
      ensures r.Ok? <==> observed != [] && Inside(funding, observed[0].ts, datasetEnd)
                         && multiplier >= 0.0 && FundingIncreasing(funding)
      ensures r != Err(PositionsNotIncreasing)
      ensures r.Ok? ==> r.value == Cashflows(observed, funding, multiplier)
    {
      if observed != [] {
        CompressedStart(observed);
      }
      if positions == [] { return Err(NotStarted); }
      if exists i | 0 <= i < |funding| :: funding[i].settlementTs < positions[0].ts || funding[i].settlementTs > datasetEnd {
        return Err(OutsideReplay);
      }
      CompressionIsLossless(observed, 0);
      SameCashflows(observed, funding, multiplier);
      r := CalculateFundingCashflows(positions, funding, multiplier);
    }
  }
}
