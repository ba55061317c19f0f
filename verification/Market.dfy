/**
 Normalized public market events and the causal market state handed to every
 strategy kernel.  Decimal and float prices are modelled as reals.
 */
module Market {
  datatype Side = Bid | Ask

  datatype Aggressor = Buyer | Seller | Unattributed

  datatype Level = Level(price: real, size: real)

  /** `p` is a strictly better price than `q` for somebody resting on `side`. */
  predicate Better(side: Side, p: real, q: real) {
    match side
    case Bid => p > q
    case Ask => p < q
  }

  predicate ValidLevel(level: Level) {
    level.price > 0.0 && level.size > 0.0
  }

  /** Sorted from the best price to the worst without repeating a price. */
  ghost predicate BestFirst(side: Side, levels: seq<Level>) {
    forall i, j | 0 <= i < j < |levels| :: Better(side, levels[i].price, levels[j].price)
  }

  datatype Event =
    | L2Book(eventTs: nat, receiveTs: nat, bids: seq<Level>, asks: seq<Level>)
    | Bbo(eventTs: nat, receiveTs: nat, bid: Level, ask: Level)
    | Trade(eventTs: nat, receiveTs: nat, price: real, size: real, aggressor: Aggressor)
  {
    predicate IsBook() { !Trade? }

    /** The levels a book event shows on one side, best first. */
    function Levels(side: Side): seq<Level>
      requires IsBook()
    {
      match this
      case L2Book(_, _, bids, asks) => if side == Bid then bids else asks
      case Bbo(_, _, bid, ask) => [if side == Bid then bid else ask]
    }

    /** The checks every event passed when its model was built. */
    ghost predicate Valid() {
      match this
      case L2Book(_, _, bids, asks) =>
        && |bids| > 0 && |asks| > 0
        && (forall i | 0 <= i < |bids| :: ValidLevel(bids[i]))
        && (forall i | 0 <= i < |asks| :: ValidLevel(asks[i]))
        && BestFirst(Bid, bids) && BestFirst(Ask, asks)
        && bids[0].price < asks[0].price
      case Bbo(_, _, bid, ask) => ValidLevel(bid) && ValidLevel(ask) && bid.price < ask.price
      case Trade(_, _, price, size, _) => price > 0.0 && size > 0.0
    }
  }

  datatype KernelTrade =
    KernelTrade(exchangeTs: nat, observedTs: nat, price: real, size: real, aggressor: Aggressor)
  {
    predicate Valid() { price > 0.0 && size > 0.0 && exchangeTs <= observedTs }
  }

  datatype KernelState = KernelState(
    exchangeTs: nat,
    bookExchangeTs: nat,
    observedTs: nat,
    sequence: nat,
    bids: seq<Level>,
    asks: seq<Level>,
    trades: seq<KernelTrade>)
  {
    /** Every check the kernel state performs when it is built. */
    predicate Valid() {
      && |bids| > 0 && |asks| > 0
      && (forall i | 0 <= i < |bids| :: ValidLevel(bids[i]))
      && (forall i | 0 <= i < |asks| :: ValidLevel(asks[i]))
      && (forall i | 0 <= i < |trades| :: trades[i].Valid())
      && exchangeTs <= observedTs
      && bookExchangeTs <= exchangeTs
      && (forall i | 0 <= i < |trades| :: trades[i].exchangeTs <= exchangeTs)
      && (forall i | 0 <= i < |trades| :: trades[i].observedTs <= observedTs)
      && (forall i, j | 0 <= i < j < |bids| :: bids[i].price >= bids[j].price)
      && (forall i, j | 0 <= i < j < |asks| :: asks[i].price <= asks[j].price)
      && bids[0].price < asks[0].price
    }
  }

  function Max(a: nat, b: nat): nat { if a < b then b else a }
}
