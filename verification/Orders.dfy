/** Orders, trades and match results: internal/core/order/model.go, internal/core/trade/model.go.

    The empty string of an optional enumeration is a constructor of its own, so that
    normalisation and the error branches for unknown values can be written down.
 */
module Orders {

  datatype Side = Buy | Sell | OtherSide

  datatype Kind = Limit | Market | StopLimit | UnsetKind

  datatype TimeInForce = GTC | IOC | UnsetTimeInForce

  datatype Status =
    | PendingMatch
    | PendingStop
    | Open
    | PartiallyFilled
    | Filled
    | Canceled
    | Expired
    | Rejected
    | UnsetStatus

  /** Prices and quantities count units of 10^-18; times count nanoseconds. */
  datatype Order = Order(
    id: string,
    userId: string,
    reservationId: string,
    market: string,
    baseAsset: string,
    quoteAsset: string,
    side: Side,
    kind: Kind,
    status: Status,
    timeInForce: TimeInForce,
    price: int,
    quantity: int,
    filled: int,
    remaining: int,
    sequence: nat,
    updatedAt: int)

  datatype Trade = Trade(
    id: string,
    market: string,
    baseAsset: string,
    quoteAsset: string,
    makerOrderId: string,
    takerOrderId: string,
    makerUserId: string,
    takerUserId: string,
    takerSide: Side,
    price: int,
    quantity: int,
    quoteQuantity: int,
    createdAt: int)

  /** What one matching call reports: the final taker, the makers it hit and the trades. */
  datatype MatchResult = MatchResult(taker: Order, makers: seq<Order>, trades: seq<Trade>)

  datatype MatchError =
    | MissingTakerId
    | IncompleteMarket
    | InvalidSide
    | NonPositivePrice
    | NonPositiveRemaining
    | QuoteBelowPrecision
    | WrongMarket
    | WrongBaseAsset
    | WrongQuoteAsset
    | AlreadyActive
    | MissingOrderId
    | MarketOrderCannotRest
    | StatusNotActive
    | SnapshotCorrupt

  datatype Outcome<+T> = Done(value: T) | Failed(error: MatchError)

  datatype Option<+T> = None | Some(value: T)

  predicate IsOpenStatus(s: Status) {
    s.Open? || s.PartiallyFilled?
  }

  function Opposite(s: Side): Side {
    if s.Buy? then Sell else Buy
  }
}
