/** The list matcher of internal/core/matching/engine.go: one taker against a list of makers. */
module Engine {
  import opened Orders
  import Decimal

  /** Draws the k-th trade id of a matching call. */
  type TradeIds = nat -> string

  const MICROSECOND: int := 1000

  function ValidateTaker(o: Order): Option<MatchError> {
    if o.id == "" then Some(MissingTakerId)
    else if o.market == "" || o.baseAsset == "" || o.quoteAsset == "" then Some(IncompleteMarket)
    else if o.side.OtherSide? then Some(InvalidSide)
    else if o.price <= 0 then Some(NonPositivePrice)
    else if o.remaining <= 0 then Some(NonPositiveRemaining)
    else None
  }

  predicate IsSelfTrade(taker: Order, maker: Order) {
    taker.userId != "" && taker.userId == maker.userId
  }

  predicate CrossesPrice(taker: Order, maker: Order) {
    && maker.id != "" && maker.id != taker.id
    && maker.market == taker.market && maker.side != taker.side
    && IsOpenStatus(maker.status)
    && maker.remaining > 0
    && match taker.side
       case Buy => maker.side.Sell? && maker.price <= taker.price
       case Sell => maker.side.Buy? && maker.price >= taker.price
       case OtherSide => false
  }

  predicate EligibleMaker(taker: Order, maker: Order) {
    !IsSelfTrade(taker, maker) && CrossesPrice(taker, maker)
  }

  function StatusForRemaining(remaining: int): Status {
    if remaining <= 0 then Filled else PartiallyFilled
  }

  function FillQuantity(taker: Order, maker: Order): int {
    Decimal.Min(taker.remaining, maker.remaining)
  }

  /** An order after an execution of `qty`. */
  function Executed(o: Order, qty: int, now: int): Order {
    var rest := Decimal.SubFloorZero(o.remaining, qty);
    o.(filled := o.filled + qty, remaining := rest, status := StatusForRemaining(rest), updatedAt := now)
  }

  /** One execution of the taker of `r` against `maker`, at the maker's price. */
  function Execute(r: MatchResult, maker: Order, ids: TradeIds, now: int): MatchResult {
    var qty := FillQuantity(r.taker, maker);
    var item := Trade(
      ids(|r.trades|), r.taker.market, r.taker.baseAsset, r.taker.quoteAsset,
      maker.id, r.taker.id, maker.userId, r.taker.userId, r.taker.side,
      maker.price, qty, Decimal.Mul(qty, maker.price), now + |r.trades| * MICROSECOND);
    MatchResult(Executed(r.taker, qty, now), r.makers + [Executed(maker, qty, now)], r.trades + [item])
  }

  function Expire(r: MatchResult, now: int): MatchResult {
    r.(taker := r.taker.(status := Expired, updatedAt := now))
  }

  /** The scan of `MatchLimit` over the makers still ahead of it. */
  function Scan(r: MatchResult, makers: seq<Order>, ids: TradeIds, now: int): Outcome<MatchResult>
    decreases |makers|
  {
    if makers == [] || r.taker.remaining <= 0 then Done(r)
    else if EligibleMaker(r.taker, makers[0]) then
      if Decimal.Mul(FillQuantity(r.taker, makers[0]), makers[0].price) <= 0 then Failed(QuoteBelowPrecision)
      else Scan(Execute(r, makers[0], ids, now), makers[1..], ids, now)
    else if IsSelfTrade(r.taker, makers[0]) && CrossesPrice(r.taker, makers[0]) then Done(Expire(r, now))
    else Scan(r, makers[1..], ids, now)
  }

  /** The status a scan leaves on an unfilled taker that neither traded nor expired. */
  function Reopen(o: Order): Order {
    if o.remaining > 0 && !o.status.PartiallyFilled? && !o.status.Expired? then o.(status := Open) else o
  }

  function MatchLimitSpec(taker: Order, makers: seq<Order>, ids: TradeIds, now: int): Outcome<MatchResult> {
    match ValidateTaker(taker)
    case Some(e) => Failed(e)
    case None =>
      match Scan(MatchResult(taker, [], []), makers, ids, now)
      case Failed(e) => Failed(e)
      case Done(r) => Done(r.(taker := Reopen(r.taker)))
  }

  /** `MatchLimit` as the loop of the source. */
  method MatchLimit(taker: Order, makers: seq<Order>, ids: TradeIds, now: int) returns (out: Outcome<MatchResult>)
    ensures out == MatchLimitSpec(taker, makers, ids, now)
  {
    var invalid := ValidateTaker(taker);
    if invalid.Some? {
      return Failed(invalid.value);
    }
    var result := MatchResult(taker, [], []);
    ghost var whole := Scan(result, makers, ids, now);
    var i := 0;
    assert makers[0..] == makers;
    while i < |makers| && result.taker.remaining > 0
      invariant 0 <= i <= |makers|
      invariant Scan(result, makers[i..], ids, now) == whole
    {
      var maker := makers[i];
      assert makers[i..][1..] == makers[i + 1..];
      if !EligibleMaker(result.taker, maker) {
        if IsSelfTrade(result.taker, maker) && CrossesPrice(result.taker, maker) {
          result := Expire(result, now);
          return Done(result.(taker := Reopen(result.taker)));
        }
        i := i + 1;
        continue;
      }
      var qty := FillQuantity(result.taker, maker);
      var quoteQuantity := Decimal.Mul(qty, maker.price);
      if quoteQuantity <= 0 {
        return Failed(QuoteBelowPrecision);
      }
      result := Execute(result, maker, ids, now);
      i := i + 1;
    }
    out := Done(result.(taker := Reopen(result.taker)));
  }
}
