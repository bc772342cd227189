/** Engine trades against the ledger: every trade can be settled, and how far per-fill rounding drifts
    from the amount an order reserved. */
module Settlement {
  import opened Orders
  import opened Engine
  import opened BookSpec
  import opened Sweeping
  import opened MatchingLaws
  import opened Ledger
  import Decimal

  /** A trade at the maker's price within the buyer's limit. */
  predicate Settleable(x: Trade, maker: Order, taker: Order) {
    var p := SettlementForTrade(x, maker, taker);
    p.Ok? && p.value.lockedQuote == x.quoteQuantity + p.value.release && p.value.release >= 0
  }

  /** Rounding is monotone, so a fill at the maker's price never costs more than the buyer's limit locked for it. */
  lemma FillSettles(x: Trade, maker: Order, taker: Order)
    requires maker.id != "" && taker.id != "" && x.takerSide == taker.side && !taker.side.OtherSide?
    requires x.quantity > 0 && x.price == maker.price && x.quoteQuantity == Decimal.Mul(x.quantity, x.price) > 0
    requires taker.side.Buy? ==> taker.price >= maker.price
    ensures Settleable(x, maker, taker)
  {
    Decimal.MulPositiveIff(x.quantity, maker.price);
    assert maker.price <= 0 ==> x.quantity * maker.price <= 0;
    if taker.side.Buy? {
      Decimal.MulMonotone(x.quantity, maker.price, taker.price);
    }
  }

  /** Every trade a scan of the list matcher reports can be settled against its maker and taker. */
  lemma {:induction false} ScanSettles(r: MatchResult, makers: seq<Order>, ids: TradeIds, now: int)
    requires r.taker.id != "" && !r.taker.side.OtherSide? && |r.makers| == |r.trades|
    requires forall i :: 0 <= i < |r.trades| ==> Settleable(r.trades[i], r.makers[i], r.taker)
    requires Scan(r, makers, ids, now).Done?
    ensures var o := Scan(r, makers, ids, now).value;
            && |o.makers| == |o.trades|
            && forall i :: 0 <= i < |o.trades| ==> Settleable(o.trades[i], o.makers[i], o.taker)
    decreases |makers|
  {
    if makers != [] && r.taker.remaining > 0 {
      if EligibleMaker(r.taker, makers[0]) {
        var next := Execute(r, makers[0], ids, now);
        FillSettles(next.trades[|r.trades|], next.makers[|r.trades|], next.taker);
        forall i | 0 <= i < |next.trades| ensures Settleable(next.trades[i], next.makers[i], next.taker) {
          assert i < |r.trades| ==> next.trades[i] == r.trades[i] && next.makers[i] == r.makers[i];
        }
        ScanSettles(next, makers[1..], ids, now);
      } else if !(IsSelfTrade(r.taker, makers[0]) && CrossesPrice(r.taker, makers[0])) {
        ScanSettles(r, makers[1..], ids, now);
      }
    }
  }

  /** ... for any list of makers whatever. */
  lemma MatchLimitSettles(taker: Order, makers: seq<Order>, ids: TradeIds, now: int)
    requires MatchLimitSpec(taker, makers, ids, now).Done?
    ensures var o := MatchLimitSpec(taker, makers, ids, now).value;
            && |o.makers| == |o.trades|
            && forall i :: 0 <= i < |o.trades| ==> Settleable(o.trades[i], o.makers[i], o.taker)
  {
    ScanSettles(MatchResult(taker, [], []), makers, ids, now);
  }

  /** The trades of a walk of a queue settle. */
  lemma WalkSettles(side: Side, t: Order, q: seq<Order>, r: MatchResult, now: int)
    requires t.side == Opposite(side) && !t.side.OtherSide? && t.id != "" && SameTerms(t, r.taker)
    requires t.side.Buy? ==> EffectiveTaker(t).price == t.price
    requires forall o :: o in q ==> o.id != ""
    requires HitsFront(q, r.makers, r.trades, now) && TradesDescribe(t, r.makers, r.trades, now)
    requires FairPrices(side, t, r.trades)
    ensures forall i :: 0 <= i < |r.trades| ==> Settleable(r.trades[i], r.makers[i], r.taker)
  {
    forall i | 0 <= i < |r.trades| ensures Settleable(r.trades[i], r.makers[i], r.taker) {
      assert HitBy(q[i], r.makers[i], r.trades[i], now) && r.trades[i] in r.trades;
      FillSettles(r.trades[i], r.makers[i], r.taker);
    }
  }

  /** Every trade of a successful `Apply` can be settled against the updated maker and the final taker, and the
      buyer's debit is the seller's receipt plus the buyer's release. */
  lemma ApplySettles(c: Config, issued: map<string, nat>, v: View, taker: Order, ids: TradeIds, now: int)
    requires WF(c, issued, v) && Ticketed(issued, taker)
    requires ApplySpec(c, v, taker, ids, now).outcome.Done?
    ensures var r := ApplySpec(c, v, taker, ids, now).outcome.value;
            && |r.makers| == |r.trades|
            && forall i :: 0 <= i < |r.trades| ==> Settleable(r.trades[i], r.makers[i], r.taker)
  {
    PriceTimePriority(c, issued, v, taker, ids, now);
    AcceptedIsReady(c, issued, v, taker);
    var r := ApplySpec(c, v, taker, ids, now).outcome.value;
    var t := Prepared(c, taker);
    forall o | o in v.On(Opposite(t.side)) ensures o.id != "" {
      assert Has(v, o) && Resting(c, issued, o);
    }
    WalkSettles(Opposite(t.side), t, v.On(Opposite(t.side)), r, now);
  }

  // ---- Rounding drift of a buy order ----

  function SumOf(fills: seq<int>): int {
    if fills == [] then 0 else fills[0] + SumOf(fills[1..])
  }

  /** What the fills of a buy order take out of its locked funds, each rounded on its own. */
  function Debits(price: int, fills: seq<int>): int {
    if fills == [] then 0 else Decimal.Mul(fills[0], price) + Debits(price, fills[1..])
  }

  lemma {:induction false} DebitsDrift(price: int, fills: seq<int>)
    ensures -(|fills| * Decimal.UNIT)
              <= 2 * (Decimal.UNIT * Debits(price, fills) - SumOf(fills) * price)
              <= |fills| * Decimal.UNIT
  {
    if fills != [] {
      DebitsDrift(price, fills[1..]);
      Decimal.RoundNearest(fills[0] * price);
      Distribute(fills[0], SumOf(fills[1..]), price);
    }
  }

  lemma Distribute(a: int, b: int, p: int)
    ensures (a + b) * p == a * p + b * p
  {
  }

  /** Rounding drift: for a buy order filled in n pieces, what it reserved differs from the sum of its debits plus
      the final release by at most (n + 2) / 2 units, and by at most (n + 1) / 2 when nothing is left to release. */
  lemma ReserveDrift(price: int, quantity: int, fills: seq<int>)
    ensures var rest := quantity - SumOf(fills);
            var gap := Decimal.Mul(price, quantity) - Debits(price, fills) - Decimal.Mul(price, rest);
            && -(|fills| + 2) <= 2 * gap <= |fills| + 2
            && (SumOf(fills) == quantity ==> -(|fills| + 1) <= 2 * gap <= |fills| + 1)
  {
    var rest := quantity - SumOf(fills);
    DebitsDrift(price, fills);
    Decimal.RoundNearest(price * quantity);
    Decimal.RoundNearest(price * rest);
    SplitProduct(price, SumOf(fills), rest);
  }

  lemma {:induction false} DebitsExact(price: int, fills: seq<int>)
    requires forall q :: q in fills ==> Decimal.Representable(q, price)
    ensures Decimal.UNIT * Debits(price, fills) == SumOf(fills) * price
  {
    if fills != [] {
      assert fills[0] in fills && forall q :: q in fills[1..] ==> q in fills;
      DebitsExact(price, fills[1..]);
      Decimal.MulExactIff(fills[0], price);
      Distribute(fills[0], SumOf(fills[1..]), price);
    }
  }

  /** Without drift: when 18 digits hold every product, the reserved amount is used up to the last unit. */
  lemma NoDriftWhenRepresentable(price: int, quantity: int, fills: seq<int>)
    requires Decimal.Representable(price, quantity) && forall q :: q in fills ==> Decimal.Representable(q, price)
    ensures Decimal.Mul(price, quantity) == Debits(price, fills) + Decimal.Mul(price, quantity - SumOf(fills))
  {
    var rest := quantity - SumOf(fills);
    DebitsExact(price, fills);
    Decimal.MulExactIff(price, quantity);
    SplitProduct(price, SumOf(fills), rest);
    Decimal.RoundUnique(price * rest, Decimal.Mul(price, quantity) - Debits(price, fills));
  }

  lemma SplitProduct(p: int, a: int, b: int)
    ensures p * (a + b) == a * p + p * b
  {
  }
}
