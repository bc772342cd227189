/** What per-fill rounding does to a placed buy order: every settlement takes its own rounded product out of one
    reservation that was rounded once. */
module Drift {
  import opened Orders
  import opened Ledger
  import opened Settlement
  import opened Sweeping
  import opened Cover
  import opened Transactions
  import Decimal

  // ---- The exact condition on the price ----

  ghost predicate AllPositive(fills: seq<int>) {
    forall q :: q in fills ==> q > 0
  }

  /** However an order at this price is filled, its fills take no more than it reserved. */
  ghost predicate NeverOverdraws(price: int) {
    forall fills :: AllPositive(fills) ==> Debits(price, fills) <= Decimal.Mul(price, SumOf(fills))
  }

  /** The least quantity whose product with the price rounds up. */
  function RoundingUp(price: int): (q: int)
    requires price > 0 && price % Decimal.UNIT != 0
    ensures q > 0
  {
    var r := price % Decimal.UNIT;
    if 2 * r >= Decimal.UNIT then 1 else
      LeastIsPositive(r);
      (Decimal.UNIT / 2 + r - 1) / r
  }

  lemma LeastIsPositive(r: int)
    requires r > 0
    ensures (Decimal.UNIT / 2 + r - 1) / r > 0
  {
    DivisionBounds(Decimal.UNIT / 2 + r - 1, r);
  }

  lemma DivisionBounds(n: int, d: int)
    requires n >= d > 0
    ensures n / d > 0 && n - d < n / d * d <= n
  {
    assert n == n / d * d + n % d;
  }

  lemma RoundsUp(price: int)
    requires price > 0 && price % Decimal.UNIT != 0
    ensures Decimal.UNIT * Decimal.Mul(RoundingUp(price), price) > RoundingUp(price) * price
  {
    var u, q, r := Decimal.UNIT, RoundingUp(price), price % Decimal.UNIT;
    var k := price / u;
    if 2 * r < u {
      DivisionBounds(u / 2 + r - 1, r);
      assert q * r == (u / 2 + r - 1) / r * r;
    }
    assert u <= 2 * (q * r) < 2 * u;
    Product(q, k, u, r, price);
    Decimal.RoundUnique(q * price, q * k + 1);
  }

  lemma Product(q: int, k: int, u: int, r: int, price: int)
    requires price == u * k + r
    ensures q * price == u * (q * k) + q * r
  {
  }

  function Repeat(q: int, n: nat): seq<int> {
    if n == 0 then [] else [q] + Repeat(q, n - 1)
  }

  lemma {:induction false} RepeatedFills(price: int, q: int, n: nat)
    ensures Debits(price, Repeat(q, n)) == n * Decimal.Mul(q, price) && SumOf(Repeat(q, n)) == n * q
    ensures q > 0 ==> AllPositive(Repeat(q, n))
  {
    if n > 0 {
      RepeatedFills(price, q, n - 1);
      assert Repeat(q, n)[1..] == Repeat(q, n - 1);
      OneMore(n, Decimal.Mul(q, price));
      OneMore(n, q);
    }
  }

  lemma OneMore(n: int, x: int)
    ensures n * x == (n - 1) * x + x
  {
  }

  /** The fills that overdraw: one whole unit of them, each of the least quantity that rounds up. */
  lemma Overdrawing(price: int)
    requires price > 0 && price % Decimal.UNIT != 0
    ensures var q := RoundingUp(price); var fills := Repeat(q, Decimal.UNIT);
            && AllPositive(fills) && SumOf(fills) == Decimal.UNIT * q
            && Debits(price, fills) > Decimal.Mul(price, SumOf(fills))
  {
    var q := RoundingUp(price);
    RoundsUp(price);
    RepeatedFills(price, q, Decimal.UNIT);
    WholeProduct(price, q);
  }

  lemma WholeProduct(price: int, q: int)
    ensures Decimal.Mul(price, Decimal.UNIT * q) == q * price
  {
    assert price * (Decimal.UNIT * q) == Decimal.UNIT * (q * price);
    Decimal.RoundUnique(price * (Decimal.UNIT * q), q * price);
  }

  lemma WholePriceExact(price: int, fills: seq<int>)
    requires price % Decimal.UNIT == 0
    ensures Debits(price, fills) == Decimal.Mul(price, SumOf(fills))
  {
    var k := price / Decimal.UNIT;
    assert price == k * Decimal.UNIT;
    forall q ensures Decimal.Representable(q, price) && Decimal.Representable(price, q) {
      assert q * price == Decimal.UNIT * (q * k) && price * q == Decimal.UNIT * (q * k);
      Decimal.MultipleHasNoRemainder(q * k);
    }
    NoDriftWhenRepresentable(price, SumOf(fills), fills);
    assert Decimal.Mul(price, 0) == 0;
  }

  /** The exact condition, known before an order is placed: its fills can never overdraw what it reserved if and only if
      its price is a whole number of quote. */
  lemma NeverOverdrawsIffWhole(price: int)
    requires price > 0
    ensures NeverOverdraws(price) <==> price % Decimal.UNIT == 0
  {
    if price % Decimal.UNIT == 0 {
      forall fills | AllPositive(fills) ensures Debits(price, fills) <= Decimal.Mul(price, SumOf(fills)) {
        WholePriceExact(price, fills);
      }
    } else {
      Overdrawing(price);
    }
  }

  // ---- Settlements of one buy order ----

  function Quantities(trades: seq<Trade>): seq<int> {
    if trades == [] then [] else [trades[0].quantity] + Quantities(trades[1..])
  }

  /** A trade that settles a fill of the buy order `o`, whatever its stored row shows by then, against a seller with a
      reservation of its own. */
  predicate Buys(orders: map<string, Order>, x: Trade, o: Order) {
    && x.makerOrderId in orders && x.takerOrderId in orders && x.quantity > 0
    && x.quoteAsset == o.quoteAsset && x.baseAsset == o.baseAsset
    && var maker, taker := orders[x.makerOrderId], orders[x.takerOrderId];
       && SameTerms(o, if x.takerSide.Buy? then taker else maker)
       && ReservationId(if x.takerSide.Buy? then maker else taker) != ReservationId(o)
  }

  /** What the reservation of an order still holds. */
  function Left(t: Tables, o: Order): int {
    if ReservationId(o) in t.reservations then t.reservations[ReservationId(o)].remaining else 0
  }

  predicate Reserving(t: Tables, o: Order) {
    o.id != "" && o.quoteAsset != o.baseAsset && ReservationId(o) in t.reservations
  }

  lemma BuyerTakes(t: Tables, x: Trade, p: Plan)
    requires SettleBuyer(t, x, p).Ok? && Reserving(t, p.buyer) && x.quoteAsset == p.buyer.quoteAsset
    requires x.baseAsset == p.buyer.baseAsset
    requires x.quoteQuantity > 0 && p.release == p.lockedQuote - x.quoteQuantity >= 0
    ensures var n := SettleBuyer(t, x, p).value;
            && Reserving(n, p.buyer) && Left(n, p.buyer) == Left(t, p.buyer) - p.lockedQuote && Left(n, p.buyer) >= 0
            && Locked(n, p.buyer.userId, x.quoteAsset) == Locked(t, p.buyer.userId, x.quoteAsset) - p.lockedQuote
  {
  }

  lemma SellerLeaves(t: Tables, x: Trade, p: Plan, o: Order)
    requires SettleSeller(t, x, p).Ok? && Reserving(t, o) && ReservationId(p.seller) != ReservationId(o)
    requires x.quoteAsset == o.quoteAsset && x.baseAsset == o.baseAsset
    ensures var n := SettleSeller(t, x, p).value;
            && Reserving(n, o) && Left(n, o) == Left(t, o)
            && Locked(n, o.userId, o.quoteAsset) == Locked(t, o.userId, o.quoteAsset)
  {
  }

  /** Settling the fills of a buy order takes their debits out of its reservation and out of what the buyer has
      locked. */
  lemma {:induction false} SettledDebits(t: Tables, orders: map<string, Order>, trades: seq<Trade>, o: Order)
    requires Reserving(t, o) && Left(t, o) >= 0 && forall x :: x in trades ==> Buys(orders, x, o)
    requires SettleTrades(t, orders, trades).Ok?
    ensures var n, debits := SettleTrades(t, orders, trades).value, Debits(o.price, Quantities(trades));
            && Reserving(n, o) && 0 <= Left(n, o) == Left(t, o) - debits
            && Locked(n, o.userId, o.quoteAsset) == Locked(t, o.userId, o.quoteAsset) - debits
    decreases |trades|
  {
    if trades != [] {
      var x := trades[0];
      assert x in trades && Buys(orders, x, o) && forall y :: y in trades[1..] ==> y in trades;
      var maker, taker := orders[x.makerOrderId], orders[x.takerOrderId];
      var p := SettlementForTrade(x, maker, taker).value;
      assert ReservationId(p.buyer) == ReservationId(o) && p.lockedQuote == Decimal.Mul(x.quantity, o.price);
      BuyerTakes(t, x, p);
      SellerLeaves(SettleBuyer(t, x, p).value, x, p, o);
      SettledDebits(SettleTrade(t, x, maker, taker).value, orders, trades[1..], o);
      assert Quantities(trades)[1..] == Quantities(trades[1..]);
    }
  }

  lemma PlacedReserves(s: Exchange, o: Order)
    requires Built(o) && o.side.Buy? && o.quoteAsset != o.baseAsset && PlaceTx(s, o, false).Ok?
    ensures var t := PlaceTx(s, o, false).value.tables;
            Reserving(t, o) && Left(t, o) == Decimal.Mul(o.price, o.quantity) > 0
  {
  }

  /** A placed buy order after the settlement of some fills. */
  lemma PlacedLeft(s: Exchange, o: Order, orders: map<string, Order>, trades: seq<Trade>)
    requires Built(o) && o.side.Buy? && o.quoteAsset != o.baseAsset && PlaceTx(s, o, false).Ok?
    requires forall x :: x in trades ==> Buys(orders, x, o)
    requires SettleTrades(PlaceTx(s, o, false).value.tables, orders, trades).Ok?
    ensures 0 <= Left(SettleTrades(PlaceTx(s, o, false).value.tables, orders, trades).value, o)
              == Decimal.Mul(o.price, o.quantity) - Debits(o.price, Quantities(trades))
  {
    PlacedReserves(s, o);
    SettledDebits(PlaceTx(s, o, false).value.tables, orders, trades, o);
  }

  /** The drift of a placed buy order, settled in n fills: what its reservation still holds and what the rest of the
      order needs differ by at most (n + 2) / 2 units, and by at most (n + 1) / 2 once it is filled. */
  lemma PlacedDrift(s: Exchange, o: Order, orders: map<string, Order>, trades: seq<Trade>)
    requires Built(o) && o.side.Buy? && o.quoteAsset != o.baseAsset && PlaceTx(s, o, false).Ok?
    requires forall x :: x in trades ==> Buys(orders, x, o)
    requires SettleTrades(PlaceTx(s, o, false).value.tables, orders, trades).Ok?
    ensures var n := SettleTrades(PlaceTx(s, o, false).value.tables, orders, trades).value;
            DriftBound(o.price, o.quantity, Quantities(trades), Left(n, o))
  {
    PlacedLeft(s, o, orders, trades);
    LeftWithin(o.price, o.quantity, Quantities(trades));
  }

  lemma LeftWithin(price: int, quantity: int, fills: seq<int>)
    ensures DriftBound(price, quantity, fills, Decimal.Mul(price, quantity) - Debits(price, fills))
  {
    ReserveDrift(price, quantity, fills);
  }

  /** `left` differs from what the rest of the quantity needs by at most (n + 2) / 2 units after n fills, and by at most
      (n + 1) / 2 once nothing is left to fill. */
  predicate DriftBound(price: int, quantity: int, fills: seq<int>, left: int) {
    var rest := quantity - SumOf(fills);
    Within(left - Decimal.Mul(price, rest), |fills| + if rest == 0 then 1 else 2)
  }

  /** At most `halves` half units, either way. */
  predicate Within(gap: int, halves: int) {
    -halves <= 2 * gap <= halves
  }

  /** An overdrawing fill list cannot be settled, whatever else the buyer has locked. */
  lemma OverdrawnFails(s: Exchange, o: Order, orders: map<string, Order>, trades: seq<Trade>)
    requires Built(o) && o.side.Buy? && o.quoteAsset != o.baseAsset && PlaceTx(s, o, false).Ok?
    requires forall x :: x in trades ==> Buys(orders, x, o)
    requires Debits(o.price, Quantities(trades)) > Decimal.Mul(o.price, o.quantity)
    ensures SettleTrades(PlaceTx(s, o, false).value.tables, orders, trades).Err?
  {
    if SettleTrades(PlaceTx(s, o, false).value.tables, orders, trades).Ok? {
      PlacedLeft(s, o, orders, trades);
    }
  }

  /** Drift costs a settlement: at every price that is not a whole number of quote there is a quantity and a way to fill
      it that no placed order of that quantity can be settled in. */
  lemma FractionalPriceOverdraws(s: Exchange, o: Order, orders: map<string, Order>, trades: seq<Trade>)
    requires Built(o) && o.side.Buy? && o.quoteAsset != o.baseAsset && PlaceTx(s, o, false).Ok?
    requires o.price % Decimal.UNIT != 0 && o.quantity == Decimal.UNIT * RoundingUp(o.price)
    requires Quantities(trades) == Repeat(RoundingUp(o.price), Decimal.UNIT)
    requires forall x :: x in trades ==> Buys(orders, x, o)
    ensures SumOf(Quantities(trades)) == o.quantity
    ensures SettleTrades(PlaceTx(s, o, false).value.tables, orders, trades).Err?
  {
    Overdrawing(o.price);
    OverdrawnFails(s, o, orders, trades);
  }

  /** ... and at a whole price every fill list within the quantity stays within the reservation, down to the last
      unit. */
  lemma WholePriceReserves(s: Exchange, o: Order, orders: map<string, Order>, trades: seq<Trade>)
    requires Built(o) && o.side.Buy? && o.quoteAsset != o.baseAsset && PlaceTx(s, o, false).Ok?
    requires o.price % Decimal.UNIT == 0 && forall x :: x in trades ==> Buys(orders, x, o)
    requires SettleTrades(PlaceTx(s, o, false).value.tables, orders, trades).Ok?
    ensures var n := SettleTrades(PlaceTx(s, o, false).value.tables, orders, trades).value;
            NoDrift(o.price, o.quantity, Quantities(trades), Left(n, o))
  {
    PlacedLeft(s, o, orders, trades);
    LeftWhole(o.price, o.quantity, Quantities(trades));
  }

  /** `left` is what the rest of the quantity needs, to the last unit. */
  predicate NoDrift(price: int, quantity: int, fills: seq<int>, left: int) {
    left == Decimal.Mul(price, quantity - SumOf(fills))
  }

  lemma LeftWhole(price: int, quantity: int, fills: seq<int>)
    requires price % Decimal.UNIT == 0
    ensures NoDrift(price, quantity, fills, Decimal.Mul(price, quantity) - Debits(price, fills))
  {
    WholePriceExact(price, fills);
    WholeParts(price, quantity, SumOf(fills));
  }

  lemma WholeParts(price: int, a: int, b: int)
    requires price % Decimal.UNIT == 0
    ensures Decimal.Mul(price, a) - Decimal.Mul(price, b) == Decimal.Mul(price, a - b)
  {
    var k := price / Decimal.UNIT;
    assert price == Decimal.UNIT * k;
    forall q ensures Decimal.Mul(price, q) == k * q {
      assert price * q == Decimal.UNIT * (k * q);
      Decimal.RoundUnique(price * q, k * q);
    }
    assert k * (a - b) == k * a - k * b;
  }
}
