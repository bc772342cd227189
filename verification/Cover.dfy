/** Exact cover: what a user has locked in a base asset is the sum of what is left of their live sell orders. */
module Cover {
  import opened Orders
  import opened Sums
  import opened Ledger
  import opened Conservation
  import opened Sweeping
  import opened Projection
  import Decimal

  datatype Exchange = Exchange(orders: map<string, Order>, tables: Tables)

  predicate IsLive(s: Status) {
    s.PendingMatch? || s.PendingStop? || s.Open? || s.PartiallyFilled?
  }

  function Locked(t: Tables, user: string, asset: string): int {
    BalanceOf(t, Account(user, asset)).locked
  }

  predicate Sells(o: Order, asset: string) {
    o.side.Sell? && o.baseAsset == asset
  }

  predicate SellsFor(o: Order, user: string, asset: string) {
    Sells(o, asset) && o.userId == user
  }

  /** What an order holds; an order named `expiring` still holds its remainder. */
  function Hold(o: Order, expiring: string): int {
    if IsLive(o.status) || o.id == expiring then o.remaining else 0
  }

  /** ... of a user's asset. */
  function Holds(o: Order, user: string, asset: string, expiring: string): int {
    if SellsFor(o, user, asset) then Hold(o, expiring) else 0
  }

  ghost function Held(orders: map<string, Order>, user: string, asset: string, expiring: string): int {
    Sum(map id | id in orders :: Holds(orders[id], user, asset, expiring))
  }

  function SellerOrder(x: Trade): string {
    if x.takerSide.Buy? then x.makerOrderId else x.takerOrderId
  }

  function SellerUser(x: Trade): string {
    if x.takerSide.Buy? then x.makerUserId else x.takerUserId
  }

  /** What trades still to be settled will take from a user's asset. */
  function Owed(trades: seq<Trade>, user: string, asset: string): int {
    if trades == [] then 0
    else
      (if SellerUser(trades[0]) == user && trades[0].baseAsset == asset then trades[0].quantity else 0)
      + Owed(trades[1..], user, asset)
  }

  /** ... and from an order. */
  function OwedBy(trades: seq<Trade>, id: string): int {
    if trades == [] then 0
    else (if SellerOrder(trades[0]) == id then trades[0].quantity else 0) + OwedBy(trades[1..], id)
  }

  /** A trade between two stored orders on opposite sides, in an asset pair whose quote is not `asset`. */
  predicate Fits(orders: map<string, Order>, asset: string, x: Trade) {
    && x.makerOrderId in orders && x.takerOrderId in orders && x.makerOrderId != x.takerOrderId
    && var maker, taker := orders[x.makerOrderId], orders[x.takerOrderId];
       && taker.side == x.takerSide && !taker.side.OtherSide? && maker.side == Opposite(taker.side)
       && maker.userId == x.makerUserId && taker.userId == x.takerUserId
       && maker.baseAsset == x.baseAsset && taker.baseAsset == x.baseAsset
       && x.quoteAsset != asset && x.quantity > 0
  }

  /** Stored orders are filed under their ids, never overfilled, and each owns its reservation. */
  ghost predicate OrdersOk(orders: map<string, Order>, t: Tables) {
    forall id :: id in orders ==> OwnsReservation(orders[id], id, t)
  }

  predicate OwnsReservation(o: Order, id: string, t: Tables) {
    && o.id == id != "" && o.remaining >= 0 && !o.side.OtherSide?
    && ReservationId(o) in t.reservations && t.reservations[ReservationId(o)].orderId == id
  }

  /** A sell order's reservation holds what the order holds and what its unsettled trades will take, and nothing once
      the order has ended. */
  ghost predicate Reserved(orders: map<string, Order>, t: Tables, asset: string, trades: seq<Trade>, expiring: string) {
    forall id :: id in orders ==> ReservedFor(orders[id], t, asset, OwedBy(trades, id), expiring)
  }

  predicate ReservedFor(o: Order, t: Tables, asset: string, owed: int, expiring: string) {
    Sells(o, asset) ==>
      ReservationId(o) in t.reservations && t.reservations[ReservationId(o)].remaining == Hold(o, expiring) + owed
  }

  ghost predicate Covers(orders: map<string, Order>, t: Tables, asset: string, trades: seq<Trade>, expiring: string) {
    && OrdersOk(orders, t) && Reserved(orders, t, asset, trades, expiring)
    && forall user :: Locked(t, user, asset) == Held(orders, user, asset, expiring) + Owed(trades, user, asset)
  }

  // ---- One settlement ----

  lemma HeldNonNegative(orders: map<string, Order>, t: Tables, user: string, asset: string, expiring: string)
    requires OrdersOk(orders, t)
    ensures Held(orders, user, asset, expiring) >= 0
    ensures forall id :: id in orders ==>
              Holds(orders[id], user, asset, expiring) <= Held(orders, user, asset, expiring)
  {
    var m := map id | id in orders :: Holds(orders[id], user, asset, expiring);
    assert forall id :: id in m ==> OwnsReservation(orders[id], id, t);
    SumNonNegative(m);
    assert forall id :: id in orders ==> m[id] == Holds(orders[id], user, asset, expiring);
  }

  lemma {:induction false} OwedNonNegative(trades: seq<Trade>, user: string, asset: string, id: string)
    requires forall x :: x in trades ==> x.quantity > 0
    ensures Owed(trades, user, asset) >= 0 && OwedBy(trades, id) >= 0
  {
    if trades != [] {
      assert trades[0] in trades && forall x :: x in trades[1..] ==> x in trades;
      OwedNonNegative(trades[1..], user, asset, id);
    }
  }

  /** The buyer's half touches no locked balance of `asset`, and of the reservations only the buyer's own. */
  lemma BuyerLeavesLocked(t: Tables, x: Trade, p: Plan, asset: string)
    requires SettleBuyer(t, x, p).Ok? && x.quoteAsset != asset
    ensures var n := SettleBuyer(t, x, p).value;
            && (forall user :: Locked(n, user, asset) == Locked(t, user, asset))
            && SameReservations(t, n, ReservationId(p.buyer))
  {
  }

  /** Only the reservation `id` may differ, and keeps its order. */
  ghost predicate SameReservations(t: Tables, n: Tables, id: string) {
    && (forall r :: r in t.reservations <==> r in n.reservations)
    && (forall r :: r in t.reservations && r != id ==> n.reservations[r] == t.reservations[r])
    && (id in t.reservations ==> n.reservations[id].orderId == t.reservations[id].orderId)
  }

  /** The seller's half succeeds as soon as enough is locked and reserved, and takes exactly that. */
  lemma SellerSettles(t: Tables, x: Trade, p: Plan, asset: string)
    requires x.quantity > 0 && x.quoteAsset != asset && x.baseAsset == asset
    requires Locked(t, p.seller.userId, asset) >= x.quantity
    requires var id := ReservationId(p.seller); id in t.reservations && t.reservations[id].remaining >= x.quantity
    ensures SettleSeller(t, x, p).Ok?
    ensures var n, id := SettleSeller(t, x, p).value, ReservationId(p.seller);
            && (forall user :: Locked(n, user, asset) == Locked(t, user, asset) -
                                   (if user == p.seller.userId then x.quantity else 0))
            && SameReservations(t, n, id)
            && (id != "" ==> n.reservations[id].remaining == t.reservations[id].remaining - x.quantity)
  {
  }

  lemma OtherSellerSettles(t: Tables, x: Trade, p: Plan, asset: string)
    requires SettleSeller(t, x, p).Ok? && x.quoteAsset != asset && x.baseAsset != asset
    ensures var n := SettleSeller(t, x, p).value;
            && (forall user :: Locked(n, user, asset) == Locked(t, user, asset))
            && SameReservations(t, n, ReservationId(p.seller))
  {
  }

  /** Orders with different ids own different reservations. */
  lemma ReservationsDiffer(orders: map<string, Order>, t: Tables, a: string, b: string)
    requires OrdersOk(orders, t) && a in orders && b in orders && a != b
    ensures ReservationId(orders[a]) != ReservationId(orders[b])
  {
    assert OwnsReservation(orders[a], a, t) && OwnsReservation(orders[b], b, t);
  }

  /** Keeping the owner of every reservation keeps the orders in order. */
  lemma OrdersStayOk(orders: map<string, Order>, t: Tables, n: Tables, id: string)
    requires OrdersOk(orders, t) && SameReservations(t, n, id)
    ensures OrdersOk(orders, n)
  {
    forall o | o in orders ensures OwnsReservation(orders[o], o, n) {
      assert OwnsReservation(orders[o], o, t);
    }
  }

  /** Changing the reservation of an order that sells nothing of the asset leaves the sell orders reserved. */
  lemma BuyerKeepsReserved(orders: map<string, Order>, t: Tables, n: Tables, asset: string, trades: seq<Trade>,
                           expiring: string, buyer: string)
    requires OrdersOk(orders, t) && Reserved(orders, t, asset, trades, expiring)
    requires buyer in orders && !orders[buyer].side.Sell? && SameReservations(t, n, ReservationId(orders[buyer]))
    ensures Reserved(orders, n, asset, trades, expiring)
  {
    forall id | id in orders ensures ReservedFor(orders[id], n, asset, OwedBy(trades, id), expiring) {
      var o := orders[id];
      assert ReservedFor(o, t, asset, OwedBy(trades, id), expiring);
      assert OwnsReservation(o, id, t);
      if id != buyer {
        ReservationsDiffer(orders, t, id, buyer);
        assert ReservationId(o) in n.reservations;
        assert n.reservations[ReservationId(o)] == t.reservations[ReservationId(o)];
        assert ReservedFor(o, n, asset, OwedBy(trades, id), expiring);
      } else {
        assert !o.side.Sell?;
        assert ReservedFor(o, n, asset, OwedBy(trades, id), expiring);
      }
    }
  }

  /** A reservation that gives up as much as is owed less stays exact. */
  lemma SellerStillReserved(o: Order, t: Tables, n: Tables, asset: string, owed: int, left: int, expiring: string)
    requires ReservedFor(o, t, asset, owed, expiring)
    requires ReservationId(o) in t.reservations && ReservationId(o) in n.reservations
    requires o.baseAsset == asset ==>
               n.reservations[ReservationId(o)].remaining == t.reservations[ReservationId(o)].remaining - (owed - left)
    requires left <= owed
    ensures ReservedFor(o, n, asset, left, expiring)
  {
  }

  /** The seller's reservation gives up exactly the settled quantity. */
  lemma SellerKeepsReserved(orders: map<string, Order>, t: Tables, n: Tables, asset: string, x: Trade,
                            rest: seq<Trade>, expiring: string)
    requires OrdersOk(orders, t) && Reserved(orders, t, asset, [x] + rest, expiring)
    requires SellerOrder(x) in orders && x.quantity > 0
    requires var id := ReservationId(orders[SellerOrder(x)]);
             && SameReservations(t, n, id)
             && (orders[SellerOrder(x)].baseAsset == asset ==>
                 n.reservations[id].remaining == t.reservations[id].remaining - x.quantity)
    ensures Reserved(orders, n, asset, rest, expiring)
  {
    var seller := SellerOrder(x);
    assert ([x] + rest)[1..] == rest;
    forall id | id in orders ensures ReservedFor(orders[id], n, asset, OwedBy(rest, id), expiring) {
      var o := orders[id];
      assert ReservedFor(o, t, asset, OwedBy([x] + rest, id), expiring);
      assert OwnsReservation(o, id, t);
      assert OwedBy([x] + rest, id) == OwedBy(rest, id) + if id == seller then x.quantity else 0;
      if id != seller {
        ReservationsDiffer(orders, t, id, seller);
        assert n.reservations[ReservationId(o)] == t.reservations[ReservationId(o)];
      } else if o.baseAsset == asset {
        assert n.reservations[ReservationId(o)].remaining == t.reservations[ReservationId(o)].remaining - x.quantity;
      }
      SellerStillReserved(o, t, n, asset, OwedBy([x] + rest, id), OwedBy(rest, id), expiring);
    }
  }

  /** Settling the next trade keeps the cover of the rest, and as far as the seller is concerned it cannot fail. */
  lemma SettleTradeCovers(orders: map<string, Order>, t: Tables, asset: string, x: Trade, rest: seq<Trade>,
                          expiring: string)
    requires Covers(orders, t, asset, [x] + rest, expiring) && Fits(orders, asset, x)
    requires forall y :: y in rest ==> y.quantity > 0
    requires var plan := SettlementForTrade(x, orders[x.makerOrderId], orders[x.takerOrderId]);
             plan.Ok? && SettleBuyer(t, x, plan.value).Ok?
    ensures var settled := SettleTrade(t, x, orders[x.makerOrderId], orders[x.takerOrderId]);
            && (x.baseAsset == asset ==> settled.Ok?)
            && (settled.Ok? ==> Covers(orders, settled.value, asset, rest, expiring))
  {
    var p := SettlementForTrade(x, orders[x.makerOrderId], orders[x.takerOrderId]).value;
    var bought := SettleBuyer(t, x, p).value;
    var buyer := if x.takerSide.Buy? then x.takerOrderId else x.makerOrderId;
    var seller := SellerOrder(x);
    assert ([x] + rest)[1..] == rest && ([x] + rest)[0] == x;
    assert OwnsReservation(orders[buyer], buyer, t) && OwnsReservation(orders[seller], seller, t);
    BuyerLeavesLocked(t, x, p, asset);
    OrdersStayOk(orders, t, bought, ReservationId(p.buyer));
    BuyerKeepsReserved(orders, t, bought, asset, [x] + rest, expiring, buyer);
    if x.baseAsset == asset {
      EnoughForSeller(orders, bought, asset, x, rest, expiring);
      SellerSettles(bought, x, p, asset);
    } else if SettleSeller(bought, x, p).Ok? {
      OtherSellerSettles(bought, x, p, asset);
    }
    if SettleSeller(bought, x, p).Ok? {
      var n := SettleSeller(bought, x, p).value;
      OrdersStayOk(orders, bought, n, ReservationId(p.seller));
      SellerKeepsReserved(orders, bought, n, asset, x, rest, expiring);
      forall user ensures Locked(n, user, asset) == Held(orders, user, asset, expiring) + Owed(rest, user, asset) {
        assert Owed([x] + rest, user, asset) ==
          (if SellerUser(x) == user && x.baseAsset == asset then x.quantity else 0) + Owed(rest, user, asset);
      }
    }
  }

  lemma EnoughForSeller(orders: map<string, Order>, t: Tables, asset: string, x: Trade, rest: seq<Trade>,
                        expiring: string)
    requires OrdersOk(orders, t) && Reserved(orders, t, asset, [x] + rest, expiring)
    requires forall user ::
               Locked(t, user, asset) == Held(orders, user, asset, expiring) + Owed([x] + rest, user, asset)
    requires Fits(orders, asset, x) && x.baseAsset == asset && forall y :: y in rest ==> y.quantity > 0
    ensures var seller := orders[SellerOrder(x)];
            && Locked(t, seller.userId, asset) >= x.quantity
            && t.reservations[ReservationId(seller)].remaining >= x.quantity
  {
    var id := SellerOrder(x);
    var user := SellerUser(x);
    assert ([x] + rest)[1..] == rest && ([x] + rest)[0] == x;
    HeldNonNegative(orders, t, user, asset, expiring);
    OwedNonNegative(rest, user, asset, id);
    assert Owed([x] + rest, user, asset) == x.quantity + Owed(rest, user, asset);
    assert OwedBy([x] + rest, id) == x.quantity + OwedBy(rest, id);
    assert OwnsReservation(orders[id], id, t);
    assert ReservedFor(orders[id], t, asset, OwedBy([x] + rest, id), expiring);
  }

  lemma {:induction false} SettleTradesCover(orders: map<string, Order>, t: Tables, asset: string, trades: seq<Trade>,
                                             expiring: string)
    requires Covers(orders, t, asset, trades, expiring) && forall x :: x in trades ==> Fits(orders, asset, x)
    requires SettleTrades(t, orders, trades).Ok?
    ensures Covers(orders, SettleTrades(t, orders, trades).value, asset, [], expiring)
    decreases |trades|
  {
    if trades != [] {
      var x, rest := trades[0], trades[1..];
      assert trades == [x] + rest && x in trades && forall y :: y in rest ==> y in trades;
      SettleTradeCovers(orders, t, asset, x, rest, expiring);
      SettleTradesCover(orders, SettleTrade(t, x, orders[x.makerOrderId], orders[x.takerOrderId]).value, asset, rest,
                        expiring);
    }
  }
}
