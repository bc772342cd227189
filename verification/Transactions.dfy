/** The order transactions of internal/app/orders/service.go over orders and balances, and the exact cover over whole
    runs.

    Placing reserves, matching saves, settles and releases, cancelling releases; an error rolls everything back.
 */
module Transactions {
  import opened Orders
  import opened Sums
  import opened Engine
  import opened Priority
  import opened BookSpec
  import opened Sweeping
  import opened MatchingLaws
  import opened Ledger
  import Conservation
  import opened Projection
  import opened Cover
  import opened CoverRuns
  import Decimal

  // ---- The transactions ----

  /** What `buildOrder` guarantees of a new order. */
  predicate Built(o: Order) {
    && o.id != "" && o.userId != "" && !o.side.OtherSide? && (o.status.Open? || o.status.PendingStop?)
    && o.price > 0 && o.quantity > 0 && o.filled == 0 && o.remaining == o.quantity
    && Decimal.Mul(o.price, o.quantity) > 0
  }

  /** `Place` up to matching: the row is created, its funds are reserved, and in asynchronous mode it waits. */
  function PlaceTx(s: Exchange, o: Order, wait: bool): Result<Exchange> {
    if o.id in s.orders then Err(DuplicateRecord)
    else
      var reserved :- ReserveOrderFunds(s.tables, o);
      var row := if wait && !o.status.PendingStop? then o.(status := PendingMatch) else o;
      Ok(Exchange(s.orders[o.id := row], reserved))
  }

  predicate ShouldReleaseUnfilled(o: Order) {
    o.status.Expired? && o.remaining > 0
  }

  /** A match result is saved, settled, and its expired remainder released. */
  function WriteTx(s: Exchange, r: MatchResult): Result<Exchange> {
    var orders := SaveAll(s.orders, r.makers + [r.taker]);
    var settled :- SettleTrades(s.tables, orders, r.trades);
    var released :- if ShouldReleaseUnfilled(r.taker) then ReleaseOrderFunds(settled, r.taker) else Ok(settled);
    Ok(Exchange(orders, released))
  }

  /** The order and balance part of `PersistBookMatchResult`. */
  function PersistTx(s: Exchange, r: MatchResult): Result<Exchange> {
    if r.taker.id !in s.orders then Err(RecordNotFound)
    else if !RuntimeMatchable(s.orders[r.taker.id].status) then Ok(s)
    else if exists m :: m in r.makers && m.id !in s.orders then Err(RecordNotFound)
    else WriteTx(s, r)
  }

  /** `Cancel`: the row gives up its remainder; a terminal order is left as it is. */
  function CancelTx(s: Exchange, id: string, user: string, now: int): Result<Exchange> {
    if id !in s.orders then Err(RecordNotFound)
    else
      var o := s.orders[id];
      if user != "" && o.userId != user then Err(UserMismatch)
      else if !IsLive(o.status) then
        if o.status.Filled? || o.status.Canceled? || o.status.Expired? then Ok(s) else Err(NotCancelable)
      else
        var released :- ReleaseOrderFunds(s.tables, o);
        Ok(Exchange(s.orders[id := o.(status := Canceled, remaining := 0, updatedAt := now)], released))
  }

  datatype Tx =
    | Place(order: Order, wait: bool)
    | PlaceAndMatch(order: Order, result: MatchResult)
    | Persist(result: MatchResult)
    | Cancel(id: string, user: string, now: int)
    | MoveFunds(step: Conservation.Step)

  function Attempt(s: Exchange, x: Tx): Result<Exchange> {
    match x
    case Place(o, wait) => PlaceTx(s, o, wait)
    case PlaceAndMatch(o, r) =>
      var placed :- PlaceTx(s, o, false);
      WriteTx(placed, r)
    case Persist(r) => PersistTx(s, r)
    case Cancel(id, user, now) => CancelTx(s, id, user, now)
    case MoveFunds(step) =>
      var moved :- Conservation.Attempt(s.tables, step);
      Ok(s.(tables := moved))
  }

  function Next(s: Exchange, x: Tx): Exchange {
    match Attempt(s, x) case Ok(n) => n case Err(_) => s
  }

  function Run(s: Exchange, txs: seq<Tx>): Exchange
    decreases |txs|
  {
    if txs == [] then s else Run(Next(s, txs[0]), txs[1..])
  }

  /** Deposits and withdrawals. */
  predicate MovesFunds(step: Conservation.Step) {
    step.Deposit? || step.Settle? || step.Request? || step.Finalize?
  }

  /** A transaction as the service starts it: new orders are built, and a match result is one for the stored orders,
      whose makers may have been cancelled since the book was told of them. */
  ghost predicate Started(s: Exchange, x: Tx) {
    match x
    case Place(o, _) => Built(o)
    case PlaceAndMatch(o, r) => Built(o) && o.status.Open? && r.taker.id == o.id && Consistent(s.orders[o.id := o], r)
    case Persist(r) =>
      r.taker.id in s.orders && RuntimeMatchable(s.orders[r.taker.id].status) ==> Consistent(s.orders, r)
    case Cancel(_, _, _) => true
    case MoveFunds(step) => MovesFunds(step)
  }

  /** ... in a market that does not quote in `asset`. */
  ghost predicate Legal(s: Exchange, x: Tx, asset: string) {
    && Started(s, x)
    && (x.Place? || x.PlaceAndMatch? ==> x.order.quoteAsset != asset)
  }

  ghost predicate LegalRun(s: Exchange, txs: seq<Tx>, asset: string)
    decreases |txs|
  {
    txs != [] ==> Legal(s, txs[0], asset) && LegalRun(Next(s, txs[0]), txs[1..], asset)
  }

  // ---- Each keeps the cover ----

  lemma {:induction false} SaveAllSplit(orders: map<string, Order>, items: seq<Order>, o: Order)
    ensures SaveAll(orders, items + [o]) == SaveAll(orders, items)[o.id := o]
    decreases |items|
  {
    if items == [] {
      assert items + [o] == [o];
    } else {
      assert (items + [o])[1..] == items[1..] + [o];
      SaveAllSplit(orders[items[0].id := items[0]], items[1..], o);
    }
  }

  /** The rows of a saved result. */
  lemma {:induction false} SavedMakers(orders: map<string, Order>, makers: seq<Order>, trades: seq<Trade>, taker: Order)
    requires Fills(orders, makers, trades, taker)
    ensures forall i :: 0 <= i < |makers| ==>
              makers[i].id in SaveAll(orders, makers) && SaveAll(orders, makers)[makers[i].id] == makers[i]
    decreases |makers|
  {
    if makers != [] {
      var m := makers[0];
      assert Fill(orders, m, trades[0], taker);
      FillsTail(orders, makers, trades, taker);
      SavedMakers(orders[m.id := m], makers[1..], trades[1..], taker);
      SavedOthers(orders[m.id := m], makers[1..], m.id);
      forall i | 0 <= i < |makers|
        ensures makers[i].id in SaveAll(orders, makers) && SaveAll(orders, makers)[makers[i].id] == makers[i]
      {
        assert i > 0 ==> makers[i] == makers[1..][i - 1];
      }
    }
  }

  lemma {:induction false} SavedOthers(orders: map<string, Order>, items: seq<Order>, id: string)
    requires forall o :: o in items ==> o.id != id
    ensures id in orders ==> id in SaveAll(orders, items) && SaveAll(orders, items)[id] == orders[id]
    decreases |items|
  {
    if items != [] {
      assert items[0] in items && forall o :: o in items[1..] ==> o in items;
      SavedOthers(orders[items[0].id := items[0]], items[1..], id);
    }
  }

  /** Every trade of a result joins two of the saved rows. */
  lemma TradesFit(s: Exchange, asset: string, r: MatchResult)
    requires QuoteFree(s.orders, asset) && Consistent(s.orders, r)
    ensures var saved := SaveAll(s.orders, r.makers)[r.taker.id := r.taker];
            QuoteFree(saved, asset) && forall x :: x in r.trades ==> Fits(saved, asset, x)
  {
    var saved := SaveAll(s.orders, r.makers)[r.taker.id := r.taker];
    SavedMakers(s.orders, r.makers, r.trades, r.taker);
    SaveOthers(s.orders, r.makers, r.trades, r.taker);
    forall x | x in r.trades ensures Fits(saved, asset, x) {
      var i :| 0 <= i < |r.trades| && r.trades[i] == x;
      assert Fill(s.orders, r.makers[i], r.trades[i], r.taker);
    }
  }

  /** A taker that is still live, or has nothing left, needs no release. */
  lemma NothingExpires(orders: map<string, Order>, t: Tables, asset: string, id: string)
    requires Covers(orders, t, asset, [], id) && id in orders
    requires IsLive(orders[id].status) || orders[id].remaining == 0
    ensures Covers(orders, t, asset, [], "")
  {
    forall x | x in orders ensures ReservedFor(orders[x], t, asset, OwedBy([], x), "") {
      assert ReservedFor(orders[x], t, asset, OwedBy([], x), id) && OwnsReservation(orders[x], x, t);
    }
    forall user ensures Locked(t, user, asset) == Held(orders, user, asset, "") + Owed([], user, asset) {
      HeldNamed(orders, t, id, user, asset);
      assert OwnsReservation(orders[id], id, t);
    }
  }

  /** A written match keeps the cover: it names no seller who is gone, since such a settlement fails. */
  lemma WriteCovers(s: Exchange, asset: string, r: MatchResult)
    requires Covered(s, asset) && Consistent(s.orders, r) && WriteTx(s, r).Ok?
    ensures Covered(WriteTx(s, r).value, asset)
  {
    var taker := r.taker;
    var saved := SaveAll(s.orders, r.makers)[taker.id := taker];
    SaveAllSplit(s.orders, r.makers, taker);
    if !SellersRest(s.orders, r.makers, asset) {
      GoneSellerFails(s, asset, r);
    }
    SavedCovers(s.orders, s.tables, asset, r);
    TradesFit(s, asset, r);
    SettleTradesCover(saved, s.tables, asset, r.trades, taker.id);
    SettledCovers(saved, SettleTrades(s.tables, saved, r.trades).value, asset, taker);
  }

  /** What follows the settlement: an expired remainder is released, anything else holds nothing beyond its status. */
  lemma SettledCovers(saved: map<string, Order>, settled: Tables, asset: string, taker: Order)
    requires Covers(saved, settled, asset, [], taker.id) && taker.id in saved && saved[taker.id] == taker
    requires QuoteFree(saved, asset) && !taker.side.OtherSide?
    requires IsLive(taker.status) || taker.status.Expired? || (taker.status.Filled? && taker.remaining == 0)
    ensures !ShouldReleaseUnfilled(taker) ==> Covers(saved, settled, asset, [], "")
    ensures ShouldReleaseUnfilled(taker) && ReleaseOrderFunds(settled, taker).Ok? ==>
              Covers(saved, ReleaseOrderFunds(settled, taker).value, asset, [], "")
  {
    if ShouldReleaseUnfilled(taker) {
      EndCovers(saved, settled, asset, taker, taker);
      assert saved[taker.id := taker] == saved;
    } else {
      assert OwnsReservation(taker, taker.id, settled);
      NothingExpires(saved, settled, asset, taker.id);
    }
  }

  // ---- A seller who is gone ----

  /** Settling only ever takes from reservations. */
  ghost predicate Shrunk(t: Tables, n: Tables) {
    forall r :: r in t.reservations ==>
        r in n.reservations && n.reservations[r].remaining <= t.reservations[r].remaining
  }

  lemma BuyerShrinks(t: Tables, x: Trade, p: Plan)
    requires SettleBuyer(t, x, p).Ok?
    ensures Shrunk(t, SettleBuyer(t, x, p).value)
  {
  }

  lemma SellerShrinks(t: Tables, x: Trade, p: Plan)
    requires SettleSeller(t, x, p).Ok?
    ensures Shrunk(t, SettleSeller(t, x, p).value)
  {
  }

  lemma SettleShrinks(t: Tables, x: Trade, maker: Order, taker: Order)
    requires SettleTrade(t, x, maker, taker).Ok?
    ensures Shrunk(t, SettleTrade(t, x, maker, taker).value)
  {
    var p := SettlementForTrade(x, maker, taker).value;
    BuyerShrinks(t, x, p);
    SellerShrinks(SettleBuyer(t, x, p).value, x, p);
  }

  /** Nothing is left under this reservation. */
  predicate Spent(t: Tables, id: string) {
    id != "" && id in t.reservations && t.reservations[id].remaining <= 0
  }

  lemma SpentSellerFails(t: Tables, x: Trade, maker: Order, taker: Order)
    requires x.takerSide.Buy? && x.quantity > 0 && Spent(t, ReservationId(maker))
    ensures SettleTrade(t, x, maker, taker).Err?
  {
    var p := SettlementForTrade(x, maker, taker);
    if p.Ok? && SettleBuyer(t, x, p.value).Ok? {
      BuyerShrinks(t, x, p.value);
      var bought := SettleBuyer(t, x, p.value).value;
      assert Spent(bought, ReservationId(maker));
    }
  }

  lemma {:induction false} SpentSellerStops(t: Tables, orders: map<string, Order>, trades: seq<Trade>, i: nat)
    requires i < |trades| && trades[i].makerOrderId in orders && trades[i].takerSide.Buy? && trades[i].quantity > 0
    requires Spent(t, ReservationId(orders[trades[i].makerOrderId]))
    ensures SettleTrades(t, orders, trades).Err?
    decreases |trades|
  {
    var x := trades[0];
    if x.makerOrderId in orders && x.takerOrderId in orders {
      var maker, taker := orders[x.makerOrderId], orders[x.takerOrderId];
      if i == 0 {
        SpentSellerFails(t, x, maker, taker);
      } else if SettleTrade(t, x, maker, taker).Ok? {
        SettleShrinks(t, x, maker, taker);
        SpentSellerStops(SettleTrade(t, x, maker, taker).value, orders, trades[1..], i - 1);
      }
    }
  }

  /** A hit sell order that is gone has nothing left under its reservation. */
  lemma GoneIsSpent(s: Exchange, asset: string, r: MatchResult, i: nat)
    requires Covered(s, asset) && Consistent(s.orders, r) && i < |r.makers|
    requires Sells(r.makers[i], asset) && !(r.makers[i].id in s.orders && IsLive(s.orders[r.makers[i].id].status))
    ensures Spent(s.tables, ReservationId(r.makers[i])) && r.taker.baseAsset == asset
    ensures r.trades[i].makerOrderId == r.makers[i].id && r.trades[i].takerSide.Buy? && r.trades[i].quantity > 0
  {
    var m := r.makers[i];
    assert Fill(s.orders, m, r.trades[i], r.taker);
    var o := s.orders[m.id];
    assert OwnsReservation(o, m.id, s.tables) && ReservedFor(o, s.tables, asset, OwedBy([], m.id), "");
  }

  lemma OneBase(orders: map<string, Order>, r: MatchResult)
    requires Fills(orders, r.makers, r.trades, r.taker)
    ensures forall x :: x in r.trades ==> x.baseAsset == r.taker.baseAsset
  {
    forall x | x in r.trades ensures x.baseAsset == r.taker.baseAsset {
      var j :| 0 <= j < |r.trades| && r.trades[j] == x;
      assert Fill(orders, r.makers[j], x, r.taker);
    }
  }

  /** A match that hit a sell order gone from the store cannot be settled, so its transaction rolls back. */
  lemma GoneSellerFails(s: Exchange, asset: string, r: MatchResult)
    requires Covered(s, asset) && Consistent(s.orders, r) && !SellersRest(s.orders, r.makers, asset)
    ensures var saved := SaveAll(s.orders, r.makers + [r.taker]);
            SettleTrades(s.tables, saved, r.trades).Err? && forall x :: x in r.trades ==> x.baseAsset == asset
    ensures WriteTx(s, r).Err?
  {
    var m :| m in r.makers && Sells(m, asset) && !(m.id in s.orders && IsLive(s.orders[m.id].status));
    var i :| 0 <= i < |r.makers| && r.makers[i] == m;
    GoneIsSpent(s, asset, r, i);
    OneBase(s.orders, r);
    SavedMakers(s.orders, r.makers, r.trades, r.taker);
    SaveAllSplit(s.orders, r.makers, r.taker);
    var saved := SaveAll(s.orders, r.makers)[r.taker.id := r.taker];
    assert saved[m.id] == m by {
      assert Fill(s.orders, m, r.trades[i], r.taker);
    }
    SpentSellerStops(s.tables, saved, r.trades, i);
  }

  /** A first failure of the ledger in the seller's half of a trade that pays with `asset`. */
  predicate StopsAtSeller(t: Tables, orders: map<string, Order>, trades: seq<Trade>, asset: string)
    decreases |trades|
  {
    trades != [] &&
    var x := trades[0];
    x.makerOrderId in orders && x.takerOrderId in orders &&
    var maker, taker := orders[x.makerOrderId], orders[x.takerOrderId];
    var p := SettlementForTrade(x, maker, taker);
    p.Ok? && SettleBuyer(t, x, p.value).Ok? &&
    if SettleTrade(t, x, maker, taker).Ok? then
        StopsAtSeller(SettleTrade(t, x, maker, taker).value, orders, trades[1..], asset)
    else x.baseAsset == asset
  }

  lemma {:induction false} SellersSettle(orders: map<string, Order>, t: Tables, asset: string, trades: seq<Trade>,
                                         expiring: string)
    requires Covers(orders, t, asset, trades, expiring) && forall x :: x in trades ==> Fits(orders, asset, x)
    ensures !StopsAtSeller(t, orders, trades, asset)
    decreases |trades|
  {
    if trades != [] {
      var x, rest := trades[0], trades[1..];
      assert trades == [x] + rest && x in trades && forall y :: y in rest ==> y in trades;
      var maker, taker := orders[x.makerOrderId], orders[x.takerOrderId];
      var p := SettlementForTrade(x, maker, taker);
      if p.Ok? && SettleBuyer(t, x, p.value).Ok? {
        SettleTradeCovers(orders, t, asset, x, rest, expiring);
        if SettleTrade(t, x, maker, taker).Ok? {
          SellersSettle(orders, SettleTrade(t, x, maker, taker).value, asset, rest, expiring);
        }
      }
    }
  }

  /** Every settlement that is reached has a plan, and its buyer pays. */
  predicate BuyersPay(t: Tables, orders: map<string, Order>, trades: seq<Trade>)
    decreases |trades|
  {
    trades == [] ||
    var x := trades[0];
    x.makerOrderId in orders && x.takerOrderId in orders &&
    var maker, taker := orders[x.makerOrderId], orders[x.takerOrderId];
    var p := SettlementForTrade(x, maker, taker);
    && p.Ok? && SettleBuyer(t, x, p.value).Ok?
    && (SettleTrade(t, x, maker, taker).Ok? ==> BuyersPay(SettleTrade(t, x, maker, taker).value, orders, trades[1..]))
  }

  lemma {:induction false} FailureIsSellers(t: Tables, orders: map<string, Order>, trades: seq<Trade>, asset: string)
    requires BuyersPay(t, orders, trades) && SettleTrades(t, orders, trades).Err?
    requires forall x :: x in trades ==> x.baseAsset == asset
    ensures StopsAtSeller(t, orders, trades, asset)
    decreases |trades|
  {
    if trades != [] {
      var x := trades[0];
      assert x in trades && forall y :: y in trades[1..] ==> y in trades;
      var settled := SettleTrade(t, x, orders[x.makerOrderId], orders[x.takerOrderId]);
      if settled.Ok? {
        FailureIsSellers(settled.value, orders, trades[1..], asset);
      }
    }
  }

  /** At a covered boundary no seller of a stored live order is ever short. */
  lemma LiveSellersSettle(s: Exchange, asset: string, r: MatchResult)
    requires Covered(s, asset) && Consistent(s.orders, r) && SellersRest(s.orders, r.makers, asset)
    ensures !StopsAtSeller(s.tables, SaveAll(s.orders, r.makers + [r.taker]), r.trades, asset)
  {
    SaveAllSplit(s.orders, r.makers, r.taker);
    SavedCovers(s.orders, s.tables, asset, r);
    TradesFit(s, asset, r);
    SellersSettle(SaveAll(s.orders, r.makers)[r.taker.id := r.taker], s.tables, asset, r.trades, r.taker.id);
  }

  /** The exact condition: where plans and buyers are accepted, settling a match fails in a seller's half of `asset`
      if and only if it hit a sell order that is no longer live in the store, cancelled behind the back of the
      resident book. */
  lemma SellerFailsIffGone(s: Exchange, asset: string, r: MatchResult)
    requires Covered(s, asset) && Consistent(s.orders, r)
    requires BuyersPay(s.tables, SaveAll(s.orders, r.makers + [r.taker]), r.trades)
    ensures StopsAtSeller(s.tables, SaveAll(s.orders, r.makers + [r.taker]), r.trades, asset) <==>
            !SellersRest(s.orders, r.makers, asset)
  {
    if SellersRest(s.orders, r.makers, asset) {
      LiveSellersSettle(s, asset, r);
    } else {
      GoneSellerFails(s, asset, r);
      FailureIsSellers(s.tables, SaveAll(s.orders, r.makers + [r.taker]), r.trades, asset);
    }
  }

  lemma CancelCovers(s: Exchange, asset: string, id: string, user: string, now: int)
    requires Covered(s, asset) && CancelTx(s, id, user, now).Ok?
    ensures Covered(CancelTx(s, id, user, now).value, asset)
  {
    var o := s.orders[id];
    if IsLive(o.status) {
      assert OwnsReservation(o, id, s.tables);
      forall x | x in s.orders ensures ReservedFor(s.orders[x], s.tables, asset, OwedBy([], x), id) {
        assert ReservedFor(s.orders[x], s.tables, asset, OwedBy([], x), "");
      }
      forall u ensures Locked(s.tables, u, asset) == Held(s.orders, u, asset, id) + Owed([], u, asset) {
        HeldLive(s.orders, s.tables, id, u, asset);
      }
      EndCovers(s.orders, s.tables, asset, o, o.(status := Canceled, remaining := 0, updatedAt := now));
    }
  }

  /** The same locked balances and reservations cover the same orders. */
  lemma CoversFrame(orders: map<string, Order>, t: Tables, n: Tables, asset: string)
    requires Covers(orders, t, asset, [], "") && n.reservations == t.reservations
    requires forall user :: Locked(n, user, asset) == Locked(t, user, asset)
    ensures Covers(orders, n, asset, [], "")
  {
    forall x | x in orders
      ensures OwnsReservation(orders[x], x, n) && ReservedFor(orders[x], n, asset, OwedBy([], x), "") {
      assert OwnsReservation(orders[x], x, t) && ReservedFor(orders[x], t, asset, OwedBy([], x), "");
    }
  }

  lemma ReserveEffect(t: Tables, o: Order, asset: string)
    requires Built(o) && o.quoteAsset != asset && ReserveOrderFunds(t, o).Ok?
    ensures var n, id := ReserveOrderFunds(t, o).value, ReservationId(o);
            && id !in t.reservations
            && n.reservations == t.reservations[id := Reservation(o.id, 0, 0, ReserveAmount(o))]
            && forall user :: Locked(n, user, asset) == Locked(t, user, asset) +
                if SellsFor(o, user, asset) then o.remaining else 0
  {
  }

  lemma PlaceCovers(s: Exchange, asset: string, o: Order, wait: bool)
    requires Covered(s, asset) && Built(o) && o.quoteAsset != asset && PlaceTx(s, o, wait).Ok?
    ensures Covered(PlaceTx(s, o, wait).value, asset)
  {
    var n := PlaceTx(s, o, wait).value;
    var row := n.orders[o.id];
    ReserveEffect(s.tables, o, asset);
    forall x | x in n.orders
      ensures OwnsReservation(n.orders[x], x, n.tables) && ReservedFor(n.orders[x], n.tables, asset, OwedBy([], x), "")
    {
      if x != o.id {
        assert OwnsReservation(s.orders[x], x, s.tables) &&
            ReservedFor(s.orders[x], s.tables, asset, OwedBy([], x), "");
      }
    }
    forall user ensures Locked(n.tables, user, asset) == Held(n.orders, user, asset, "") + Owed([], user, asset) {
      HeldPut(s.orders, o.id, row, user, asset, "");
    }
  }

  lemma FundsCover(s: Exchange, asset: string, step: Conservation.Step)
    requires Covered(s, asset) && MovesFunds(step) && Conservation.Attempt(s.tables, step).Ok?
    ensures Covered(s.(tables := Conservation.Attempt(s.tables, step).value), asset)
  {
    var n := Conservation.Attempt(s.tables, step).value;
    assert n.reservations == s.tables.reservations;
    CoversFrame(s.orders, s.tables, n, asset);
  }

  lemma NextCovers(s: Exchange, x: Tx, asset: string)
    requires Covered(s, asset) && Legal(s, x, asset)
    ensures Covered(Next(s, x), asset)
  {
    if Attempt(s, x).Ok? {
      match x
      case Place(o, wait) => PlaceCovers(s, asset, o, wait);
      case PlaceAndMatch(o, r) =>
        PlaceCovers(s, asset, o, false);
        WriteCovers(PlaceTx(s, o, false).value, asset, r);
      case Persist(r) =>
        if RuntimeMatchable(s.orders[r.taker.id].status) {
          WriteCovers(s, asset, r);
        }
      case Cancel(id, user, now) => CancelCovers(s, asset, id, user, now);
      case MoveFunds(step) => FundsCover(s, asset, step);
    }
  }

  /** Exact cover over every run, cancels and matches that miss them included: what a user has locked in a base asset is
      what is left of their live sell orders. */
  lemma {:induction false} RunCovers(s: Exchange, txs: seq<Tx>, asset: string)
    requires Covered(s, asset) && LegalRun(s, txs, asset)
    ensures Covered(Run(s, txs), asset)
    decreases |txs|
  {
    if txs != [] {
      NextCovers(s, txs[0], asset);
      RunCovers(Next(s, txs[0]), txs[1..], asset);
    }
  }

  // ---- Money over service transactions ----

  lemma ConservedStep(t: Tables, step: Conservation.Step)
    requires Conservation.Conserved(t)
    ensures Conservation.Conserved(Conservation.Next(t, step))
  {
    forall asset ensures Conservation.Excess(Conservation.Next(t, step), asset) == 0 {
      Conservation.StepConserves(t, step, asset);
      assert Conservation.Excess(t, asset) == 0;
    }
    Conservation.StepConserves(t, step, "");
  }

  lemma PlaceConserves(s: Exchange, o: Order, wait: bool)
    requires Conservation.Conserved(s.tables) && PlaceTx(s, o, wait).Ok?
    ensures Conservation.Conserved(PlaceTx(s, o, wait).value.tables)
  {
    ConservedStep(s.tables, Conservation.ReserveFor(o));
  }

  lemma StillConserved(t: Tables, n: Tables)
    requires Conservation.Conserved(t) && Conservation.NonNegative(n) && n.withdrawals == t.withdrawals
    requires forall asset :: Conservation.Excess(n, asset) == Conservation.Excess(t, asset)
    ensures Conservation.Conserved(n)
  {
  }

  lemma TradesConserve(t: Tables, orders: map<string, Order>, trades: seq<Trade>)
    requires Conservation.Conserved(t) && SettleTrades(t, orders, trades).Ok?
    ensures Conservation.Conserved(SettleTrades(t, orders, trades).value)
  {
    var n := SettleTrades(t, orders, trades).value;
    Conservation.SettleTradesConserve(t, orders, trades, "");
    forall asset ensures Conservation.Excess(n, asset) == Conservation.Excess(t, asset) {
      Conservation.SettleTradesConserve(t, orders, trades, asset);
    }
    StillConserved(t, n);
  }

  lemma ReleaseConserves(t: Tables, o: Order)
    requires Conservation.Conserved(t) && ReleaseOrderFunds(t, o).Ok?
    ensures Conservation.Conserved(ReleaseOrderFunds(t, o).value)
  {
    var n := ReleaseOrderFunds(t, o).value;
    Conservation.ReleaseConserves(t, o, "");
    forall asset ensures Conservation.Excess(n, asset) == Conservation.Excess(t, asset) {
      Conservation.ReleaseConserves(t, o, asset);
    }
    StillConserved(t, n);
  }

  lemma WriteConserves(s: Exchange, r: MatchResult)
    requires Conservation.Conserved(s.tables) && WriteTx(s, r).Ok?
    ensures Conservation.Conserved(WriteTx(s, r).value.tables)
  {
    var orders := SaveAll(s.orders, r.makers + [r.taker]);
    TradesConserve(s.tables, orders, r.trades);
    if ShouldReleaseUnfilled(r.taker) {
      ReleaseConserves(SettleTrades(s.tables, orders, r.trades).value, r.taker);
    }
  }

  lemma CancelConserves(s: Exchange, id: string, user: string, now: int)
    requires Conservation.Conserved(s.tables) && CancelTx(s, id, user, now).Ok?
    ensures Conservation.Conserved(CancelTx(s, id, user, now).value.tables)
  {
    if IsLive(s.orders[id].status) {
      ReleaseConserves(s.tables, s.orders[id]);
    }
  }

  lemma PersistConserves(s: Exchange, r: MatchResult)
    requires Conservation.Conserved(s.tables) && PersistTx(s, r).Ok?
    ensures Conservation.Conserved(PersistTx(s, r).value.tables)
  {
    if RuntimeMatchable(s.orders[r.taker.id].status) {
      WriteConserves(s, r);
    }
  }

  /** No service transaction makes or destroys money. */
  lemma NextConserves(s: Exchange, x: Tx)
    requires Conservation.Conserved(s.tables)
    ensures Conservation.Conserved(Next(s, x).tables)
  {
    if Attempt(s, x).Ok? {
      match x
      case Place(o, wait) => PlaceConserves(s, o, wait);
      case PlaceAndMatch(o, r) =>
        PlaceConserves(s, o, false);
        WriteConserves(PlaceTx(s, o, false).value, r);
      case Persist(r) => PersistConserves(s, r);
      case Cancel(id, user, now) => CancelConserves(s, id, user, now);
      case MoveFunds(step) => ConservedStep(s.tables, step);
    }
  }

  lemma NothingHeld(orders: map<string, Order>, user: string, asset: string)
    requires forall id :: id in orders ==> Holds(orders[id], user, asset, "") == 0
    ensures Held(orders, user, asset, "") == 0
  {
    SumZero(map id | id in orders :: Holds(orders[id], user, asset, ""));
  }

  lemma EmptyIsCovered(asset: string)
    ensures Covered(Exchange(map[], Tables(map[], map[], map[], [])), asset)
  {
    forall user ensures Held(map[], user, asset, "") == 0 {
      NothingHeld(map[], user, asset);
    }
  }

  // ---- Where consistent results come from ----

  /** A stored order is as it rests in the book, or cancelled since. */
  predicate StoredAs(o: Order, stored: Order) {
    stored == o || stored == o.(status := Canceled, remaining := 0, updatedAt := stored.updatedAt)
  }

  /** Every order of the book is stored as it rests, or cancelled since. */
  ghost predicate Shows(orders: map<string, Order>, v: View) {
    forall o :: Has(v, o) ==> o.id in orders && StoredAs(o, orders[o.id])
  }

  /** A taker as matching reads it from the store: a live order, opened if it was waiting. */
  predicate TakenFrom(orders: map<string, Order>, taker: Order) {
    && taker.id in orders && IsLive(orders[taker.id].status)
    && taker == orders[taker.id].(status := taker.status, updatedAt := taker.updatedAt)
  }

  /** The makers of a walk of the book, as fills of stored orders. */
  lemma WalkFills(c: Config, issued: map<string, nat>, v: View, orders: map<string, Order>, side: Side, t: Order,
                  makers: seq<Order>, trades: seq<Trade>, now: int)
    requires WF(c, issued, v) && c.baseAsset != "" && c.quoteAsset != "" && Shows(orders, v)
    requires t.side == Opposite(side) && !side.OtherSide? && !HasId(v, t.id) && t.baseAsset == c.baseAsset
    requires t.quoteAsset == c.quoteAsset
    requires HitsFront(v.On(side), makers, trades, now) && TradesDescribe(t, makers, trades, now)
    ensures Fills(orders, makers, trades, t)
  {
    var q := v.On(side);
    forall i | 0 <= i < |makers| ensures Fill(orders, makers[i], trades[i], t) {
      assert HitBy(q[i], makers[i], trades[i], now) && Has(v, q[i]);
      assert Resting(c, issued, q[i]) && StoredAs(q[i], orders[q[i].id]);
    }
    forall i, j | 0 <= i < j < |makers| ensures makers[i].id != makers[j].id {
      assert HitBy(q[i], makers[i], trades[i], now) && HitBy(q[j], makers[j], trades[j], now);
      assert Has(v, q[i]) && Has(v, q[j]) && Before(side, q[i], q[j]);
    }
  }

  /** What `Apply` reports for a live taker read from the store, on a book that missed nothing but cancels, is a
      result for the stored orders. */
  lemma ApplyIsConsistent(c: Config, issued: map<string, nat>, v: View, orders: map<string, Order>, taker: Order,
                          ids: TradeIds, now: int)
    requires WF(c, issued, v) && Ticketed(issued, taker) && c.baseAsset != "" && c.quoteAsset != "" && Shows(orders, v)
    requires TakenFrom(orders, taker) && taker.baseAsset != "" && taker.quoteAsset != ""
    requires ApplySpec(c, v, taker, ids, now).outcome.Done?
    ensures Consistent(orders, ApplySpec(c, v, taker, ids, now).outcome.value)
  {
    var t := Prepared(c, taker);
    var q := v.On(Opposite(t.side));
    PriceTimePriority(c, issued, v, taker, ids, now);
    AcceptedIsReady(c, issued, v, taker);
    DepthIgnoresFill(t, t, q);
    var r := ApplySpec(c, v, taker, ids, now).outcome.value;
    WalkFills(c, issued, v, orders, Opposite(t.side), r.taker, r.makers, r.trades, now);
    FinishedStatus(c, v, taker, ids, now);
  }

  /** `Apply` leaves its taker live, expired, or filled to the last unit. */
  lemma FinishedStatus(c: Config, v: View, taker: Order, ids: TradeIds, now: int)
    requires ApplySpec(c, v, taker, ids, now).outcome.Done?
    ensures var t := ApplySpec(c, v, taker, ids, now).outcome.value.taker;
            IsLive(t.status) || t.status.Expired? || (t.status.Filled? && t.remaining <= 0)
  {
    var t := Prepared(c, taker);
    SweepSelfTrade(MatchResult(t, [], []), v.On(Opposite(t.side)), ids, now);
  }
}
