/** What reservations are for: over every run, what a user has locked in an asset is what the reservations of their
    orders still hold, in base and quote assets alike. */
module Backing {
  import opened Orders
  import opened Sums
  import opened Engine
  import opened Ledger
  import opened Projection
  import opened Cover
  import opened CoverRuns
  import opened Transactions
  import opened Drift
  import Conservation
  import Settlement
  import Decimal

  function AccountOf(o: Order): Account {
    Account(o.userId, ReserveAsset(o))
  }

  function Claim(o: Order, t: Tables, k: Account): int {
    if AccountOf(o) == k then Left(t, o) else 0
  }

  /** What the reservations of all orders hold on an account. */
  ghost function Claims(orders: map<string, Order>, t: Tables, k: Account): int {
    Sum(map id | id in orders :: Claim(orders[id], t, k))
  }

  function LockedOn(t: Tables, k: Account): int {
    BalanceOf(t, k).locked
  }

  ghost predicate NoneOverdrawn(t: Tables) {
    forall r :: r in t.reservations ==> t.reservations[r].remaining >= 0
  }

  ghost predicate Backed(s: Exchange) {
    OrdersOk(s.orders, s.tables) && NoneOverdrawn(s.tables) && forall k ::
        LockedOn(s.tables, k) == Claims(s.orders, s.tables, k)
  }

  // ---- Taking from one reservation ----

  /** The reservation of `o` and the funds locked for it go down by the same amount, and no other. */
  ghost predicate Took(t: Tables, n: Tables, o: Order, amount: int) {
    && SameReservations(t, n, ReservationId(o)) && 0 <= Left(n, o) == Left(t, o) - amount
    && forall k :: LockedOn(n, k) == LockedOn(t, k) - if k == AccountOf(o) then amount else 0
  }

  lemma TookBacked(orders: map<string, Order>, t: Tables, n: Tables, id: string, amount: int)
    requires Backed(Exchange(orders, t)) && id in orders && Took(t, n, orders[id], amount)
    ensures Backed(Exchange(orders, n))
  {
    OrdersStayOk(orders, t, n, ReservationId(orders[id]));
    forall k ensures LockedOn(n, k) == Claims(orders, n, k) {
      assert LockedOn(t, k) == Claims(orders, t, k);
      var was := map x | x in orders :: Claim(orders[x], t, k);
      forall x | x in orders && x != id ensures Claim(orders[x], n, k) == was[x] {
        ReservationsDiffer(orders, t, x, id);
        assert OwnsReservation(orders[x], x, t);
      }
      assert (map x | x in orders :: Claim(orders[x], n, k)) == was[id := Claim(orders[id], n, k)];
      SumUpdate(was, id, Claim(orders[id], n, k));
    }
  }

  lemma BuyerTook(t: Tables, x: Trade, p: Plan)
    requires SettleBuyer(t, x, p).Ok? && ReservationId(p.buyer) != "" && ReservationId(p.buyer) in t.reservations
    requires p.buyer.side.Buy? && p.buyer.quoteAsset == x.quoteAsset
    requires x.quoteQuantity > 0 && p.release == p.lockedQuote - x.quoteQuantity >= 0
    requires Left(t, p.buyer) >= 0
    ensures Took(t, SettleBuyer(t, x, p).value, p.buyer, p.lockedQuote)
  {
  }

  lemma SellerTook(t: Tables, x: Trade, p: Plan)
    requires SettleSeller(t, x, p).Ok? && ReservationId(p.seller) != "" && ReservationId(p.seller) in t.reservations
    requires p.seller.side.Sell? && p.seller.baseAsset == x.baseAsset && x.quantity > 0
    requires Left(t, p.seller) >= 0
    ensures Took(t, SettleSeller(t, x, p).value, p.seller, x.quantity)
  {
  }

  /** What a successful release takes. */
  function Released(t: Tables, o: Order): int {
    if ReserveAmount(o) <= 0 then 0 else
      var amount := ClampedRelease(t, AccountOf(o), ReservationId(o), ReserveAmount(o));
      if amount <= 0 then 0 else amount
  }

  lemma ReleaseTook(t: Tables, o: Order)
    requires ReleaseOrderFunds(t, o).Ok? && ReservationId(o) != "" && ReservationId(o) in t.reservations
    requires Left(t, o) >= 0
    ensures Took(t, ReleaseOrderFunds(t, o).value, o, Released(t, o))
  {
  }

  // ---- Transactions ----

  /** A trade between two stored orders of its own market. */
  predicate Joins(orders: map<string, Order>, x: Trade) {
    && x.makerOrderId in orders && x.takerOrderId in orders
    && var maker, taker := orders[x.makerOrderId], orders[x.takerOrderId];
       && taker.side == x.takerSide && !taker.side.OtherSide? && maker.side == Opposite(taker.side)
       && maker.baseAsset == x.baseAsset && taker.baseAsset == x.baseAsset
       && maker.quoteAsset == x.quoteAsset && taker.quoteAsset == x.quoteAsset
  }

  lemma SettleTradeBacked(orders: map<string, Order>, t: Tables, x: Trade)
    requires Backed(Exchange(orders, t)) && Joins(orders, x)
    requires SettleTrade(t, x, orders[x.makerOrderId], orders[x.takerOrderId]).Ok?
    ensures Backed(Exchange(orders, SettleTrade(t, x, orders[x.makerOrderId], orders[x.takerOrderId]).value))
  {
    var p := SettlementForTrade(x, orders[x.makerOrderId], orders[x.takerOrderId]).value;
    var bought := SettleBuyer(t, x, p).value;
    var buyer := if x.takerSide.Buy? then x.takerOrderId else x.makerOrderId;
    assert OwnsReservation(orders[buyer], buyer, t) && OwnsReservation(orders[SellerOrder(x)], SellerOrder(x), t);
    BuyerTook(t, x, p);
    TookBacked(orders, t, bought, buyer, p.lockedQuote);
    SellerTook(bought, x, p);
    TookBacked(orders, bought, SettleSeller(bought, x, p).value, SellerOrder(x), x.quantity);
  }

  lemma {:induction false} SettleTradesBacked(orders: map<string, Order>, t: Tables, trades: seq<Trade>)
    requires Backed(Exchange(orders, t)) && forall x :: x in trades ==> Joins(orders, x)
    requires SettleTrades(t, orders, trades).Ok?
    ensures Backed(Exchange(orders, SettleTrades(t, orders, trades).value))
    decreases |trades|
  {
    if trades != [] {
      assert trades[0] in trades && forall x :: x in trades[1..] ==> x in trades;
      SettleTradeBacked(orders, t, trades[0]);
      SettleTradesBacked(orders,
                         SettleTrade(t, trades[0], orders[trades[0].makerOrderId],
                                     orders[trades[0].takerOrderId]).value, trades[1..]);
    }
  }

  /** Rows that keep their owners keep their claims. */
  lemma SameClaims(orders: map<string, Order>, saved: map<string, Order>, t: Tables)
    requires Backed(Exchange(orders, t)) && forall id :: id in saved <==> id in orders
    requires forall id :: id in orders ==> SameOwner(orders[id], saved[id]) && saved[id].remaining >= 0
    ensures Backed(Exchange(saved, t))
  {
    forall id | id in saved ensures OwnsReservation(saved[id], id, t) {
      assert OwnsReservation(orders[id], id, t);
    }
    forall k ensures LockedOn(t, k) == Claims(saved, t, k) {
      assert LockedOn(t, k) == Claims(orders, t, k);
      assert (map id | id in saved :: Claim(saved[id], t, k)) == (map id | id in orders :: Claim(orders[id], t, k));
    }
  }

  lemma {:induction false} SavedRemaining(orders: map<string, Order>, items: seq<Order>)
    requires (forall id :: id in orders ==> orders[id].remaining >= 0) && forall o :: o in items ==> o.remaining >= 0
    ensures forall id :: id in SaveAll(orders, items) ==> SaveAll(orders, items)[id].remaining >= 0
    decreases |items|
  {
    if items != [] {
      assert items[0] in items && forall o :: o in items[1..] ==> o in items;
      SavedRemaining(orders[items[0].id := items[0]], items[1..]);
    }
  }

  lemma SavedBacked(s: Exchange, r: MatchResult)
    requires Backed(s) && Consistent(s.orders, r)
    ensures var saved := SaveAll(s.orders, r.makers + [r.taker]);
            Backed(Exchange(saved, s.tables)) && r.taker.id in saved && saved[r.taker.id] == r.taker
            && forall x :: x in r.trades ==> Joins(saved, x)
  {
    var mid, saved := SaveAll(s.orders, r.makers), SaveAll(s.orders, r.makers + [r.taker]);
    SaveAllSplit(s.orders, r.makers, r.taker);
    SaveOthers(s.orders, r.makers, r.trades, r.taker);
    forall id | id in s.orders ensures s.orders[id].remaining >= 0 {
      assert OwnsReservation(s.orders[id], id, s.tables);
    }
    forall m | m in r.makers ensures m.remaining >= 0 {
      var i :| 0 <= i < |r.makers| && r.makers[i] == m;
      assert Fill(s.orders, m, r.trades[i], r.taker);
    }
    SavedRemaining(s.orders, r.makers);
    SameClaims(s.orders, saved, s.tables);
    SavedJoins(s.orders, r);
  }

  lemma SavedJoins(orders: map<string, Order>, r: MatchResult)
    requires Consistent(orders, r)
    ensures forall x :: x in r.trades ==> Joins(SaveAll(orders, r.makers + [r.taker]), x)
  {
    SaveAllSplit(orders, r.makers, r.taker);
    SaveOthers(orders, r.makers, r.trades, r.taker);
    SavedMakers(orders, r.makers, r.trades, r.taker);
    forall x | x in r.trades ensures Joins(SaveAll(orders, r.makers + [r.taker]), x) {
      var i :| 0 <= i < |r.trades| && r.trades[i] == x;
      assert Fill(orders, r.makers[i], r.trades[i], r.taker);
    }
  }

  lemma WriteBacked(s: Exchange, r: MatchResult)
    requires Backed(s) && Consistent(s.orders, r) && WriteTx(s, r).Ok?
    ensures Backed(WriteTx(s, r).value)
  {
    var saved := SaveAll(s.orders, r.makers + [r.taker]);
    SavedBacked(s, r);
    SettleTradesBacked(saved, s.tables, r.trades);
    var settled := SettleTrades(s.tables, saved, r.trades).value;
    if ShouldReleaseUnfilled(r.taker) {
      assert OwnsReservation(saved[r.taker.id], r.taker.id, settled);
      ReleaseTook(settled, r.taker);
      TookBacked(saved, settled, ReleaseOrderFunds(settled, r.taker).value, r.taker.id, Released(settled, r.taker));
    }
  }

  lemma CancelBacked(s: Exchange, id: string, user: string, now: int)
    requires Backed(s) && CancelTx(s, id, user, now).Ok?
    ensures Backed(CancelTx(s, id, user, now).value)
  {
    var o := s.orders[id];
    if IsLive(o.status) {
      assert OwnsReservation(o, id, s.tables);
      var n := ReleaseOrderFunds(s.tables, o).value;
      ReleaseTook(s.tables, o);
      TookBacked(s.orders, s.tables, n, id, Released(s.tables, o));
      RowBacked(s.orders, n, o.(status := Canceled, remaining := 0, updatedAt := now));
    }
  }

  lemma RowBacked(orders: map<string, Order>, t: Tables, row: Order)
    requires Backed(Exchange(orders, t)) && row.id in orders && SameOwner(orders[row.id], row) && row.remaining >= 0
    ensures Backed(Exchange(orders[row.id := row], t))
  {
    forall id | id in orders ensures orders[id].remaining >= 0 {
      assert OwnsReservation(orders[id], id, t);
    }
    SameClaims(orders, orders[row.id := row], t);
  }

  /** A new reservation, for funds that are locked with it. */
  ghost predicate Opened(t: Tables, n: Tables, o: Order, amount: int) {
    && ReservationId(o) !in t.reservations
    && n.reservations == t.reservations[ReservationId(o) := Reservation(o.id, 0, 0, amount)]
    && forall k :: LockedOn(n, k) == LockedOn(t, k) + if k == AccountOf(o) then amount else 0
  }

  lemma ReserveOpens(t: Tables, o: Order)
    requires Built(o) && ReserveOrderFunds(t, o).Ok?
    ensures Opened(t, ReserveOrderFunds(t, o).value, o, ReserveAmount(o))
  {
  }

  lemma OpenedBacked(orders: map<string, Order>, t: Tables, n: Tables, row: Order, amount: int)
    requires Backed(Exchange(orders, t)) && row.id !in orders && Opened(t, n, row, amount)
    requires row.id != "" && row.remaining >= 0 && !row.side.OtherSide? && amount >= 0
    ensures Backed(Exchange(orders[row.id := row], n))
  {
    var next := orders[row.id := row];
    forall id | id in orders ensures OwnsReservation(orders[id], id, n) && Left(n, orders[id]) == Left(t, orders[id]) {
      assert OwnsReservation(orders[id], id, t);
    }
    forall k ensures LockedOn(n, k) == Claims(next, n, k) {
      assert LockedOn(t, k) == Claims(orders, t, k);
      var was := map id | id in orders :: Claim(orders[id], t, k);
      assert (map id | id in next :: Claim(next[id], n, k)) == was[row.id := Claim(row, n, k)];
      SumUpdate(was, row.id, Claim(row, n, k));
    }
  }

  lemma PlaceBacked(s: Exchange, o: Order, wait: bool)
    requires Backed(s) && Built(o) && PlaceTx(s, o, wait).Ok?
    ensures Backed(PlaceTx(s, o, wait).value)
  {
    var n := PlaceTx(s, o, wait).value;
    ReserveOpens(s.tables, o);
    assert Opened(s.tables, n.tables, n.orders[o.id], ReserveAmount(o));
    OpenedBacked(s.orders, s.tables, n.tables, n.orders[o.id], ReserveAmount(o));
  }

  lemma FundsBacked(s: Exchange, step: Conservation.Step)
    requires Backed(s) && MovesFunds(step) && Conservation.Attempt(s.tables, step).Ok?
    ensures Backed(s.(tables := Conservation.Attempt(s.tables, step).value))
  {
    var n := Conservation.Attempt(s.tables, step).value;
    assert n.reservations == s.tables.reservations;
    forall id | id in s.orders ensures OwnsReservation(s.orders[id], id, n) {
      assert OwnsReservation(s.orders[id], id, s.tables);
    }
    forall k ensures LockedOn(n, k) == Claims(s.orders, n, k) {
      assert LockedOn(s.tables, k) == Claims(s.orders, s.tables, k);
      assert (map id | id in s.orders :: Claim(s.orders[id], n, k)) ==
          (map id | id in s.orders :: Claim(s.orders[id], s.tables, k));
    }
  }

  lemma NextBacked(s: Exchange, x: Tx)
    requires Backed(s) && Started(s, x)
    ensures Backed(Next(s, x))
  {
    if Attempt(s, x).Ok? {
      match x
      case Place(o, wait) => PlaceBacked(s, o, wait);
      case PlaceAndMatch(o, r) =>
        PlaceBacked(s, o, false);
        WriteBacked(PlaceTx(s, o, false).value, r);
      case Persist(r) =>
        if RuntimeMatchable(s.orders[r.taker.id].status) {
          WriteBacked(s, r);
        }
      case Cancel(id, user, now) => CancelBacked(s, id, user, now);
      case MoveFunds(step) => FundsBacked(s, step);
    }
  }

  ghost predicate StartedRun(s: Exchange, txs: seq<Tx>)
    decreases |txs|
  {
    txs != [] ==> Started(s, txs[0]) && StartedRun(Next(s, txs[0]), txs[1..])
  }

  /** Over every run, in every asset: nothing is locked that no reservation accounts for, and nothing reserved that is
      not locked, however the settlements were rounded. */
  lemma {:induction false} RunStaysBacked(s: Exchange, txs: seq<Tx>)
    requires Backed(s) && StartedRun(s, txs)
    ensures Backed(Run(s, txs))
    decreases |txs|
  {
    if txs != [] {
      NextBacked(s, txs[0]);
      RunStaysBacked(Next(s, txs[0]), txs[1..]);
    }
  }

  /** The owner's cancel of a live order fails if and only if rounding has used up its reservation before its
      quantity, while other orders of the owner still hold funds of the same asset. */
  lemma CancelFailsIff(s: Exchange, id: string, user: string, now: int)
    requires Backed(s) && id in s.orders && IsLive(s.orders[id].status) && (user == "" || s.orders[id].userId == user)
    ensures var o := s.orders[id];
            CancelTx(s, id, user, now).Err? <==>
              ReserveAmount(o) > 0 && Left(s.tables, o) <= 0 && LockedOn(s.tables, AccountOf(o)) > 0
  {
    assert OwnsReservation(s.orders[id], id, s.tables);
  }

  /** ... which happens: at a price of one half, two settled fills of one unit each use up what an order of four units
      reserved, with two units left to fill. */
  lemma UsedUpEarly(s: Exchange, o: Order, orders: map<string, Order>, trades: seq<Trade>)
    requires Built(o) && o.side.Buy? && o.quoteAsset != o.baseAsset && 2 * o.price == Decimal.UNIT && o.quantity == 4
    requires Quantities(trades) == [1, 1] && forall x :: x in trades ==> Buys(orders, x, o)
    ensures PlaceTx(s, o, false).Ok? ==>
              var settled := SettleTrades(PlaceTx(s, o, false).value.tables, orders, trades);
              settled.Ok? ==> Left(settled.value, o) == 0 && ReserveAmount(o.(remaining := 2)) > 0
  {
    HalfPrice(o.price);
    if PlaceTx(s, o, false).Ok? && SettleTrades(PlaceTx(s, o, false).value.tables, orders, trades).Ok? {
      PlacedLeft(s, o, orders, trades);
    }
  }

  lemma HalfPrice(price: int)
    requires 2 * price == Decimal.UNIT
    ensures Decimal.Mul(price, 4) == Settlement.Debits(price, [1, 1]) && Decimal.Mul(price, 2) > 0
  {
    Decimal.RoundUnique(4 * price, 2);
    Decimal.RoundUnique(2 * price, 1);
    Decimal.RoundUnique(price, 1);
    assert Decimal.Mul(price, 4) == 2 && Decimal.Mul(1, price) == 1;
    assert [1, 1][1..] == [1] && [1][1..] == [];
    assert Settlement.Debits(price, [1]) == Decimal.Mul(1, price) + Settlement.Debits(price, []);
  }

  lemma EmptyIsBacked()
    ensures Backed(Exchange(map[], Tables(map[], map[], map[], [])))
  {
  }
}
