/** The exact cover over whole runs: placing, matching, cancelling and moving funds. */
module CoverRuns {
  import opened Orders
  import opened Sums
  import opened Engine
  import opened BookSpec
  import opened Sweeping
  import opened MatchingLaws
  import opened Ledger
  import Conservation
  import opened Projection
  import opened Cover
  import Decimal

  /** What an update may not change about an order. */
  predicate SameOwner(a: Order, b: Order) {
    && b.id == a.id && b.userId == a.userId && b.side == a.side && b.reservationId == a.reservationId
    && b.baseAsset == a.baseAsset && b.quoteAsset == a.quoteAsset && b.sequence == a.sequence
  }

  /** A stored order that still rests as the match found it. */
  predicate StillRests(o: Order, m: Order, x: Trade) {
    IsLive(o.status) && m.remaining == o.remaining - x.quantity
  }

  /** A stored order cancelled since: the resident book does not learn of it and may still hit it. */
  predicate Gone(o: Order) {
    o.status.Canceled? && o.remaining == 0
  }

  /** `m` is a maker reduced by the trade `x` with `taker`; it is stored as it rested, or cancelled since. */
  predicate Fill(orders: map<string, Order>, m: Order, x: Trade, taker: Order) {
    && m.id in orders && m.id != taker.id && SameOwner(orders[m.id], m)
    && (StillRests(orders[m.id], m, x) || Gone(orders[m.id]))
    && m.side == Opposite(taker.side) && m.baseAsset == taker.baseAsset && m.quoteAsset == taker.quoteAsset
    && x.quantity > 0 && m.remaining >= 0
    && (m.status.PartiallyFilled? || (m.status.Filled? && m.remaining == 0))
    && x.makerOrderId == m.id && x.makerUserId == m.userId
    && x.takerOrderId == taker.id && x.takerUserId == taker.userId && x.takerSide == taker.side
    && x.baseAsset == taker.baseAsset && x.quoteAsset == taker.quoteAsset
  }

  ghost predicate Fills(orders: map<string, Order>, makers: seq<Order>, trades: seq<Trade>, taker: Order) {
    && |makers| == |trades|
    && (forall i :: 0 <= i < |makers| ==> Fill(orders, makers[i], trades[i], taker))
    && (forall i, j :: 0 <= i < j < |makers| ==> makers[i].id != makers[j].id)
  }

  /** No hit maker that sells in this asset is gone from the store. */
  ghost predicate SellersRest(orders: map<string, Order>, makers: seq<Order>, asset: string) {
    forall m :: m in makers && Sells(m, asset) ==> m.id in orders && IsLive(orders[m.id].status)
  }

  /** A match result for the stored orders, with makers that may have been cancelled since they were booked. */
  ghost predicate Consistent(orders: map<string, Order>, r: MatchResult) {
    var t := r.taker;
    && t.id in orders && IsLive(orders[t.id].status) && SameOwner(orders[t.id], t) && !t.side.OtherSide?
    && Fills(orders, r.makers, r.trades, t)
    && t.remaining == orders[t.id].remaining - SumQuantity(r.trades) >= 0
    && (IsLive(t.status) || t.status.Expired? || (t.status.Filled? && t.remaining == 0))
  }

  lemma HeldPut(orders: map<string, Order>, id: string, o: Order, user: string, asset: string, expiring: string)
    ensures Held(orders[id := o], user, asset, expiring) ==
            Held(orders, user, asset, expiring) - (if id in orders then Holds(orders[id], user, asset, expiring) else 0)
            + Holds(o, user, asset, expiring)
  {
    var m := map x | x in orders :: Holds(orders[x], user, asset, expiring);
    var next := orders[id := o];
    assert (map x | x in next :: Holds(next[x], user, asset, expiring)) == m[id := Holds(o, user, asset, expiring)];
    SumUpdate(m, id, Holds(o, user, asset, expiring));
  }

  /** A live order counts whether or not it is named as expiring. */
  lemma HeldLive(orders: map<string, Order>, t: Tables, id: string, user: string, asset: string)
    requires OrdersOk(orders, t) && (id in orders ==> IsLive(orders[id].status))
    ensures Held(orders, user, asset, id) == Held(orders, user, asset, "")
  {
    forall x | x in orders ensures Holds(orders[x], user, asset, id) == Holds(orders[x], user, asset, "") {
      assert OwnsReservation(orders[x], x, t);
    }
    assert (map x | x in orders :: Holds(orders[x], user, asset, id)) ==
        (map x | x in orders :: Holds(orders[x], user, asset, ""));
  }

  /** The other fills stand when one maker is saved. */
  lemma FillsTail(orders: map<string, Order>, makers: seq<Order>, trades: seq<Trade>, taker: Order)
    requires Fills(orders, makers, trades, taker) && makers != []
    ensures Fills(orders[makers[0].id := makers[0]], makers[1..], trades[1..], taker)
  {
    forall i | 0 <= i < |makers[1..]|
      ensures Fill(orders[makers[0].id := makers[0]], makers[1..][i], trades[1..][i], taker) {
      assert Fill(orders, makers[i + 1], trades[i + 1], taker);
    }
  }

  lemma RestTail(orders: map<string, Order>, makers: seq<Order>, trades: seq<Trade>, taker: Order, asset: string)
    requires Fills(orders, makers, trades, taker) && makers != [] && SellersRest(orders, makers, asset)
    ensures SellersRest(orders[makers[0].id := makers[0]], makers[1..], asset)
    ensures Sells(makers[0], asset) ==> IsLive(orders[makers[0].id].status)
  {
    assert makers[0] in makers;
    forall m | m in makers[1..] && Sells(m, asset)
      ensures m.id in orders && m.id != makers[0].id && IsLive(orders[m.id].status) {
      var i :| 0 <= i < |makers[1..]| && makers[1..][i] == m;
      assert makers[i + 1] == m && m in makers;
    }
  }

  /** Saving the makers lowers what they hold by what their trades will take from them. */
  lemma {:induction false} FillsHeld(orders: map<string, Order>, makers: seq<Order>, trades: seq<Trade>, taker: Order,
                                     user: string, asset: string, expiring: string)
    requires Fills(orders, makers, trades, taker) && !taker.side.OtherSide? && SellersRest(orders, makers, asset)
    ensures Held(SaveAll(orders, makers), user, asset, expiring) ==
            Held(orders, user, asset, expiring) - if taker.side.Buy? then Owed(trades, user, asset) else 0
    decreases |makers|
  {
    if makers != [] {
      var m, x := makers[0], trades[0];
      assert Fill(orders, m, x, taker);
      FillsTail(orders, makers, trades, taker);
      RestTail(orders, makers, trades, taker, asset);
      FillsHeld(orders[m.id := m], makers[1..], trades[1..], taker, user, asset, expiring);
      HeldPut(orders, m.id, m, user, asset, expiring);
    }
  }

  lemma {:induction false} OwedToTaker(orders: map<string, Order>, makers: seq<Order>, trades: seq<Trade>,
                                       taker: Order, user: string, asset: string, id: string)
    requires Fills(orders, makers, trades, taker) && taker.side.Sell?
    ensures Owed(trades, user, asset) ==
            if taker.userId == user && taker.baseAsset == asset then SumQuantity(trades) else 0
    ensures OwedBy(trades, id) == if taker.id == id then SumQuantity(trades) else 0
    decreases |makers|
  {
    if makers != [] {
      assert Fill(orders, makers[0], trades[0], taker);
      FillsTail(orders, makers, trades, taker);
      OwedToTaker(orders[makers[0].id := makers[0]], makers[1..], trades[1..], taker, user, asset, id);
    }
  }

  lemma {:induction false} OwedBySplit(a: seq<Trade>, b: seq<Trade>, id: string)
    ensures OwedBy(a + b, id) == OwedBy(a, id) + OwedBy(b, id)
  {
    if a == [] {
      assert a + b == b;
    } else {
      assert (a + b)[1..] == a[1..] + b;
      OwedBySplit(a[1..], b, id);
    }
  }

  /** Saving a selling maker moves its fill from its remainder to what its trades still owe. */
  lemma FillReserved(orders: map<string, Order>, t: Tables, m: Order, x: Trade, taker: Order, asset: string,
                     done: seq<Trade>, expiring: string)
    requires Fill(orders, m, x, taker) && OrdersOk(orders, t) && Reserved(orders, t, asset, done, expiring)
    requires Sells(m, asset) ==> IsLive(orders[m.id].status)
    ensures OrdersOk(orders[m.id := m], t)
    ensures Reserved(orders[m.id := m], t, asset, if taker.side.Buy? then done + [x] else done, expiring)
  {
    var next := orders[m.id := m];
    var more := if taker.side.Buy? then done + [x] else done;
    forall id | id in next
      ensures OwnsReservation(next[id], id, t) && ReservedFor(next[id], t, asset, OwedBy(more, id), expiring) {
      assert id in orders && OwnsReservation(orders[id], id, t);
      assert ReservedFor(orders[id], t, asset, OwedBy(done, id), expiring);
      OwedBySplit(done, [x], id);
      assert OwedBy([x], id) == if SellerOrder(x) == id then x.quantity else 0;
      assert OwedBy(more, id) == OwedBy(done, id) + if taker.side.Buy? && id == m.id then x.quantity else 0;
    }
  }

  lemma {:induction false} FillsReserved(orders: map<string, Order>, t: Tables, makers: seq<Order>, trades: seq<Trade>,
                                         taker: Order,
                                         asset: string, done: seq<Trade>, expiring: string)
    requires Fills(orders, makers, trades, taker) && OrdersOk(orders, t) && SellersRest(orders, makers, asset)
    requires Reserved(orders, t, asset, done, expiring)
    ensures OrdersOk(SaveAll(orders, makers), t)
    ensures Reserved(SaveAll(orders, makers), t, asset, if taker.side.Buy? then done + trades else done, expiring)
    decreases |makers|
  {
    if makers == [] {
      assert done + trades == done;
    } else {
      var m, x := makers[0], trades[0];
      assert Fill(orders, m, x, taker);
      RestTail(orders, makers, trades, taker, asset);
      FillReserved(orders, t, m, x, taker, asset, done, expiring);
      FillsTail(orders, makers, trades, taker);
      var more := if taker.side.Buy? then done + [x] else done;
      FillsReserved(orders[m.id := m], t, makers[1..], trades[1..], taker, asset, more, expiring);
      assert done + [x] + trades[1..] == done + trades;
    }
  }

  // ---- Transactions ----

  ghost predicate QuoteFree(orders: map<string, Order>, asset: string) {
    forall id :: id in orders ==> orders[id].quoteAsset != asset
  }

  /** The cover at a transaction boundary. */
  ghost predicate Covered(s: Exchange, asset: string) {
    QuoteFree(s.orders, asset) && Covers(s.orders, s.tables, asset, [], "")
  }

  /** The stored orders after a match, with its trades still to be settled. */
  lemma SavedCovers(orders: map<string, Order>, t: Tables, asset: string, r: MatchResult)
    requires Covers(orders, t, asset, [], "") && Consistent(orders, r) && SellersRest(orders, r.makers, asset)
    ensures Covers(SaveAll(orders, r.makers)[r.taker.id := r.taker], t, asset, r.trades, r.taker.id)
  {
    var taker, id := r.taker, r.taker.id;
    var mid := SaveAll(orders, r.makers);
    var saved := mid[id := taker];
    FillsReserved(orders, t, r.makers, r.trades, taker, asset, [], "");
    SaveOthers(orders, r.makers, r.trades, taker);
    assert OwnsReservation(orders[id], id, t) && mid[id] == orders[id];
    assert [] + r.trades == r.trades;
    forall x | x in saved
      ensures OwnsReservation(saved[x], x, t) && ReservedFor(saved[x], t, asset, OwedBy(r.trades, x), id)
    {
      assert x in mid && OwnsReservation(mid[x], x, t);
      assert ReservedFor(mid[x], t, asset, OwedBy(if taker.side.Buy? then r.trades else [], x), "");
      if taker.side.Sell? {
        OwedToTaker(orders, r.makers, r.trades, taker, "", asset, x);
      }
    }
    forall user ensures Locked(t, user, asset) == Held(saved, user, asset, id) + Owed(r.trades, user, asset) {
      FillsHeld(orders, r.makers, r.trades, taker, user, asset, id);
      HeldPut(mid, id, taker, user, asset, id);
      HeldLive(orders, t, id, user, asset);
      assert Owed([], user, asset) == 0;
      if taker.side.Sell? {
        OwedToTaker(orders, r.makers, r.trades, taker, user, asset, "");
      }
    }
  }

  /** Saving the makers leaves the taker's row alone. */
  lemma {:induction false} SaveOthers(orders: map<string, Order>, makers: seq<Order>, trades: seq<Trade>, taker: Order)
    requires Fills(orders, makers, trades, taker)
    ensures var n := SaveAll(orders, makers);
            && (taker.id in orders ==> taker.id in n && n[taker.id] == orders[taker.id])
            && (forall id :: id in n <==> id in orders)
            && (forall id :: id in n ==> SameOwner(orders[id], n[id]))
    decreases |makers|
  {
    if makers != [] {
      assert Fill(orders, makers[0], trades[0], taker);
      FillsTail(orders, makers, trades, taker);
      SaveOthers(orders[makers[0].id := makers[0]], makers[1..], trades[1..], taker);
    }
  }

  /** Releasing an expiring sell order gives back exactly its remainder. */
  lemma ReleaseExact(t: Tables, o: Order, asset: string)
    requires o.side.Sell? && o.baseAsset == asset && o.remaining > 0 && o.id != "" && ReservationId(o) in t.reservations
    requires t.reservations[ReservationId(o)].remaining == o.remaining <= Locked(t, o.userId, asset)
    ensures ReleaseOrderFunds(t, o).Ok?
    ensures var n := ReleaseOrderFunds(t, o).value;
            && (forall user :: Locked(n, user, asset) == Locked(t, user, asset) -
                                   (if user == o.userId then o.remaining else 0))
            && SameReservations(t, n, ReservationId(o)) && n.reservations[ReservationId(o)].remaining == 0
  {
  }

  /** Any other release leaves the locked balances of the asset alone. */
  lemma ReleaseElsewhere(t: Tables, o: Order, asset: string)
    requires ReleaseOrderFunds(t, o).Ok? && ReserveAsset(o) != asset
    ensures var n := ReleaseOrderFunds(t, o).value;
            && (forall user :: Locked(n, user, asset) == Locked(t, user, asset))
            && SameReservations(t, n, ReservationId(o))
  {
  }

  /** An order that ends gives up its hold: the row turns inactive and its remainder is released. `ended` is the stored
      row afterwards. */
  lemma EndCovers(orders: map<string, Order>, t: Tables, asset: string, o: Order, ended: Order)
    requires Covers(orders, t, asset, [], o.id) && o.id in orders && orders[o.id] == o
    requires SameOwner(o, ended) && !IsLive(ended.status) && ended.remaining >= 0
    requires o.quoteAsset != asset && !o.side.OtherSide?
    ensures o.side.Sell? && o.baseAsset == asset ==> ReleaseOrderFunds(t, o).Ok?
    ensures ReleaseOrderFunds(t, o).Ok? ==> Covers(orders[o.id := ended], ReleaseOrderFunds(t, o).value, asset, [], "")
  {
    var id := o.id;
    var next := orders[id := ended];
    assert OwnsReservation(o, id, t) && ReservedFor(o, t, asset, OwedBy([], id), id);
    HeldNonNegative(orders, t, o.userId, asset, id);
    if o.side.Sell? && o.baseAsset == asset {
      if o.remaining > 0 {
        ReleaseExact(t, o, asset);
      }
    } else if ReleaseOrderFunds(t, o).Ok? {
      ReleaseElsewhere(t, o, asset);
    }
    if ReleaseOrderFunds(t, o).Ok? {
      var n := ReleaseOrderFunds(t, o).value;
      assert SameReservations(t, n, ReservationId(o));
      EndOrders(orders, t, n, asset, o, ended);
      forall user ensures Locked(n, user, asset) == Held(next, user, asset, "") + Owed([], user, asset) {
        HeldNamed(orders, t, id, user, asset);
        HeldPut(orders, id, ended, user, asset, "");
      }
    }
  }

  lemma EndOrders(orders: map<string, Order>, t: Tables, n: Tables, asset: string, o: Order, ended: Order)
    requires Covers(orders, t, asset, [], o.id) && o.id in orders && orders[o.id] == o
    requires SameOwner(o, ended) && !IsLive(ended.status) && ended.remaining >= 0
    requires SameReservations(t, n, ReservationId(o))
    requires Sells(o, asset) ==> n.reservations[ReservationId(o)].remaining == 0
    ensures OrdersOk(orders[o.id := ended], n) && Reserved(orders[o.id := ended], n, asset, [], "")
  {
    var next := orders[o.id := ended];
    OrdersStayOk(orders, t, n, ReservationId(o));
    forall x | x in next ensures OwnsReservation(next[x], x, n) && ReservedFor(next[x], n, asset, OwedBy([], x), "") {
      assert OwnsReservation(orders[x], x, n) && OwnsReservation(orders[x], x, t);
      assert ReservedFor(orders[x], t, asset, OwedBy([], x), o.id);
      if x != o.id {
        ReservationsDiffer(orders, t, x, o.id);
        assert n.reservations[ReservationId(orders[x])] == t.reservations[ReservationId(orders[x])];
      }
    }
  }

  /** Naming an order as expiring adds what it holds beyond its status. */
  lemma HeldNamed(orders: map<string, Order>, t: Tables, id: string, user: string, asset: string)
    requires OrdersOk(orders, t) && id in orders
    ensures Held(orders, user, asset, id) ==
            Held(orders, user, asset, "") - Holds(orders[id], user, asset, "") + Holds(orders[id], user, asset, id)
  {
    var m := map x | x in orders :: Holds(orders[x], user, asset, "");
    forall x | x in orders && x != id ensures Holds(orders[x], user, asset, id) == Holds(orders[x], user, asset, "") {
      assert OwnsReservation(orders[x], x, t);
    }
    assert (map x | x in orders :: Holds(orders[x], user, asset, id)) == m[id := Holds(orders[id], user, asset, id)];
    SumUpdate(m, id, Holds(orders[id], user, asset, id));
  }
}
