/** What an order that ends unfilled gives back: the release of a match result that expired its taker
    (internal/app/orders/service.go), for buys and sells alike. */
module Refunds {
  import opened Orders
  import opened Sums
  import opened Engine
  import opened Ledger
  import opened LedgerLaws
  import opened Projection
  import opened Cover
  import opened CoverRuns
  import opened Transactions
  import opened Drift
  import opened Backing
  import Conservation
  import Decimal

  lemma FundedLocks(s: Exchange, k: Account)
    requires Conservation.NonNegative(s.tables)
    ensures BalanceOf(s.tables, k).locked >= 0
  {
  }

  /** An order that expires without a trade costs nothing: every balance is as before it was placed, its reservation is
      used up, and only its row is new. */
  lemma UnmatchedIsRefunded(s: Exchange, o: Order, at: int)
    requires Built(o) && PlaceTx(s, o, false).Ok? && Conservation.NonNegative(s.tables)
    ensures var expired := o.(status := Expired, updatedAt := at);
            var w := WriteTx(PlaceTx(s, o, false).value, MatchResult(expired, [], []));
            && w.Ok? && Unmoved(s.tables, w.value.tables) && w.value.orders == s.orders[o.id := expired]
            && Left(w.value.tables, expired) == 0
  {
    var placed, expired := PlaceTx(s, o, false).value, o.(status := Expired, updatedAt := at);
    FundedLocks(s, NeedAccount(o));
    ReserveThenRelease(s.tables, o);
    assert ReleaseOrderFunds(placed.tables, expired) == ReleaseOrderFunds(placed.tables, o);
    NothingTraded(placed, expired);
  }

  /** The transaction of a result without trades: the row, and the release. */
  lemma NothingTraded(s: Exchange, o: Order)
    requires o.status.Expired? && o.remaining > 0
    ensures var released := ReleaseOrderFunds(s.tables, o);
            WriteTx(s, MatchResult(o, [], [])) ==
            if released.Ok? then Ok(Exchange(s.orders[o.id := o], released.value)) else Err(released.error)
  {
    assert [] + [o] == [o] && [o][1..] == [];
    assert SaveAll(s.orders, [o]) == s.orders[o.id := o];
  }

  /** The balances once the trades of a result are settled. */
  function Settled(s: Exchange, r: MatchResult): Result<Tables> {
    SettleTrades(s.tables, SaveAll(s.orders, r.makers + [r.taker]), r.trades)
  }

  /** A written result releases for an expired taker with something left, and for no other. */
  lemma OthersKeepTheirs(s: Exchange, r: MatchResult)
    requires WriteTx(s, r).Ok?
    ensures Settled(s, r).Ok?
    ensures !(r.taker.status.Expired? && r.taker.remaining > 0) ==> WriteTx(s, r).value.tables == Settled(s, r).value
  {
  }

  /** What the rest of an expired taker needs, or what its reservation still holds if that is less, goes from locked to
      available, and nothing else moves. */
  lemma ExpiredIsRefunded(s: Exchange, r: MatchResult)
    requires Backed(s) && Conservation.Conserved(s.tables) && Consistent(s.orders, r) && WriteTx(s, r).Ok?
    requires r.taker.status.Expired? && r.taker.remaining > 0 && Need(r.taker) > 0
    requires Left(Settled(s, r).value, r.taker) > 0
    ensures var settled, n := Settled(s, r).value, WriteTx(s, r).value.tables;
            var amount := Decimal.Min(Need(r.taker), Left(settled, r.taker));
            Moved(settled, n, NeedAccount(r.taker), amount, -amount, 0) &&
                Left(n, r.taker) == Left(settled, r.taker) - amount
  {
    var saved := SaveAll(s.orders, r.makers + [r.taker]);
    SavedBacked(s, r);
    SettleTradesBacked(saved, s.tables, r.trades);
    LockedCovers(Exchange(saved, Settled(s, r).value), r.taker.id);
    assert OwnsReservation(saved[r.taker.id], r.taker.id, Settled(s, r).value);
    RestReturns(Settled(s, r).value, r.taker);
  }

  lemma RestReturns(t: Tables, o: Order)
    requires ReleaseOrderFunds(t, o).Ok? && ReservationId(o) != "" && ReservationId(o) in t.reservations && Need(o) > 0
    requires 0 < Left(t, o) <= LockedOn(t, NeedAccount(o))
    ensures var n, amount := ReleaseOrderFunds(t, o).value, Decimal.Min(Need(o), Left(t, o));
            Moved(t, n, NeedAccount(o), amount, -amount, 0) && Left(n, o) == Left(t, o) - amount
  {
    ReleaseMoves(t, o);
    ReleaseTook(t, o);
  }

  /** What an order has reserved is locked. */
  lemma LockedCovers(s: Exchange, id: string)
    requires Backed(s) && id in s.orders
    ensures LockedOn(s.tables, AccountOf(s.orders[id])) >= Left(s.tables, s.orders[id]) >= 0
  {
    var k := AccountOf(s.orders[id]);
    var m := map x | x in s.orders :: Claim(s.orders[x], s.tables, k);
    SumNonNegative(m);
    assert m[id] == Left(s.tables, s.orders[id]);
  }

  /** A rest of a buy is worth its price times what is left, a rest of a sell what is left. */
  lemma NeedIs(o: Order)
    ensures o.side.Buy? ==> Need(o) == ReserveAmount(o) == Decimal.Mul(o.price, o.remaining)
                            && NeedAccount(o) == AccountOf(o) == Account(o.userId, o.quoteAsset)
    ensures o.side.Sell? ==> Need(o) == ReserveAmount(o) == o.remaining
                             && NeedAccount(o) == AccountOf(o) == Account(o.userId, o.baseAsset)
  {
  }

  /** An order its owner cancels before any trade costs nothing either. */
  lemma CancelledIsRefunded(s: Exchange, o: Order, wait: bool, user: string, at: int)
    requires Built(o) && PlaceTx(s, o, wait).Ok? && Conservation.NonNegative(s.tables)
    requires (user == "" || user == o.userId)
    ensures var placed := PlaceTx(s, o, wait).value;
            var w := CancelTx(placed, o.id, user, at);
            && w.Ok? && Unmoved(s.tables, w.value.tables)
            && w.value.orders[o.id] == o.(status := Canceled, remaining := 0, updatedAt := at)
            && Left(w.value.tables, o) == 0
  {
    var placed := PlaceTx(s, o, wait).value;
    FundedLocks(s, NeedAccount(o));
    ReserveThenRelease(s.tables, o);
    assert ReleaseOrderFunds(placed.tables, placed.orders[o.id]) == ReleaseOrderFunds(placed.tables, o);
  }
}
