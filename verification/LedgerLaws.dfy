/** What the small ledger operations mean for an account: which bucket moves by how much, that nobody else's does, and
    what undoes what. */
module LedgerLaws {
  import opened Orders
  import opened Ledger
  import opened Conservation
  import Decimal

  /** The buckets of one account move by these amounts, and no other account changes. */
  ghost predicate Moved(t: Tables, n: Tables, k: Account, available: int, locked: int, pending: int) {
    && (forall a :: a != k ==> BalanceOf(n, a) == BalanceOf(t, a))
    && var b := BalanceOf(t, k);
       BalanceOf(n, k) == Balance(b.available + available, b.locked + locked, b.pending + pending)
  }

  /** No account changes. */
  ghost predicate Unmoved(t: Tables, n: Tables) {
    forall a :: BalanceOf(n, a) == BalanceOf(t, a)
  }

  lemma SaveMoves(t: Tables, k: Account, b: Balance, id: string, kind: EntryKind, amount: int)
    ensures var was := BalanceOf(t, k);
            Moved(t, Save(t, k, b, id, kind, amount), k, b.available - was.available, b.locked - was.locked,
                  b.pending - was.pending)
  {
  }

  // ---- Deposits and withdrawals ----

  /** An announced deposit can always be settled, and then is exactly the amount more to spend. */
  lemma AnnounceThenSettle(t: Tables, k: Account, amount: int, id: string, later: string)
    requires amount > 0 && BalanceOf(t, k).pending >= 0
    ensures var announced := MarkDepositPending(t, k, amount, id);
            && announced.Ok? && Moved(t, announced.value, k, 0, 0, amount)
            && var settled := SettleDeposit(announced.value, k, amount, later);
               settled.Ok? && Moved(t, settled.value, k, amount, 0, 0)
  {
  }

  /** A deposit settles if and only if that much is pending on an existing account. */
  lemma SettleIff(t: Tables, k: Account, amount: int, id: string)
    ensures SettleDeposit(t, k, amount, id).Ok? <==> amount > 0 && k in t.balances && BalanceOf(t, k).pending >= amount
    ensures SettleDeposit(t, k, amount, id).Ok? ==>
              Moved(t, SettleDeposit(t, k, amount, id).value, k, amount, 0, -amount)
  {
  }

  /** Cancelling a requested withdrawal gives everything back; completing it takes exactly the amount; and either way it
      can be finalized only once. */
  lemma RequestThenFinalize(t: Tables, wid: string, k: Account, amount: int, cancel: bool, again: bool)
    requires RequestWithdrawal(t, wid, k, amount).Ok? && BalanceOf(t, k).pending >= 0
    ensures var requested := RequestWithdrawal(t, wid, k, amount).value;
            var done := FinalizeWithdrawal(requested, wid, cancel);
            && Moved(t, requested, k, -amount, 0, amount) && done.Ok?
            && (if cancel then Unmoved(t, done.value) else Moved(t, done.value, k, -amount, 0, 0))
            && FinalizeWithdrawal(done.value, wid, again) == Err(NotRequested)
  {
    var requested := RequestWithdrawal(t, wid, k, amount).value;
    assert BalanceOf(requested, k).pending == BalanceOf(t, k).pending + amount;
  }

  /** A withdrawal is granted if and only if it is new and that much is available. */
  lemma RequestIff(t: Tables, wid: string, k: Account, amount: int)
    ensures RequestWithdrawal(t, wid, k, amount).Ok? <==>
            amount > 0 && k in t.balances && BalanceOf(t, k).available >= amount && wid !in t.withdrawals
  {
  }

  /** Every movement leaves one entry that names it, its account and its amount. */
  lemma JournalTells(t: Tables, k: Account, amount: int, id: string, wid: string, cancel: bool, o: Order)
    ensures var n := MarkDepositPending(t, k, amount, id);
            n.Ok? ==> n.value.journal == t.journal + [Entry(id, DepositPending, k, amount)]
    ensures var n := SettleDeposit(t, k, amount, id);
            n.Ok? ==> n.value.journal == t.journal + [Entry(id, DepositSettled, k, amount)]
    ensures var n := RequestWithdrawal(t, wid, k, amount);
            n.Ok? ==> n.value.journal == t.journal + [Entry("", WithdrawalRequested, k, amount)]
                      && n.value.withdrawals == t.withdrawals[wid := Withdrawal(k, amount, Requested)]
    ensures var n := FinalizeWithdrawal(t, wid, cancel);
            n.Ok? ==>
              var w := t.withdrawals[wid];
              && n.value.journal ==
                 t.journal + [Entry("", if cancel then WithdrawalCanceled
                                    else WithdrawalCompleted, w.account, w.amount)]
              && n.value.withdrawals == t.withdrawals[wid := w.(status := if cancel then CanceledByUser else Completed)]
    ensures var n := ReserveOrderFunds(t, o);
            n.Ok? && Need(o) > 0 ==> n.value.journal == t.journal + [Entry("", Reserve, NeedAccount(o), Need(o))]
  {
  }

  // ---- Order funds ----

  /** A reservation adds up: what was consumed, released and remains is what was reserved, and nothing remains
      negative. */
  predicate AddsUp(r: Reservation, amount: int) {
    r.consumed + r.released + r.remaining == amount && r.remaining >= 0
  }

  lemma ReservationAddsUp(t: Tables, id: string, amount: int, consume: bool, whole: int)
    requires id in t.reservations && AddsUp(t.reservations[id], whole) && ChangeReservation(t, id, amount, consume).Ok?
    ensures var n := ChangeReservation(t, id, amount, consume).value;
            && Unmoved(t, n) && id in n.reservations && AddsUp(n.reservations[id], whole)
            && forall r :: r in t.reservations && r != id ==>
                r in n.reservations && n.reservations[r] == t.reservations[r]
  {
  }

  /** What an order needs locked: a buy its price times its remainder of the quote asset, a sell its remainder of the
      base asset. */
  function Need(o: Order): int {
    if o.side.Buy? then Decimal.Mul(o.price, o.remaining) else o.remaining
  }

  function NeedAccount(o: Order): Account {
    Account(o.userId, if o.side.Buy? then o.quoteAsset else o.baseAsset)
  }

  /** Everything the row of a reservation must name. */
  predicate Complete(o: Order) {
    o.id != "" && o.userId != "" && o.market != "" && NeedAccount(o).asset != ""
  }

  /** Funds are reserved if and only if the account has that much available, exactly enough included, under a complete
      reservation of an unused id; an order that needs nothing reserves nothing. */
  lemma ReserveIff(t: Tables, o: Order)
    ensures ReserveOrderFunds(t, o).Ok? <==>
              Need(o) > 0 ==>
                && NeedAccount(o) in t.balances && BalanceOf(t, NeedAccount(o)).available >= Need(o) && Complete(o)
                && (if o.reservationId != "" then o.reservationId else "res_" + o.id) !in t.reservations
    ensures Need(o) <= 0 ==> ReserveOrderFunds(t, o) == Ok(t)
  {
    assert "res_" + o.id != "";
  }

  /** What a settlement takes counts as consumed, what a release takes as released. */
  lemma ChangeTells(t: Tables, id: string, amount: int, consume: bool)
    requires id != "" && id in t.reservations && amount > 0
    ensures var r, n := t.reservations[id], ChangeReservation(t, id, amount, consume);
            && (n.Ok? <==> r.remaining >= amount)
            && (n.Ok? ==>
                  n.value.reservations[id] ==
                  Reservation(r.orderId, r.consumed + (if consume then amount else 0),
                              r.released + (if consume then 0 else amount), r.remaining - amount))
  {
  }

  lemma ReserveMoves(t: Tables, o: Order)
    requires ReserveOrderFunds(t, o).Ok? && ReserveAmount(o) > 0
    ensures var n, amount := ReserveOrderFunds(t, o).value, ReserveAmount(o);
            && Moved(t, n, Account(o.userId, ReserveAsset(o)), -amount, amount, 0)
            && ReservationId(o) !in t.reservations && ReservationId(o) in n.reservations && ReservationId(o) != ""
            && n.reservations[ReservationId(o)].orderId == o.id && n.reservations[ReservationId(o)].remaining == amount
            && AddsUp(n.reservations[ReservationId(o)], amount)
  {
  }

  lemma ReleaseMoves(t: Tables, o: Order)
    requires ReleaseOrderFunds(t, o).Ok? && ReserveAmount(o) > 0
    ensures var k := Account(o.userId, ReserveAsset(o));
            var amount := ClampedRelease(t, k, ReservationId(o), ReserveAmount(o));
            if amount > 0 then Moved(t, ReleaseOrderFunds(t, o).value, k, amount, -amount, 0)
                else Unmoved(t, ReleaseOrderFunds(t, o).value)
  {
    var k := Account(o.userId, ReserveAsset(o));
    var amount := ClampedRelease(t, k, ReservationId(o), ReserveAmount(o));
    if amount > 0 {
      var debited := DebitLocked(t, k, amount, Release).value;
      SaveMoves(t, k, t.balances[k].(locked := t.balances[k].locked - amount), "", Release, amount);
      SaveMoves(debited, k, BalanceOf(debited, k).(available := BalanceOf(debited, k).available + amount), "", Release,
                amount);
    }
  }

  /** A release takes no more than was asked for, is locked, or is left of the reservation. */
  lemma ReleaseIsClamped(t: Tables, k: Account, id: string, requested: int)
    requires requested > 0 && BalanceOf(t, k).locked >= 0
    ensures var amount := ClampedRelease(t, k, id, requested);
            && 0 <= amount <= requested && amount <= BalanceOf(t, k).locked
            && (id != "" && id in t.reservations && t.reservations[id].remaining > 0 ==>
                amount <= t.reservations[id].remaining)
  {
  }

  /** Releasing an untouched reservation gives back exactly what it took. */
  lemma ReserveThenRelease(t: Tables, o: Order)
    requires ReserveOrderFunds(t, o).Ok? && ReserveAmount(o) > 0
    requires BalanceOf(t, Account(o.userId, ReserveAsset(o))).locked >= 0
    ensures var reserved := ReserveOrderFunds(t, o).value;
            var released := ReleaseOrderFunds(reserved, o);
            released.Ok? && Unmoved(t, released.value) && released.value.reservations[ReservationId(o)].remaining == 0
  {
    ReserveMoves(t, o);
    ReleaseMoves(ReserveOrderFunds(t, o).value, o);
  }

  // ---- Settlement ----

  /** A reservation that can give up this much; one that is not recorded does not stand in the way. */
  predicate CanGive(t: Tables, o: Order, amount: int) {
    ReservationId(o) != "" && ReservationId(o) in t.reservations ==>
        t.reservations[ReservationId(o)].remaining >= amount
  }

  /** The half of a buyer settles if and only if the locked quote and the reservation hold what the plan takes. */
  lemma BuyerSettlesIff(t: Tables, x: Trade, p: Plan)
    requires x.quoteQuantity > 0 && p.release == p.lockedQuote - x.quoteQuantity >= 0
    ensures var k := Account(p.buyer.userId, x.quoteAsset);
            SettleBuyer(t, x, p).Ok? <==>
              k in t.balances && BalanceOf(t, k).locked >= p.lockedQuote && CanGive(t, p.buyer, p.lockedQuote)
  {
  }

  /** ... and the half of a seller if and only if the locked base and the reservation hold the quantity. */
  lemma SellerSettlesIff(t: Tables, x: Trade, p: Plan)
    requires x.quantity > 0
    ensures var k := Account(p.seller.userId, x.baseAsset);
            SettleSeller(t, x, p).Ok? <==>
              k in t.balances && BalanceOf(t, k).locked >= x.quantity && CanGive(t, p.seller, x.quantity)
  {
  }

  /** A trade has a settlement plan if and only if both orders are named, the amounts are positive, and the price of the
      buyer covers the quote; the plan takes quantity times that price, rounded, and returns the rest. */
  lemma PlanIff(x: Trade, maker: Order, taker: Order)
    ensures var buyer, seller := if x.takerSide.Buy? then taker else maker, if x.takerSide.Buy? then maker else taker;
            var locked := Decimal.Mul(x.quantity, buyer.price);
            && (SettlementForTrade(x, maker, taker).Ok? <==>
                  && buyer.id != "" && seller.id != "" && x.quantity > 0 && x.quoteQuantity > 0 && buyer.price > 0
                  && x.quoteQuantity <= locked)
            && (SettlementForTrade(x, maker, taker).Ok? ==>
                  SettlementForTrade(x, maker, taker).value == Plan(buyer, seller, locked, locked - x.quoteQuantity))
  {
  }

  /** What a reservation has consumed and released grows by these amounts; no other reservation changes. */
  ghost predicate Used(t: Tables, n: Tables, o: Order, consumed: int, released: int) {
    && (forall r :: r in t.reservations && r != ReservationId(o) ==>
          r in n.reservations && n.reservations[r] == t.reservations[r])
    && (ReservationId(o) != "" && ReservationId(o) in t.reservations ==>
          && var r := t.reservations[ReservationId(o)];
             && ReservationId(o) in n.reservations
             && n.reservations[ReservationId(o)] ==
                Reservation(r.orderId, r.consumed + consumed, r.released + released, r.remaining - consumed - released))
  }

  /** A settlement consumes the quote paid and releases what the limit of the buyer exceeded it by, and consumes what
      the seller sold. */
  lemma SettlementUses(t: Tables, x: Trade, p: Plan)
    requires x.quoteQuantity > 0 && x.quantity > 0 && p.release == p.lockedQuote - x.quoteQuantity >= 0
    ensures SettleBuyer(t, x, p).Ok? ==> Used(t, SettleBuyer(t, x, p).value, p.buyer, x.quoteQuantity, p.release)
    ensures SettleSeller(t, x, p).Ok? ==> Used(t, SettleSeller(t, x, p).value, p.seller, x.quantity, 0)
  {
  }

  /** A release releases. */
  lemma ReleaseUses(t: Tables, o: Order)
    requires ReleaseOrderFunds(t, o).Ok? && Need(o) > 0
    ensures var amount := ClampedRelease(t, NeedAccount(o), ReservationId(o), Need(o));
            Used(t, ReleaseOrderFunds(t, o).value, o, 0, if amount > 0 then amount else 0)
  {
  }

  /** A settled trade exchanges base for quote: the buyer's locked quote pays the seller and the rest of it returns, the
      seller's locked base goes to the buyer, and nobody else's account changes. */
  lemma TradeExchanges(t: Tables, x: Trade, maker: Order, taker: Order)
    requires SettleTrade(t, x, maker, taker).Ok? && x.baseAsset != x.quoteAsset
    requires maker.userId != taker.userId
    ensures var p, n := SettlementForTrade(x, maker, taker).value, SettleTrade(t, x, maker, taker).value;
            var buyer, seller := p.buyer.userId, p.seller.userId;
            && Shifted(t, n, Account(buyer, x.quoteAsset), p.lockedQuote - x.quoteQuantity, -p.lockedQuote)
            && Shifted(t, n, Account(buyer, x.baseAsset), x.quantity, 0)
            && Shifted(t, n, Account(seller, x.quoteAsset), x.quoteQuantity, 0)
            && Shifted(t, n, Account(seller, x.baseAsset), 0, -x.quantity)
            && forall a: Account ::
                !((a.user == buyer || a.user == seller) && (a.asset == x.quoteAsset || a.asset == x.baseAsset)) ==>
                 BalanceOf(n, a) == BalanceOf(t, a)
  {
    var p := SettlementForTrade(x, maker, taker).value;
    BuyerShifts(t, x, p);
    SellerShifts(SettleBuyer(t, x, p).value, x, p);
  }

  /** Available and locked move by these amounts, pending stays. */
  predicate Shifted(t: Tables, n: Tables, k: Account, available: int, locked: int) {
    var b := BalanceOf(t, k);
    BalanceOf(n, k) == Balance(b.available + available, b.locked + locked, b.pending)
  }

  lemma BuyerShifts(t: Tables, x: Trade, p: Plan)
    requires SettleBuyer(t, x, p).Ok? && x.baseAsset != x.quoteAsset
    requires p.release == p.lockedQuote - x.quoteQuantity >= 0
    ensures var n := SettleBuyer(t, x, p).value;
            var quote, base := Account(p.buyer.userId, x.quoteAsset), Account(p.buyer.userId, x.baseAsset);
            && Shifted(t, n, quote, p.release, -p.lockedQuote) && Shifted(t, n, base, x.quantity, 0)
            && forall a :: a != quote && a != base ==> BalanceOf(n, a) == BalanceOf(t, a)
  {
  }

  lemma SellerShifts(t: Tables, x: Trade, p: Plan)
    requires SettleSeller(t, x, p).Ok? && x.baseAsset != x.quoteAsset
    ensures var n := SettleSeller(t, x, p).value;
            var quote, base := Account(p.seller.userId, x.quoteAsset), Account(p.seller.userId, x.baseAsset);
            && Shifted(t, n, quote, x.quoteQuantity, 0) && Shifted(t, n, base, 0, -x.quantity)
            && forall a :: a != quote && a != base ==> BalanceOf(n, a) == BalanceOf(t, a)
  {
  }
}
