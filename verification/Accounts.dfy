/** The ledger as the repository runs it: rows read, changed and saved one after the other, each method against its
    function on the tables, and every service transaction rolled back as a whole on an error. */
module Accounts {
  import opened Orders
  import opened Ledger
  import opened LedgerLaws
  import opened Cover
  import opened CoverRuns
  import opened Projection
  import opened Transactions
  import Conservation
  import Backing
  import Deposits
  import Decimal

  /** A method ends as the specification says; after an error the caller rolls back. */
  ghost predicate Follows(spec: Result<Tables>, err: Option<LedgerError>, now: Tables) {
    match spec
    case Ok(n) => err.None? && now == n
    case Err(e) => err == Some(e)
  }

  class AccountStore {
    var orders: map<string, Order>
    var balances: map<Account, Balance>
    var reservations: map<string, Reservation>
    var withdrawals: map<string, Withdrawal>
    var journal: seq<Entry>
    /** Assets in which no market quotes. */
    ghost const bases: set<string>

    /** Between transactions money is conserved, no bucket is negative, what is locked is what the reservations hold,
        and of a base asset it is what is left of the live sell orders. */
    ghost predicate Valid()
      reads this
    {
      && Conservation.Conserved(Books()) && Backing.Backed(State())
      && forall a :: a in bases ==> Covered(State(), a)
    }

    constructor (ghost bases: set<string>)
      ensures Valid() && State() == Exchange(map[], Tables(map[], map[], map[], [])) && this.bases == bases
    {
      this.bases := bases;
      orders, balances, reservations, withdrawals, journal := map[], map[], map[], map[], [];
      new;
      Conservation.EmptyIsConserved();
      Backing.EmptyIsBacked();
      forall a | a in bases ensures Covered(State(), a) {
        EmptyIsCovered(a);
      }
    }

    ghost function Books(): Tables
      reads this
    {
      Tables(balances, reservations, withdrawals, journal)
    }

    ghost function State(): Exchange
      reads this
    {
      Exchange(orders, Books())
    }

    /** `balanceForUpdate`: a missing row is created on demand. */
    method BalanceForUpdate(k: Account, create: bool) returns (found: Option<Balance>)
      modifies this`balances
      ensures found == if create || k in old(balances) then Some(BalanceOf(old(Books()), k)) else None
      ensures balances == if create then old(balances)[k := BalanceOf(old(Books()), k)] else old(balances)
    {
      if k in balances {
        return Some(balances[k]);
      }
      if !create {
        return None;
      }
      balances := balances[k := NO_FUNDS];
      found := Some(NO_FUNDS);
    }

    method SaveBalance(k: Account, b: Balance, id: string, kind: EntryKind, amount: int)
      modifies this`balances, this`journal
      ensures Books() == Save(old(Books()), k, b, id, kind, amount)
    {
      balances := balances[k := b];
      journal := journal + [Entry(id, kind, k, amount)];
    }

    method MarkDepositPending(k: Account, amount: int, id: string) returns (err: Option<LedgerError>)
      modifies this`balances, this`journal
      ensures err.None? <==> amount > 0
      ensures err.None? ==> Moved(old(Books()), Books(), k, 0, 0, amount)
      ensures Follows(Ledger.MarkDepositPending(old(Books()), k, amount, id), err, Books())
      ensures err.Some? ==> Books() == old(Books())
    {
      if amount <= 0 {
        return Some(InvalidAmount);
      }
      var b := BalanceForUpdate(k, true);
      SaveBalance(k, b.value.(pending := b.value.pending + amount), id, DepositPending, amount);
      err := None;
    }

    method SettleDeposit(k: Account, amount: int, id: string) returns (err: Option<LedgerError>)
      modifies this`balances, this`journal
      ensures err.None? <==> amount > 0 && k in old(balances) && BalanceOf(old(Books()), k).pending >= amount
      ensures err.None? ==> Moved(old(Books()), Books(), k, amount, 0, -amount)
      ensures Follows(Ledger.SettleDeposit(old(Books()), k, amount, id), err, Books())
    {
      if amount <= 0 {
        return Some(InvalidAmount);
      }
      var b := BalanceForUpdate(k, false);
      if b.None? {
        return Some(RecordNotFound);
      }
      if b.value.pending < amount {
        return Some(InsufficientBalance);
      }
      var pending := Decimal.SubFloorZero(b.value.pending, amount);
      SaveBalance(k, b.value.(pending := pending, available := b.value.available + amount), id, DepositSettled, amount);
      err := None;
    }

    method RequestWithdrawal(wid: string, k: Account, amount: int) returns (err: Option<LedgerError>)
      modifies this`balances, this`journal, this`withdrawals
      ensures err.None? ==> Moved(old(Books()), Books(), k, -amount, 0, amount) && wid !in old(withdrawals)
      ensures Follows(Ledger.RequestWithdrawal(old(Books()), wid, k, amount), err, Books())
    {
      if amount <= 0 {
        return Some(InvalidAmount);
      }
      var b := BalanceForUpdate(k, false);
      if b.None? || b.value.available < amount {
        return Some(InsufficientBalance);
      }
      var available := Decimal.SubFloorZero(b.value.available, amount);
      SaveBalance(k, b.value.(available := available, pending := b.value.pending + amount), "", WithdrawalRequested,
                  amount);
      if wid in withdrawals {
        return Some(DuplicateRecord);
      }
      withdrawals := withdrawals[wid := Withdrawal(k, amount, Requested)];
      err := None;
    }

    method FinalizeWithdrawal(wid: string, cancel: bool) returns (err: Option<LedgerError>)
      modifies this`balances, this`journal, this`withdrawals
      ensures err.None? ==>
                && wid in old(withdrawals) && old(withdrawals)[wid].status.Requested?
                && wid in withdrawals && !withdrawals[wid].status.Requested?
                && var w := old(withdrawals)[wid];
                   Moved(old(Books()), Books(), w.account, if cancel then w.amount else 0, 0, -w.amount)
      ensures Follows(Ledger.FinalizeWithdrawal(old(Books()), wid, cancel), err, Books())
    {
      if wid !in withdrawals {
        return Some(RecordNotFound);
      }
      var w := withdrawals[wid];
      if w.status != Requested {
        return Some(NotRequested);
      }
      var b := BalanceForUpdate(w.account, false);
      if b.None? {
        return Some(RecordNotFound);
      }
      if b.value.pending < w.amount {
        return Some(InsufficientBalance);
      }
      var rest := b.value.(pending := Decimal.SubFloorZero(b.value.pending, w.amount));
      if cancel {
        rest := rest.(available := rest.available + w.amount);
      }
      SaveBalance(w.account, rest, "", if cancel then WithdrawalCanceled else WithdrawalCompleted, w.amount);
      withdrawals := withdrawals[wid := w.(status := if cancel then CanceledByUser else Completed)];
      err := None;
    }

    method ReserveOrderFunds(o: Order) returns (err: Option<LedgerError>)
      modifies this`balances, this`journal, this`reservations
      ensures err.None? && ReserveAmount(o) > 0 ==>
                Moved(old(Books()), Books(), Account(o.userId, ReserveAsset(o)), -ReserveAmount(o), ReserveAmount(o), 0)
      ensures Follows(Ledger.ReserveOrderFunds(old(Books()), o), err, Books())
    {
      var k, amount := Account(o.userId, ReserveAsset(o)), ReserveAmount(o);
      if amount <= 0 {
        return None;
      }
      var b := BalanceForUpdate(k, false);
      if b.None? || b.value.available < amount {
        return Some(InsufficientBalance);
      }
      var available := Decimal.SubFloorZero(b.value.available, amount);
      SaveBalance(k, b.value.(available := available, locked := b.value.locked + amount), "", Reserve, amount);
      err := CreateReservation(o, amount);
    }

    method CreateReservation(o: Order, amount: int) returns (err: Option<LedgerError>)
      modifies this`reservations
      ensures Follows(Ledger.CreateReservation(old(Books()), o, amount), err, Books())
    {
      var id := ReservationId(o);
      if id == "" || o.userId == "" || o.market == "" || ReserveAsset(o) == "" || o.id == "" {
        return Some(IncompleteReservation);
      }
      if id in reservations {
        return Some(DuplicateRecord);
      }
      reservations := reservations[id := Reservation(o.id, 0, 0, amount)];
      err := None;
    }

    /** `consumeReservation` and `releaseReservation`. */
    method ChangeReservation(id: string, amount: int, consume: bool) returns (err: Option<LedgerError>)
      modifies this`reservations
      ensures Follows(Ledger.ChangeReservation(old(Books()), id, amount, consume), err, Books())
    {
      if id == "" || amount <= 0 || id !in reservations {
        return None;
      }
      var r := reservations[id];
      if r.remaining < amount {
        return Some(InsufficientBalance);
      }
      if consume {
        r := r.(consumed := r.consumed + amount);
      } else {
        r := r.(released := r.released + amount);
      }
      reservations := reservations[id := r.(remaining := Decimal.SubFloorZero(r.remaining, amount))];
      err := None;
    }

    method DebitLocked(k: Account, amount: int, kind: EntryKind) returns (err: Option<LedgerError>)
      modifies this`balances, this`journal
      ensures err.None? <==> k in old(balances) && BalanceOf(old(Books()), k).locked >= amount
      ensures err.None? && amount >= 0 ==> Moved(old(Books()), Books(), k, 0, -amount, 0)
      ensures Follows(Ledger.DebitLocked(old(Books()), k, amount, kind), err, Books())
    {
      var b := BalanceForUpdate(k, false);
      if b.None? {
        return Some(RecordNotFound);
      }
      if b.value.locked < amount {
        return Some(InsufficientBalance);
      }
      SaveBalance(k, b.value.(locked := Decimal.SubFloorZero(b.value.locked, amount)), "", kind, amount);
      err := None;
    }

    method AddAvailable(k: Account, amount: int, kind: EntryKind)
      modifies this`balances, this`journal
      ensures Moved(old(Books()), Books(), k, amount, 0, 0)
      ensures Books() == Ledger.AddAvailable(old(Books()), k, amount, kind)
    {
      var b := BalanceForUpdate(k, true);
      SaveBalance(k, b.value.(available := b.value.available + amount), "", kind, amount);
    }

    method ReleaseOrderFunds(o: Order) returns (err: Option<LedgerError>)
      modifies this`balances, this`journal, this`reservations
      ensures Follows(Ledger.ReleaseOrderFunds(old(Books()), o), err, Books())
    {
      var k, requested, id := Account(o.userId, ReserveAsset(o)), ReserveAmount(o), ReservationId(o);
      if requested <= 0 {
        return None;
      }
      var amount := requested;
      if id != "" && id in reservations && 0 < reservations[id].remaining < amount {
        amount := reservations[id].remaining;
      }
      var b := BalanceForUpdate(k, false);
      if b.None? {
        return None;
      }
      if b.value.locked < amount {
        amount := b.value.locked;
      }
      assert amount == ClampedRelease(old(Books()), k, id, requested);
      if amount <= 0 {
        return None;
      }
      err := DebitLocked(k, amount, Release);
      if err.Some? {
        return;
      }
      AddAvailable(k, amount, Release);
      err := ChangeReservation(id, amount, false);
    }

    method SettleBuyer(x: Trade, p: Plan) returns (err: Option<LedgerError>)
      modifies this`balances, this`journal, this`reservations
      ensures Follows(Ledger.SettleBuyer(old(Books()), x, p), err, Books())
    {
      var quote, base, id := Account(p.buyer.userId, x.quoteAsset), Account(p.buyer.userId, x.baseAsset),
          ReservationId(p.buyer);
      err := DebitLocked(quote, p.lockedQuote, DebitLockedFunds);
      if err.Some? {
        return;
      }
      err := ChangeReservation(id, x.quoteQuantity, true);
      if err.Some? {
        return;
      }
      if p.release > 0 {
        AddAvailable(quote, p.release, Release);
        err := ChangeReservation(id, p.release, false);
        if err.Some? {
          return;
        }
      }
      AddAvailable(base, x.quantity, SettlementReceive);
    }

    method SettleSeller(x: Trade, p: Plan) returns (err: Option<LedgerError>)
      modifies this`balances, this`journal, this`reservations
      ensures Follows(Ledger.SettleSeller(old(Books()), x, p), err, Books())
    {
      err := DebitLocked(Account(p.seller.userId, x.baseAsset), x.quantity, DebitLockedFunds);
      if err.Some? {
        return;
      }
      err := ChangeReservation(ReservationId(p.seller), x.quantity, true);
      if err.Some? {
        return;
      }
      AddAvailable(Account(p.seller.userId, x.quoteAsset), x.quoteQuantity, SettlementReceive);
    }

    method SettleTrade(x: Trade, maker: Order, taker: Order) returns (err: Option<LedgerError>)
      modifies this`balances, this`journal, this`reservations
      ensures Follows(Ledger.SettleTrade(old(Books()), x, maker, taker), err, Books())
    {
      var plan := SettlementForTrade(x, maker, taker);
      if plan.Err? {
        return Some(plan.error);
      }
      err := SettleBuyer(x, plan.value);
      if err.Some? {
        return;
      }
      err := SettleSeller(x, plan.value);
    }

    method SettleTrades(trades: seq<Trade>) returns (err: Option<LedgerError>)
      modifies this`balances, this`journal, this`reservations
      ensures Follows(Ledger.SettleTrades(old(Books()), orders, trades), err, Books())
    {
      ghost var whole := Ledger.SettleTrades(Books(), orders, trades);
      var i := 0;
      assert trades[0..] == trades;
      while i < |trades|
        invariant 0 <= i <= |trades|
        invariant Ledger.SettleTrades(Books(), orders, trades[i..]) == whole
      {
        assert trades[i..][1..] == trades[i + 1..];
        if trades[i].makerOrderId !in orders || trades[i].takerOrderId !in orders {
          return Some(RecordNotFound);
        }
        err := SettleTrade(trades[i], orders[trades[i].makerOrderId], orders[trades[i].takerOrderId]);
        if err.Some? {
          return;
        }
        i := i + 1;
      }
      err := None;
    }

    // ---- Gateway callbacks ----

    /** `BalanceEventExists`. */
    method EventExists(id: string) returns (found: bool)
      ensures found <==> Deposits.Exists(journal, id)
    {
      if id == "" {
        return false;
      }
      var i := 0;
      while i < |journal|
        invariant 0 <= i <= |journal| && forall j :: 0 <= j < i ==> journal[j].id != id
      {
        if journal[i].id == id {
          assert journal[i] in journal;
          return true;
        }
        i := i + 1;
      }
      found := false;
    }

    /** `markDepositPendingOnce`, one transaction; `processed` is false for a duplicate. */
    method MarkDepositPendingOnce(x: Deposits.Terms, ref: string) returns (processed: bool, err: Option<LedgerError>)
      modifies this`balances, this`journal
      ensures Follows(Deposits.PendingOnce(old(Books()), x, ref), err, Books())
      ensures processed <==> err.None? && !Deposits.Exists(old(journal), Deposits.PendingId(ref))
      ensures err.Some? ==> Books() == old(Books())
    {
      var known := EventExists(Deposits.PendingId(ref));
      if known {
        return false, None;
      }
      err := MarkDepositPending(x.account, x.amount, Deposits.PendingId(ref));
      processed := err.None?;
    }

    /** `settleGatewayDepositOnce`, one transaction that announces the deposit first if nobody did. */
    method SettleGatewayDepositOnce(x: Deposits.Terms, ref: string) returns (processed: bool, err: Option<LedgerError>)
      modifies this`balances, this`journal
      ensures Follows(Deposits.SettleOnce(old(Books()), x, ref), err, Books())
      ensures processed <==> err.None? && !Deposits.Exists(old(journal), Deposits.SettleId(ref))
      ensures err.Some? ==> Books() == old(Books())
    {
      var balances0, journal0 := balances, journal;
      var settled := EventExists(Deposits.SettleId(ref));
      if settled {
        return false, None;
      }
      var pending := EventExists(Deposits.PendingId(ref));
      if !pending {
        err := MarkDepositPending(x.account, x.amount, Deposits.PendingId(ref));
        if err.Some? {
          balances, journal := balances0, journal0;
          return false, err;
        }
      }
      err := SettleDeposit(x.account, x.amount, Deposits.SettleId(ref));
      if err.Some? {
        balances, journal := balances0, journal0;
      }
      processed := err.None?;
    }

    // ---- Transactions ----

    /** Saves the makers; with `check`, one that is not stored ends the transaction. */
    method SaveMakers(makers: seq<Order>, check: bool) returns (ok: bool)
      modifies this`orders
      ensures ok <==> !check || forall m :: m in makers ==> m.id in old(orders)
      ensures ok ==> orders == SaveAll(old(orders), makers)
    {
      var i := 0;
      assert makers[0..] == makers;
      while i < |makers|
        invariant 0 <= i <= |makers|
        invariant check ==> orders.Keys == old(orders).Keys
        invariant check ==> forall k :: 0 <= k < i ==> makers[k].id in old(orders)
        invariant SaveAll(orders, makers[i..]) == SaveAll(old(orders), makers)
      {
        assert makers[i..][1..] == makers[i + 1..] && makers[i] in makers;
        if check && makers[i].id !in orders {
          return false;
        }
        orders := orders[makers[i].id := makers[i]];
        i := i + 1;
      }
      ok := true;
    }

    /** The taker's save, the settlement and the release, once the makers are saved. */
    method FinishResult(r: MatchResult, ghost s: Exchange) returns (err: Option<LedgerError>)
      requires orders == SaveAll(s.orders, r.makers) && Books() == s.tables
      modifies this
      ensures match WriteTx(s, r)
              case Ok(n) => err.None? && State() == n
              case Err(e) => err == Some(e)
    {
      SaveAllSplit(s.orders, r.makers, r.taker);
      orders := orders[r.taker.id := r.taker];
      err := SettleTrades(r.trades);
      if err.None? && ShouldReleaseUnfilled(r.taker) {
        err := ReleaseOrderFunds(r.taker);
      }
    }

    method Place(o: Order, wait: bool) returns (err: Option<LedgerError>)
      modifies this
      ensures match PlaceTx(old(State()), o, wait)
              case Ok(n) => err.None? && State() == n
              case Err(e) => err == Some(e)
    {
      if o.id in orders {
        return Some(DuplicateRecord);
      }
      orders := orders[o.id := o];
      err := ReserveOrderFunds(o);
      if err.None? && wait && !o.status.PendingStop? {
        orders := orders[o.id := o.(status := PendingMatch)];
      }
    }

    method Persist(r: MatchResult) returns (err: Option<LedgerError>)
      modifies this
      ensures match PersistTx(old(State()), r)
              case Ok(n) => err.None? && State() == n
              case Err(e) => err == Some(e)
    {
      if r.taker.id !in orders {
        return Some(RecordNotFound);
      }
      if !RuntimeMatchable(orders[r.taker.id].status) {
        return None;
      }
      var saved := SaveMakers(r.makers, true);
      if !saved {
        return Some(RecordNotFound);
      }
      err := FinishResult(r, old(State()));
    }

    method Cancel(id: string, user: string, now: int) returns (err: Option<LedgerError>)
      modifies this
      ensures match CancelTx(old(State()), id, user, now)
              case Ok(n) => err.None? && State() == n
              case Err(e) => err == Some(e)
    {
      if id !in orders {
        return Some(RecordNotFound);
      }
      var item := orders[id];
      if user != "" && item.userId != user {
        return Some(UserMismatch);
      }
      if !IsLive(item.status) {
        var ended := item.status.Filled? || item.status.Canceled? || item.status.Expired?;
        return if ended then None else Some(NotCancelable);
      }
      orders := orders[id := item.(status := Canceled, remaining := 0, updatedAt := now)];
      err := ReleaseOrderFunds(item);
    }

    method MoveFunds(step: Conservation.Step) returns (err: Option<LedgerError>)
      requires MovesFunds(step)
      modifies this`balances, this`journal, this`withdrawals
      ensures Follows(Conservation.Attempt(old(Books()), step), err, Books())
    {
      match step
      case Deposit(k, amount, id) => err := MarkDepositPending(k, amount, id);
      case Settle(k, amount, id) => err := SettleDeposit(k, amount, id);
      case Request(wid, k, amount) => err := RequestWithdrawal(wid, k, amount);
      case Finalize(wid, cancel) => err := FinalizeWithdrawal(wid, cancel);
    }

    /** One service transaction: all of it or nothing, and money, reservations and cover are kept either way. */
    method Transact(x: Tx) returns (err: Option<LedgerError>)
      requires Valid() && Started(State(), x) && forall a :: a in bases ==> Legal(State(), x, a)
      modifies this
      ensures Valid()
      ensures State() == Next(old(State()), x)
      ensures err == match Attempt(old(State()), x) case Ok(_) => None case Err(e) => Some(e)
    {
      NextConserves(State(), x);
      Backing.NextBacked(State(), x);
      forall a | a in bases ensures Covered(Next(State(), x), a) {
        NextCovers(State(), x, a);
      }
      var orders0, balances0, reservations0, withdrawals0, journal0 :=
          orders, balances, reservations, withdrawals, journal;
      match x {
        case Place(o, wait) => err := Place(o, wait);
        case PlaceAndMatch(o, r) =>
          err := Place(o, false);
          if err.None? {
            ghost var placed := State();
            var _ := SaveMakers(r.makers, false);
            err := FinishResult(r, placed);
          }
        case Persist(r) => err := Persist(r);
        case Cancel(id, user, now) => err := Cancel(id, user, now);
        case MoveFunds(step) => err := MoveFunds(step);
      }
      if err.Some? {
        orders, balances, reservations, withdrawals, journal :=
            orders0, balances0, reservations0, withdrawals0, journal0;
      }
    }
  }
}
