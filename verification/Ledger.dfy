/** The balance ledger of internal/adapters/storage/postgres/exchange_repository.go, as functions on its tables.

    Funds of a user in an asset sit in three buckets; every movement leaves an entry in the balance journal.
    A function answers the tables after a committed call, or the error that rolls its transaction back.
 */
module Ledger {
  import opened Orders
  import opened Sums
  import Decimal

  datatype Account = Account(user: string, asset: string)

  datatype Balance = Balance(available: int, locked: int, pending: int)

  datatype EntryKind =
    | DepositPending
    | DepositSettled
    | WithdrawalRequested
    | WithdrawalCompleted
    | WithdrawalCanceled
    | Reserve
    | Release
    | DebitLockedFunds
    | SettlementReceive

  /** A row of the balance journal; `id` is empty for the ids the repository generates itself. */
  datatype Entry = Entry(id: string, kind: EntryKind, account: Account, amount: int)

  datatype Reservation = Reservation(orderId: string, consumed: int, released: int, remaining: int)

  datatype WithdrawalStatus = Requested | Completed | CanceledByUser

  datatype Withdrawal = Withdrawal(account: Account, amount: int, status: WithdrawalStatus)

  datatype Tables = Tables(
    balances: map<Account, Balance>,
    reservations: map<string, Reservation>,
    withdrawals: map<string, Withdrawal>,
    journal: seq<Entry>)

  datatype LedgerError =
    | InvalidAmount
    | InsufficientBalance
    | RecordNotFound
    | InvalidSettlement
    | NotRequested
    | DuplicateRecord
    | IncompleteReservation
    | UserMismatch
    | NotCancelable

  datatype Result<+T> = Ok(value: T) | Err(error: LedgerError)
  {
    predicate IsFailure() {
      Err?
    }

    function PropagateFailure<U>(): Result<U>
      requires Err?
    {
      Err(error)
    }

    function Extract(): T
      requires Ok?
    {
      value
    }
  }

  const NO_FUNDS := Balance(0, 0, 0)

  function BalanceOf(t: Tables, k: Account): Balance {
    if k in t.balances then t.balances[k] else NO_FUNDS
  }

  /** Saves a balance row together with its journal entry. */
  function Save(t: Tables, k: Account, b: Balance, id: string, kind: EntryKind, amount: int): Tables {
    t.(balances := t.balances[k := b], journal := t.journal + [Entry(id, kind, k, amount)])
  }

  // ---- Deposits and withdrawals ----

  function MarkDepositPending(t: Tables, k: Account, amount: int, id: string): Result<Tables> {
    if amount <= 0 then Err(InvalidAmount)
    else
      var b := BalanceOf(t, k);
      Ok(Save(t, k, b.(pending := b.pending + amount), id, DepositPending, amount))
  }

  function SettleDeposit(t: Tables, k: Account, amount: int, id: string): Result<Tables> {
    if amount <= 0 then Err(InvalidAmount)
    else if k !in t.balances then Err(RecordNotFound)
    else if t.balances[k].pending < amount then Err(InsufficientBalance)
    else
      var b := t.balances[k];
      Ok(Save(t, k, b.(pending := Decimal.SubFloorZero(b.pending, amount), available := b.available + amount), id,
              DepositSettled, amount))
  }

  function RequestWithdrawal(t: Tables, wid: string, k: Account, amount: int): Result<Tables> {
    if amount <= 0 then Err(InvalidAmount)
    else if k !in t.balances || t.balances[k].available < amount then Err(InsufficientBalance)
    else if wid in t.withdrawals then Err(DuplicateRecord)
    else
      var b := t.balances[k];
      var rest := b.(available := Decimal.SubFloorZero(b.available, amount), pending := b.pending + amount);
      var saved := Save(t, k, rest, "", WithdrawalRequested, amount);
      Ok(saved.(withdrawals := t.withdrawals[wid := Withdrawal(k, amount, Requested)]))
  }

  function FinalizeWithdrawal(t: Tables, wid: string, cancel: bool): Result<Tables> {
    if wid !in t.withdrawals then Err(RecordNotFound)
    else
      var w := t.withdrawals[wid];
      if w.status != Requested then Err(NotRequested)
      else if w.account !in t.balances then Err(RecordNotFound)
      else if t.balances[w.account].pending < w.amount then Err(InsufficientBalance)
      else
        var b := t.balances[w.account];
        var rest := b.(pending := Decimal.SubFloorZero(b.pending, w.amount),
                       available := if cancel then b.available + w.amount else b.available);
        var saved := Save(t, w.account, rest, "", if cancel then WithdrawalCanceled else WithdrawalCompleted, w.amount);
        Ok(saved.(withdrawals := t.withdrawals[wid := w.(status := if cancel then CanceledByUser else Completed)]))
  }

  // ---- Order funds ----

  function ReserveAsset(o: Order): string {
    if o.side.Buy? then o.quoteAsset else o.baseAsset
  }

  /** `orderReserveAssetAmount`: what an order of this size locks. */
  function ReserveAmount(o: Order): int {
    if o.side.Buy? then Decimal.Mul(o.price, o.remaining) else o.remaining
  }

  function ReservationId(o: Order): string {
    if o.reservationId != "" then o.reservationId else if o.id != "" then "res_" + o.id else ""
  }

  function CreateReservation(t: Tables, o: Order, amount: int): Result<Tables> {
    if ReservationId(o) == "" || o.userId == "" || o.market == "" || ReserveAsset(o) == "" || o.id == ""
    then Err(IncompleteReservation)
    else if ReservationId(o) in t.reservations then Err(DuplicateRecord)
    else Ok(t.(reservations := t.reservations[ReservationId(o) := Reservation(o.id, 0, 0, amount)]))
  }

  function ReserveOrderFunds(t: Tables, o: Order): Result<Tables> {
    var k, amount := Account(o.userId, ReserveAsset(o)), ReserveAmount(o);
    if amount <= 0 then Ok(t)
    else if k !in t.balances || t.balances[k].available < amount then Err(InsufficientBalance)
    else
      var b := t.balances[k];
      var saved := Save(t, k, b.(available := Decimal.SubFloorZero(b.available, amount), locked := b.locked + amount),
                        "", Reserve, amount);
      CreateReservation(saved, o, amount)
  }

  /** `applyReservationDelta`: an unknown or empty reservation id is no error. */
  function ChangeReservation(t: Tables, id: string, amount: int, consume: bool): Result<Tables> {
    if id == "" || amount <= 0 || id !in t.reservations then Ok(t)
    else
      var r := t.reservations[id];
      if r.remaining < amount then Err(InsufficientBalance)
      else
        var used := if consume then r.(consumed := r.consumed + amount) else r.(released := r.released + amount);
        Ok(t.(reservations := t.reservations[id := used.(remaining := Decimal.SubFloorZero(r.remaining, amount))]))
  }

  function DebitLocked(t: Tables, k: Account, amount: int, kind: EntryKind): Result<Tables> {
    if k !in t.balances then Err(RecordNotFound)
    else if t.balances[k].locked < amount then Err(InsufficientBalance)
    else
      var b := t.balances[k];
      Ok(Save(t, k, b.(locked := Decimal.SubFloorZero(b.locked, amount)), "", kind, amount))
  }

  function AddAvailable(t: Tables, k: Account, amount: int, kind: EntryKind): Tables {
    var b := BalanceOf(t, k);
    Save(t, k, b.(available := b.available + amount), "", kind, amount)
  }

  /** What a release may take: no more than the reservation still holds, if it holds anything, and no more than is
      locked. */
  function ClampedRelease(t: Tables, k: Account, id: string, requested: int): int {
    var amount :=
      if id != "" && id in t.reservations && 0 < t.reservations[id].remaining < requested
      then t.reservations[id].remaining
      else requested;
    if k !in t.balances then 0 else Decimal.Min(t.balances[k].locked, amount)
  }

  function ReleaseOrderFunds(t: Tables, o: Order): Result<Tables> {
    var k, requested := Account(o.userId, ReserveAsset(o)), ReserveAmount(o);
    if requested <= 0 then Ok(t)
    else
      var amount := ClampedRelease(t, k, ReservationId(o), requested);
      if amount <= 0 then Ok(t)
      else
        var debited :- DebitLocked(t, k, amount, Release);
        ChangeReservation(AddAvailable(debited, k, amount, Release), ReservationId(o), amount, false)
  }

  // ---- Settlement ----

  datatype Plan = Plan(buyer: Order, seller: Order, lockedQuote: int, release: int)

  /** `settlementForTrade`. */
  function SettlementForTrade(x: Trade, maker: Order, taker: Order): Result<Plan> {
    var buyer := if x.takerSide.Buy? then taker else maker;
    var seller := if x.takerSide.Buy? then maker else taker;
    var lockedQuote := Decimal.Mul(x.quantity, buyer.price);
    if buyer.id == "" || seller.id == "" then Err(InvalidSettlement)
    else if x.quantity <= 0 || x.quoteQuantity <= 0 || buyer.price <= 0 then Err(InvalidSettlement)
    else if lockedQuote <= 0 || x.quoteQuantity > lockedQuote then Err(InvalidSettlement)
    else Ok(Plan(buyer, seller, lockedQuote, Decimal.SubFloorZero(lockedQuote, x.quoteQuantity)))
  }

  /** The buyer's half: the locked quote leaves, what it exceeds the price by returns, the base arrives. */
  function SettleBuyer(t: Tables, x: Trade, p: Plan): Result<Tables> {
    var quote, base := Account(p.buyer.userId, x.quoteAsset), Account(p.buyer.userId, x.baseAsset);
    var t1 :- DebitLocked(t, quote, p.lockedQuote, DebitLockedFunds);
    var t2 :- ChangeReservation(t1, ReservationId(p.buyer), x.quoteQuantity, true);
    var t3 :- if p.release > 0
              then ChangeReservation(AddAvailable(t2, quote, p.release, Release), ReservationId(p.buyer), p.release,
                                     false)
              else Ok(t2);
    Ok(AddAvailable(t3, base, x.quantity, SettlementReceive))
  }

  /** The seller's half: the locked base leaves, the quote arrives. */
  function SettleSeller(t: Tables, x: Trade, p: Plan): Result<Tables> {
    var quote, base := Account(p.seller.userId, x.quoteAsset), Account(p.seller.userId, x.baseAsset);
    var t1 :- DebitLocked(t, base, x.quantity, DebitLockedFunds);
    var t2 :- ChangeReservation(t1, ReservationId(p.seller), x.quantity, true);
    Ok(AddAvailable(t2, quote, x.quoteQuantity, SettlementReceive))
  }

  function SettleTrade(t: Tables, x: Trade, maker: Order, taker: Order): Result<Tables> {
    var p :- SettlementForTrade(x, maker, taker);
    var bought :- SettleBuyer(t, x, p);
    SettleSeller(bought, x, p)
  }

  function SettleTrades(t: Tables, orders: map<string, Order>, trades: seq<Trade>): Result<Tables>
    decreases |trades|
  {
    if trades == [] then Ok(t)
    else if trades[0].makerOrderId !in orders || trades[0].takerOrderId !in orders then Err(RecordNotFound)
    else
      var next :- SettleTrade(t, trades[0], orders[trades[0].makerOrderId], orders[trades[0].takerOrderId]);
      SettleTrades(next, orders, trades[1..])
  }
}
