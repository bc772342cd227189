/** Money conservation: what users hold in an asset is what was deposited minus what was withdrawn. */
module Conservation {
  import opened Orders
  import opened Sums
  import opened Ledger
  import Decimal

  function Worth(b: Balance): int {
    b.available + b.locked + b.pending
  }

  /** All funds of all users in one asset. */
  ghost function Total(balances: map<Account, Balance>, asset: string): int {
    Sum(map k | k in balances && k.asset == asset :: Worth(balances[k]))
  }

  /** What an entry brings into the exchange, or takes out of it. */
  function Flow(e: Entry, asset: string): int {
    if e.account.asset != asset then 0
    else if e.kind.DepositPending? then e.amount
    else if e.kind.WithdrawalCompleted? then -e.amount
    else 0
  }

  /** Deposits marked pending minus withdrawals completed, by the journal. */
  function NetInflow(journal: seq<Entry>, asset: string): int {
    if journal == [] then 0 else NetInflow(journal[..|journal| - 1], asset) + Flow(journal[|journal| - 1], asset)
  }

  /** What the balances hold beyond what the journal accounts for. */
  ghost function Excess(t: Tables, asset: string): int {
    Total(t.balances, asset) - NetInflow(t.journal, asset)
  }

  ghost predicate NonNegative(t: Tables) {
    forall k :: k in t.balances ==> Funded(t.balances[k])
  }

  predicate Funded(b: Balance) {
    b.available >= 0 && b.locked >= 0 && b.pending >= 0
  }

  lemma BalanceFunded(t: Tables, k: Account)
    requires NonNegative(t)
    ensures Funded(BalanceOf(t, k))
  {
  }

  /** Every open withdrawal is for a positive amount. */
  ghost predicate WithdrawalsPositive(t: Tables) {
    forall w :: w in t.withdrawals ==> t.withdrawals[w].amount > 0
  }

  ghost predicate Conserved(t: Tables) {
    && (forall asset :: Excess(t, asset) == 0)
    && NonNegative(t) && WithdrawalsPositive(t)
  }

  lemma TotalPut(balances: map<Account, Balance>, k: Account, b: Balance, asset: string)
    ensures Total(balances[k := b], asset) ==
            Total(balances, asset) +
            if k.asset == asset then Worth(b) - Worth(if k in balances then balances[k] else NO_FUNDS) else 0
  {
    var m := map x | x in balances && x.asset == asset :: Worth(balances[x]);
    var n := map x | x in balances[k := b] && x.asset == asset :: Worth(balances[k := b][x]);
    if k.asset == asset {
      assert n == m[k := Worth(b)];
      SumUpdate(m, k, Worth(b));
    } else {
      assert n == m;
    }
  }

  /** A saved row moves the excess by what it adds to the balance and its entry does not explain. */
  lemma SaveExcess(t: Tables, k: Account, b: Balance, id: string, kind: EntryKind, amount: int, asset: string)
    ensures var e := Entry(id, kind, k, amount);
            Excess(Save(t, k, b, id, kind, amount), asset) == Excess(t, asset) +
              (if k.asset == asset then Worth(b) - Worth(BalanceOf(t, k)) else 0) - Flow(e, asset)
  {
    var e := Entry(id, kind, k, amount);
    TotalPut(t.balances, k, b, asset);
    assert (t.journal + [e])[..|t.journal + [e]| - 1] == t.journal;
  }

  lemma SaveFunded(t: Tables, k: Account, b: Balance, id: string, kind: EntryKind, amount: int)
    requires NonNegative(t) && Funded(b)
    ensures NonNegative(Save(t, k, b, id, kind, amount))
  {
  }

  /** Saving a row whose worth changes by what its entry brings in conserves. */
  lemma SaveConserves(t: Tables, k: Account, b: Balance, id: string, kind: EntryKind, amount: int, asset: string)
    requires NonNegative(t) && Funded(b)
    requires Worth(b) - Worth(BalanceOf(t, k)) == Flow(Entry(id, kind, k, amount), k.asset)
    ensures var n := Save(t, k, b, id, kind, amount); NonNegative(n) && Excess(n, asset) == Excess(t, asset)
  {
    SaveExcess(t, k, b, id, kind, amount, asset);
    SaveFunded(t, k, b, id, kind, amount);
  }

  lemma DebitExcess(t: Tables, k: Account, amount: int, kind: EntryKind, asset: string)
    requires DebitLocked(t, k, amount, kind).Ok? && NonNegative(t) && amount >= 0
    requires !kind.DepositPending? && !kind.WithdrawalCompleted?
    ensures var n := DebitLocked(t, k, amount, kind).value;
            NonNegative(n) && Excess(n, asset) == Excess(t, asset) - if k.asset == asset then amount else 0
  {
    SaveExcess(t, k, t.balances[k].(locked := t.balances[k].locked - amount), "", kind, amount, asset);
  }

  function CreditedBalance(b: Balance, amount: int): Balance {
    b.(available := b.available + amount)
  }

  lemma CreditIsSaved(t: Tables, k: Account, amount: int, kind: EntryKind)
    ensures AddAvailable(t, k, amount, kind) == Save(t, k, CreditedBalance(BalanceOf(t, k), amount), "", kind, amount)
  {
  }

  lemma CreditExcess(t: Tables, k: Account, amount: int, kind: EntryKind, asset: string)
    requires NonNegative(t) && amount >= 0
    requires !kind.DepositPending? && !kind.WithdrawalCompleted?
    ensures var n := AddAvailable(t, k, amount, kind);
            NonNegative(n) && Excess(n, asset) == Excess(t, asset) + if k.asset == asset then amount else 0
  {
    BalanceFunded(t, k);
    CreditIsSaved(t, k, amount, kind);
    SaveExcess(t, k, CreditedBalance(BalanceOf(t, k), amount), "", kind, amount, asset);
    SaveFunded(t, k, CreditedBalance(BalanceOf(t, k), amount), "", kind, amount);
  }

  /** Reservations hold no funds. */
  lemma ReservationExcess(t: Tables, id: string, amount: int, consume: bool, asset: string)
    requires ChangeReservation(t, id, amount, consume).Ok?
    ensures var n := ChangeReservation(t, id, amount, consume).value;
            && n.balances == t.balances && n.journal == t.journal && n.withdrawals == t.withdrawals
            && Excess(n, asset) == Excess(t, asset)
  {
  }

  lemma SettleBuyerExcess(t: Tables, x: Trade, p: Plan, asset: string)
    requires SettleBuyer(t, x, p).Ok? && NonNegative(t) && x.quantity > 0 && p.lockedQuote >= x.quoteQuantity > 0
    requires p.release == p.lockedQuote - x.quoteQuantity
    ensures var n := SettleBuyer(t, x, p).value;
            && NonNegative(n) && n.withdrawals == t.withdrawals
            && Excess(n, asset) == Excess(t, asset)
                 - (if x.quoteAsset == asset then x.quoteQuantity else 0)
                 + (if x.baseAsset == asset then x.quantity else 0)
  {
    var quote, base := Account(p.buyer.userId, x.quoteAsset), Account(p.buyer.userId, x.baseAsset);
    DebitExcess(t, quote, p.lockedQuote, DebitLockedFunds, asset);
    var t1 := DebitLocked(t, quote, p.lockedQuote, DebitLockedFunds).value;
    ReservationExcess(t1, ReservationId(p.buyer), x.quoteQuantity, true, asset);
    var t2 := ChangeReservation(t1, ReservationId(p.buyer), x.quoteQuantity, true).value;
    var t3 := t2;
    if p.release > 0 {
      CreditExcess(t2, quote, p.release, Release, asset);
      ReservationExcess(AddAvailable(t2, quote, p.release, Release), ReservationId(p.buyer), p.release, false, asset);
      t3 := ChangeReservation(AddAvailable(t2, quote, p.release, Release), ReservationId(p.buyer), p.release,
                              false).value;
    }
    CreditExcess(t3, base, x.quantity, SettlementReceive, asset);
  }

  lemma SettleSellerExcess(t: Tables, x: Trade, p: Plan, asset: string)
    requires SettleSeller(t, x, p).Ok? && NonNegative(t) && x.quantity > 0 && x.quoteQuantity > 0
    ensures var n := SettleSeller(t, x, p).value;
            && NonNegative(n) && n.withdrawals == t.withdrawals
            && Excess(n, asset) == Excess(t, asset)
                 + (if x.quoteAsset == asset then x.quoteQuantity else 0)
                 - (if x.baseAsset == asset then x.quantity else 0)
  {
    var quote, base := Account(p.seller.userId, x.quoteAsset), Account(p.seller.userId, x.baseAsset);
    DebitExcess(t, base, x.quantity, DebitLockedFunds, asset);
    var t1 := DebitLocked(t, base, x.quantity, DebitLockedFunds).value;
    ReservationExcess(t1, ReservationId(p.seller), x.quantity, true, asset);
    var t2 := ChangeReservation(t1, ReservationId(p.seller), x.quantity, true).value;
    CreditExcess(t2, quote, x.quoteQuantity, SettlementReceive, asset);
  }

  /** A settled trade neither makes nor destroys money, in either asset. */
  lemma SettleTradeConserves(t: Tables, x: Trade, maker: Order, taker: Order, asset: string)
    requires SettleTrade(t, x, maker, taker).Ok? && NonNegative(t)
    ensures var n := SettleTrade(t, x, maker, taker).value;
            NonNegative(n) && n.withdrawals == t.withdrawals && Excess(n, asset) == Excess(t, asset)
  {
    var p := SettlementForTrade(x, maker, taker).value;
    SettleBuyerExcess(t, x, p, asset);
    SettleSellerExcess(SettleBuyer(t, x, p).value, x, p, asset);
  }

  lemma {:induction false} SettleTradesConserve(t: Tables, orders: map<string, Order>, trades: seq<Trade>,
                                                asset: string)
    requires SettleTrades(t, orders, trades).Ok? && NonNegative(t)
    ensures var n := SettleTrades(t, orders, trades).value;
            NonNegative(n) && n.withdrawals == t.withdrawals && Excess(n, asset) == Excess(t, asset)
    decreases |trades|
  {
    if trades != [] {
      var maker, taker := orders[trades[0].makerOrderId], orders[trades[0].takerOrderId];
      SettleTradeConserves(t, trades[0], maker, taker, asset);
      SettleTradesConserve(SettleTrade(t, trades[0], maker, taker).value, orders, trades[1..], asset);
    }
  }

  lemma ReserveConserves(t: Tables, o: Order, asset: string)
    requires ReserveOrderFunds(t, o).Ok? && NonNegative(t)
    ensures var n := ReserveOrderFunds(t, o).value;
            NonNegative(n) && n.withdrawals == t.withdrawals && Excess(n, asset) == Excess(t, asset)
  {
    var k, amount := Account(o.userId, ReserveAsset(o)), ReserveAmount(o);
    if amount > 0 {
      var b := t.balances[k];
      SaveExcess(t, k, b.(available := b.available - amount, locked := b.locked + amount), "", Reserve, amount, asset);
    }
  }

  lemma ReleaseConserves(t: Tables, o: Order, asset: string)
    requires ReleaseOrderFunds(t, o).Ok? && NonNegative(t)
    ensures var n := ReleaseOrderFunds(t, o).value;
            NonNegative(n) && n.withdrawals == t.withdrawals && Excess(n, asset) == Excess(t, asset)
  {
    var k, requested := Account(o.userId, ReserveAsset(o)), ReserveAmount(o);
    if requested > 0 {
      var amount := ClampedRelease(t, k, ReservationId(o), requested);
      if amount > 0 {
        var debited := DebitLocked(t, k, amount, Release).value;
        DebitExcess(t, k, amount, Release, asset);
        CreditExcess(debited, k, amount, Release, asset);
        ReservationExcess(AddAvailable(debited, k, amount, Release), ReservationId(o), amount, false, asset);
      }
    }
  }

  // ---- Runs ----

  /** A committed or rolled-back transaction of the ledger. */
  datatype Step =
    | Deposit(account: Account, amount: int, id: string)
    | Settle(account: Account, amount: int, id: string)
    | Request(wid: string, account: Account, amount: int)
    | Finalize(wid: string, cancel: bool)
    | ReserveFor(order: Order)
    | ReleaseFor(order: Order)
    | Trades(orders: map<string, Order>, trades: seq<Trade>)

  function Attempt(t: Tables, s: Step): Result<Tables> {
    match s
    case Deposit(k, amount, id) => MarkDepositPending(t, k, amount, id)
    case Settle(k, amount, id) => SettleDeposit(t, k, amount, id)
    case Request(wid, k, amount) => RequestWithdrawal(t, wid, k, amount)
    case Finalize(wid, cancel) => FinalizeWithdrawal(t, wid, cancel)
    case ReserveFor(o) => ReserveOrderFunds(t, o)
    case ReleaseFor(o) => ReleaseOrderFunds(t, o)
    case Trades(orders, trades) => SettleTrades(t, orders, trades)
  }

  /** An error rolls the transaction back. */
  function Next(t: Tables, s: Step): Tables {
    match Attempt(t, s) case Ok(n) => n case Err(_) => t
  }

  function Run(t: Tables, steps: seq<Step>): Tables
    decreases |steps|
  {
    if steps == [] then t else Run(Next(t, steps[0]), steps[1..])
  }

  /** The balances and the journal alone decide the excess. */
  lemma ExcessFrame(t: Tables, n: Tables, asset: string)
    requires n.balances == t.balances && n.journal == t.journal
    ensures Excess(n, asset) == Excess(t, asset) && (NonNegative(t) ==> NonNegative(n))
  {
  }

  lemma DepositConserves(t: Tables, k: Account, amount: int, id: string, asset: string)
    requires NonNegative(t) && MarkDepositPending(t, k, amount, id).Ok?
    ensures var n := MarkDepositPending(t, k, amount, id).value; NonNegative(n) && Excess(n, asset) == Excess(t, asset)
  {
    var was := BalanceOf(t, k);
    BalanceFunded(t, k);
    var b := was.(pending := was.pending + amount);
    assert MarkDepositPending(t, k, amount, id).value == Save(t, k, b, id, DepositPending, amount);
    SaveConserves(t, k, b, id, DepositPending, amount, asset);
  }

  lemma SettleDepositConserves(t: Tables, k: Account, amount: int, id: string, asset: string)
    requires NonNegative(t) && SettleDeposit(t, k, amount, id).Ok?
    ensures var n := SettleDeposit(t, k, amount, id).value; NonNegative(n) && Excess(n, asset) == Excess(t, asset)
  {
    var b := t.balances[k].(pending := t.balances[k].pending - amount, available := t.balances[k].available + amount);
    assert SettleDeposit(t, k, amount, id).value == Save(t, k, b, id, DepositSettled, amount);
    SaveConserves(t, k, b, id, DepositSettled, amount, asset);
  }

  lemma RequestConserves(t: Tables, wid: string, k: Account, amount: int, asset: string)
    requires NonNegative(t) && WithdrawalsPositive(t) && RequestWithdrawal(t, wid, k, amount).Ok?
    ensures var n := RequestWithdrawal(t, wid, k, amount).value;
            NonNegative(n) && WithdrawalsPositive(n) && Excess(n, asset) == Excess(t, asset)
  {
    var b := t.balances[k].(available := t.balances[k].available - amount, pending := t.balances[k].pending + amount);
    SaveConserves(t, k, b, "", WithdrawalRequested, amount, asset);
    ExcessFrame(Save(t, k, b, "", WithdrawalRequested, amount), RequestWithdrawal(t, wid, k, amount).value, asset);
  }

  lemma FinalizeConserves(t: Tables, wid: string, cancel: bool, asset: string)
    requires NonNegative(t) && WithdrawalsPositive(t) && FinalizeWithdrawal(t, wid, cancel).Ok?
    ensures var n := FinalizeWithdrawal(t, wid, cancel).value;
            NonNegative(n) && WithdrawalsPositive(n) && Excess(n, asset) == Excess(t, asset)
  {
    var w := t.withdrawals[wid];
    var b := t.balances[w.account];
    var available := if cancel then b.available + w.amount else b.available;
    var rest := b.(pending := b.pending - w.amount, available := available);
    var kind := if cancel then WithdrawalCanceled else WithdrawalCompleted;
    SaveConserves(t, w.account, rest, "", kind, w.amount, asset);
    ExcessFrame(Save(t, w.account, rest, "", kind, w.amount), FinalizeWithdrawal(t, wid, cancel).value, asset);
  }

  lemma StepConserves(t: Tables, s: Step, asset: string)
    requires NonNegative(t) && WithdrawalsPositive(t)
    ensures NonNegative(Next(t, s)) && WithdrawalsPositive(Next(t, s)) && Excess(Next(t, s), asset) == Excess(t, asset)
  {
    if Attempt(t, s).Ok? {
      match s
      case ReserveFor(o) => ReserveConserves(t, o, asset);
      case ReleaseFor(o) => ReleaseConserves(t, o, asset);
      case Trades(orders, trades) => SettleTradesConserve(t, orders, trades, asset);
      case Deposit(k, amount, id) => DepositConserves(t, k, amount, id, asset);
      case Settle(k, amount, id) => SettleDepositConserves(t, k, amount, id, asset);
      case Request(wid, k, amount) => RequestConserves(t, wid, k, amount, asset);
      case Finalize(wid, cancel) => FinalizeConserves(t, wid, cancel, asset);
    }
  }

  /** Money conservation over every run: for each asset the users' funds equal the deposits marked pending minus
      the withdrawals completed, and no bucket is ever negative. */
  lemma {:induction false} RunConserves(t: Tables, steps: seq<Step>)
    requires Conserved(t)
    ensures Conserved(Run(t, steps))
    decreases |steps|
  {
    if steps != [] {
      forall asset ensures Excess(Next(t, steps[0]), asset) == 0 {
        StepConserves(t, steps[0], asset);
        assert Excess(t, asset) == 0;
      }
      StepConserves(t, steps[0], "");
      RunConserves(Next(t, steps[0]), steps[1..]);
    }
  }

  lemma EmptyIsConserved()
    ensures Conserved(Tables(map[], map[], map[], []))
  {
    var none: map<Account, Balance> := map[];
    forall asset ensures Total(none, asset) == 0 {
      assert (map k | k in none && k.asset == asset :: Worth(none[k])) == map[];
    }
  }
}
