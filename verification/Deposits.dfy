/** Gateway deposits (`markDepositPendingOnce` and `settleGatewayDepositOnce`, internal/app/orders/service.go): each
    callback leaves its balance entry under an id made from its reference, and an id already there makes it a
    duplicate. */
module Deposits {
  import opened Orders
  import opened Sums
  import opened Ledger
  import opened Conservation
  import Decimal

  /** The part of a callback that names the deposit. */
  datatype Callback = Callback(eventId: string, paymentId: string, trackId: string, orderId: string, txHash: string)

  /** `gatewayDepositReference`: the first identifier that is present. */
  function Reference(c: Callback): string {
    if c.eventId != "" then c.eventId
    else if c.paymentId != "" then c.paymentId
    else if c.trackId != "" then c.trackId
    else if c.orderId != "" then c.orderId
    else c.txHash
  }

  function Identifiers(c: Callback): seq<string> {
    [c.eventId, c.paymentId, c.trackId, c.orderId, c.txHash]
  }

  /** The first identifier present wins, in the order event, payment, track, order, transaction; the others do not
      matter. */
  lemma ReferenceIsFirst(c: Callback, k: nat)
    requires k < 5 && Identifiers(c)[k] != "" && forall i :: 0 <= i < k ==> Identifiers(c)[i] == ""
    ensures Reference(c) == Identifiers(c)[k]
    ensures forall d :: Identifiers(d)[..k + 1] == Identifiers(c)[..k + 1] ==> Reference(d) == Reference(c)
  {
    FirstOf(c, k);
    forall d | Identifiers(d)[..k + 1] == Identifiers(c)[..k + 1] ensures Reference(d) == Reference(c) {
      forall i | 0 <= i <= k ensures Identifiers(d)[i] == Identifiers(c)[i] {
        assert Identifiers(d)[..k + 1][i] == Identifiers(c)[..k + 1][i];
      }
      FirstOf(d, k);
    }
  }

  lemma FirstOf(c: Callback, k: nat)
    requires k < 5 && Identifiers(c)[k] != "" && forall i :: 0 <= i < k ==> Identifiers(c)[i] == ""
    ensures Reference(c) == Identifiers(c)[k]
  {
    assert k > 0 ==> Identifiers(c)[0] == "";
    assert k > 1 ==> Identifiers(c)[1] == "";
    assert k > 2 ==> Identifiers(c)[2] == "";
    assert k > 3 ==> Identifiers(c)[3] == "";
  }

  /** The account and the amount a reference stands for. */
  datatype Terms = Terms(account: Account, amount: int)

  function PendingId(ref: string): string {
    "gwdep_p_" + ref
  }

  function SettleId(ref: string): string {
    "gwdep_s_" + ref
  }

  lemma IdsDiffer(a: string, b: string)
    ensures PendingId(a) != SettleId(b) && PendingId(a) != "" && SettleId(b) != ""
    ensures PendingId(a) == PendingId(b) <==> a == b
    ensures SettleId(a) == SettleId(b) <==> a == b
  {
    assert PendingId(a)[6] == 'p' && SettleId(b)[6] == 's';
    assert PendingId(a)[8..] == a && PendingId(b)[8..] == b;
    assert SettleId(a)[8..] == a && SettleId(b)[8..] == b;
  }

  predicate Exists(journal: seq<Entry>, id: string) {
    id != "" && exists e :: e in journal && e.id == id
  }

  function PendingOnce(t: Tables, x: Terms, ref: string): Result<Tables> {
    if Exists(t.journal, PendingId(ref)) then Ok(t)
    else MarkDepositPending(t, x.account, x.amount, PendingId(ref))
  }

  function SettleOnce(t: Tables, x: Terms, ref: string): Result<Tables> {
    if Exists(t.journal, SettleId(ref)) then Ok(t)
    else
      var marked :- PendingOnce(t, x, ref);
      SettleDeposit(marked, x.account, x.amount, SettleId(ref))
  }

  // ---- What the pending bucket holds ----

  predicate IsOpen(journal: seq<Entry>, ref: string) {
    Exists(journal, PendingId(ref)) && !Exists(journal, SettleId(ref))
  }

  predicate IsSettled(journal: seq<Entry>, ref: string) {
    Exists(journal, SettleId(ref))
  }

  /** What these references stand for on an account. */
  ghost function Amounts(terms: map<string, Terms>, refs: set<string>, k: Account): int {
    Sum(map r | r in terms && terms[r].account == k :: if r in refs then terms[r].amount else 0)
  }

  ghost function OpenRefs(terms: map<string, Terms>, journal: seq<Entry>): set<string> {
    set r | r in terms && IsOpen(journal, r)
  }

  ghost function SettledRefs(terms: map<string, Terms>, journal: seq<Entry>): set<string> {
    set r | r in terms && IsSettled(journal, r)
  }

  /** Deposits of an account announced and not yet settled. */
  ghost function Outstanding(terms: map<string, Terms>, journal: seq<Entry>, k: Account): int {
    Amounts(terms, OpenRefs(terms, journal), k)
  }

  /** Deposits credited to an account. */
  ghost function Credited(terms: map<string, Terms>, journal: seq<Entry>, k: Account): int {
    Amounts(terms, SettledRefs(terms, journal), k)
  }

  /** Withdrawals of an account requested and not yet decided. */
  ghost function Undecided(withdrawals: map<string, Withdrawal>, k: Account): int {
    Sum(map w | w in withdrawals && withdrawals[w].account == k :: Held(withdrawals[w]))
  }

  function Held(w: Withdrawal): int {
    if w.status.Requested? then w.amount else 0
  }

  ghost predicate TermsOk(terms: map<string, Terms>) {
    forall r :: r in terms ==> terms[r].amount > 0
  }

  /** What was announced by hand for an account and not settled by hand. */
  function HandOf(hand: map<Account, int>, k: Account): int {
    if k in hand then hand[k] else 0
  }

  /** The pending bucket of every account is what is outstanding plus what is undecided plus what came by hand, and no
      deposit was settled unannounced. */
  ghost predicate Explained(terms: map<string, Terms>, t: Tables, hand: map<Account, int>) {
    && (forall k :: BalanceOf(t, k).pending == Pending(terms, t, k) + HandOf(hand, k))
    && (forall r :: r in terms && IsSettled(t.journal, r) ==> Exists(t.journal, PendingId(r)))
    && WithdrawalsPositive(t)
  }

  ghost function Pending(terms: map<string, Terms>, t: Tables, k: Account): int {
    Outstanding(terms, t.journal, k) + Undecided(t.withdrawals, k)
  }

  /** Nobody settled by hand more than was announced by hand. */
  ghost predicate HandOk(hand: map<Account, int>) {
    forall k :: k in hand ==> hand[k] >= 0
  }

  lemma ExistsMore(journal: seq<Entry>, e: Entry, id: string)
    ensures Exists(journal + [e], id) <==> Exists(journal, id) || (id != "" && e.id == id)
  {
    assert forall x :: x in journal + [e] <==> x in journal || x == e;
  }

  // ---- One callback ----

  /** Only the deposit `ref` may change its state. */
  ghost predicate OthersStand(terms: map<string, Terms>, before: seq<Entry>, after: seq<Entry>, ref: string) {
    forall r :: r in terms && r != ref ==>
      && (Exists(before, PendingId(r)) <==> Exists(after, PendingId(r)))
      && (Exists(before, SettleId(r)) <==> Exists(after, SettleId(r)))
  }

  lemma AmountsMove(terms: map<string, Terms>, before: set<string>, after: set<string>, ref: string, k: Account)
    requires ref in terms && forall r :: r in terms && r != ref ==> (r in before <==> r in after)
    ensures Amounts(terms, after, k) == Amounts(terms, before, k) +
              if terms[ref].account != k || (ref in before <==> ref in after) then 0
              else if ref in after then terms[ref].amount
              else -terms[ref].amount
  {
    var m := map r | r in terms && terms[r].account == k :: if r in before then terms[r].amount else 0;
    var n := map r | r in terms && terms[r].account == k :: if r in after then terms[r].amount else 0;
    if terms[ref].account == k {
      assert n == m[ref := n[ref]];
      SumUpdate(m, ref, n[ref]);
    } else {
      assert n == m;
    }
  }

  /** The sums move with the deposit `ref` alone. */
  lemma DepositMoves(terms: map<string, Terms>, before: seq<Entry>, after: seq<Entry>, ref: string, k: Account)
    requires ref in terms && OthersStand(terms, before, after, ref)
    ensures var x := terms[ref]; x.account != k ==>
              && Outstanding(terms, after, k) == Outstanding(terms, before, k)
              && Credited(terms, after, k) == Credited(terms, before, k)
    ensures var x := terms[ref]; x.account == k ==>
              && Outstanding(terms, after, k) - Outstanding(terms, before, k) ==
                 Change(IsOpen(before, ref), IsOpen(after, ref)) * x.amount
              && Credited(terms, after, k) - Credited(terms, before, k) ==
                 Change(IsSettled(before, ref), IsSettled(after, ref)) * x.amount
  {
    forall r | r in terms && r != ref
      ensures (IsOpen(before, r) <==> IsOpen(after, r)) && (IsSettled(before, r) <==> IsSettled(after, r))
    {
    }
    AmountsMove(terms, OpenRefs(terms, before), OpenRefs(terms, after), ref, k);
    AmountsMove(terms, SettledRefs(terms, before), SettledRefs(terms, after), ref, k);
  }

  function Change(before: bool, after: bool): int {
    if before == after then 0 else if after then 1 else -1
  }

  /** An entry under the id of `ref` changes what exists for `ref` alone. */
  lemma MarkJournal(journal: seq<Entry>, e: Entry, ref: string)
    requires e.id == PendingId(ref)
    ensures forall r :: Exists(journal + [e], PendingId(r)) <==> Exists(journal, PendingId(r)) || r == ref
    ensures forall r :: Exists(journal + [e], SettleId(r)) <==> Exists(journal, SettleId(r))
  {
    forall r ensures (Exists(journal + [e], PendingId(r)) <==> Exists(journal, PendingId(r)) || r == ref)
                  && (Exists(journal + [e], SettleId(r)) <==> Exists(journal, SettleId(r))) {
      ExistsMore(journal, e, PendingId(r));
      ExistsMore(journal, e, SettleId(r));
      IdsDiffer(r, ref);
      IdsDiffer(ref, r);
    }
  }

  lemma MarkEffect(terms: map<string, Terms>, t: Tables, hand: map<Account, int>, ref: string)
    requires TermsOk(terms) && ref in terms && Explained(terms, t, hand) && !IsSettled(t.journal, ref)
    ensures var marked := PendingOnce(t, terms[ref], ref);
            && marked.Ok? && Explained(terms, marked.value, hand) && IsOpen(marked.value.journal, ref)
            && OthersStand(terms, t.journal, marked.value.journal, ref)
            && marked.value.withdrawals == t.withdrawals
            && forall k :: SpentAlike(t, marked.value, k)
  {
    var x := terms[ref];
    var n := PendingOnce(t, x, ref).value;
    if !Exists(t.journal, PendingId(ref)) {
      MarkJournal(t.journal, Entry(PendingId(ref), DepositPending, x.account, x.amount), ref);
      forall k ensures BalanceOf(n, k).pending == Pending(terms, n, k) + HandOf(hand, k) {
        DepositMoves(terms, t.journal, n.journal, ref, k);
      }
    }
  }

  /** Available and locked funds are the same. */
  predicate SpentAlike(t: Tables, n: Tables, k: Account) {
    BalanceOf(n, k).available == BalanceOf(t, k).available && BalanceOf(n, k).locked == BalanceOf(t, k).locked
  }

  lemma OpenIsFunded(terms: map<string, Terms>, t: Tables, hand: map<Account, int>, ref: string)
    requires TermsOk(terms) && ref in terms && Explained(terms, t, hand) && HandOk(hand) && IsOpen(t.journal, ref)
    ensures terms[ref].account in t.balances && t.balances[terms[ref].account].pending >= terms[ref].amount
  {
    var k := terms[ref].account;
    var open := OpenRefs(terms, t.journal);
    var m := map r | r in terms && terms[r].account == k :: if r in open then terms[r].amount else 0;
    SumNonNegative(m);
    assert m[ref] == terms[ref].amount;
    SumNonNegative(map w | w in t.withdrawals && t.withdrawals[w].account == k :: Held(t.withdrawals[w]));
    assert BalanceOf(t, k).pending >= terms[ref].amount > 0;
  }

  lemma SettleMarked(terms: map<string, Terms>, t: Tables, hand: map<Account, int>, ref: string)
    requires TermsOk(terms) && ref in terms && Explained(terms, t, hand) && IsOpen(t.journal, ref)
    requires SettleDeposit(t, terms[ref].account, terms[ref].amount, SettleId(ref)).Ok?
    ensures var settled := SettleDeposit(t, terms[ref].account, terms[ref].amount, SettleId(ref));
            && Explained(terms, settled.value, hand) && IsSettled(settled.value.journal, ref)
            && OthersStand(terms, t.journal, settled.value.journal, ref)
            && Exists(settled.value.journal, PendingId(ref))
            && settled.value.withdrawals == t.withdrawals
            && forall k :: BalanceOf(settled.value, k).locked == BalanceOf(t, k).locked
                 && BalanceOf(settled.value, k).available == BalanceOf(t, k).available +
                     if k == terms[ref].account then terms[ref].amount else 0
  {
    var x := terms[ref];
    var n := SettleDeposit(t, x.account, x.amount, SettleId(ref)).value;
    var e := Entry(SettleId(ref), DepositSettled, x.account, x.amount);
    forall r ensures (Exists(n.journal, SettleId(r)) <==> Exists(t.journal, SettleId(r)) || r == ref)
                  && (Exists(n.journal, PendingId(r)) <==> Exists(t.journal, PendingId(r))) {
      ExistsMore(t.journal, e, SettleId(r));
      ExistsMore(t.journal, e, PendingId(r));
      IdsDiffer(r, ref);
      IdsDiffer(ref, r);
    }
    forall k ensures BalanceOf(n, k).pending == Pending(terms, n, k) + HandOf(hand, k) {
      DepositMoves(terms, t.journal, n.journal, ref, k);
    }
  }

  // ---- Runs ----

  datatype Step = PendingCallback(ref: string) | SettledCallback(ref: string) | Other(step: Conservation.Step)

  function Attempt(terms: map<string, Terms>, t: Tables, s: Step): Result<Tables> {
    match s
    case PendingCallback(ref) => if ref in terms then PendingOnce(t, terms[ref], ref) else Err(RecordNotFound)
    case SettledCallback(ref) => if ref in terms then SettleOnce(t, terms[ref], ref) else Err(RecordNotFound)
    case Other(step) => Conservation.Attempt(t, step)
  }

  function Next(terms: map<string, Terms>, t: Tables, s: Step): Tables {
    match Attempt(terms, t, s) case Ok(n) => n case Err(_) => t
  }

  function Run(terms: map<string, Terms>, t: Tables, steps: seq<Step>): Tables
    decreases |steps|
  {
    if steps == [] then t else Run(terms, Next(terms, t, steps[0]), steps[1..])
  }

  predicate IsCallback(terms: map<string, Terms>, s: Step) {
    !s.Other? && s.ref in terms
  }

  /** Deposits announced and settled by hand move what came by hand. */
  function NextHand(terms: map<string, Terms>, t: Tables, hand: map<Account, int>, s: Step): map<Account, int> {
    if !s.Other? || Attempt(terms, t, s).Err? then hand
    else match s.step
         case Deposit(k, amount, _) => hand[k := HandOf(hand, k) + amount]
         case Settle(k, amount, _) => hand[k := HandOf(hand, k) - amount]
         case _ => hand
  }

  /** Callbacks of known references; beside them withdrawals, orders, trades, and deposits by hand under ids of their
      own. */
  predicate OwnIds(terms: map<string, Terms>, s: Step) {
    if !s.Other? then s.ref in terms
    else match s.step
         case Deposit(_, _, id) => id == ""
         case Settle(_, _, id) => id == ""
         case _ => true
  }

  /** Nobody settles more by hand than was announced by hand. */
  predicate Fair(terms: map<string, Terms>, t: Tables, hand: map<Account, int>, s: Step) {
    && OwnIds(terms, s)
    && (s.Other? && s.step.Settle? && Attempt(terms, t, s).Ok? ==> s.step.amount <= HandOf(hand, s.step.account))
  }

  predicate FairRun(terms: map<string, Terms>, t: Tables, hand: map<Account, int>, steps: seq<Step>)
    decreases |steps|
  {
    steps == [] ||
    (Fair(terms, t, hand, steps[0]) &&
     FairRun(terms, Next(terms, t, steps[0]), NextHand(terms, t, hand, steps[0]), steps[1..]))
  }

  function RunHand(terms: map<string, Terms>, t: Tables, hand: map<Account, int>, steps: seq<Step>): map<Account, int>
    decreases |steps|
  {
    if steps == [] then hand
    else RunHand(terms, Next(terms, t, steps[0]), NextHand(terms, t, hand, steps[0]), steps[1..])
  }

  /** What a callback does beside its own deposit: nothing. What it credits, `Credited` grows by. */
  ghost predicate CreditsOnce(terms: map<string, Terms>, t: Tables, n: Tables, k: Account) {
    && BalanceOf(n, k).available - Credited(terms, n.journal, k) ==
       BalanceOf(t, k).available - Credited(terms, t.journal, k)
    && BalanceOf(n, k).locked == BalanceOf(t, k).locked
  }

  /** A callback never fails, whatever came before: it credits its amount if it is the first settlement of its
      reference and nothing otherwise, and leaves nothing pending for a settled reference. */
  lemma CallbackEffect(terms: map<string, Terms>, t: Tables, hand: map<Account, int>, s: Step)
    requires TermsOk(terms) && Explained(terms, t, hand) && HandOk(hand) && IsCallback(terms, s)
    ensures Attempt(terms, t, s).Ok? && Explained(terms, Next(terms, t, s), hand)
    ensures var n := Next(terms, t, s);
            && n.withdrawals == t.withdrawals && OthersStand(terms, t.journal, n.journal, s.ref)
            && Exists(n.journal, PendingId(s.ref))
            && (IsSettled(n.journal, s.ref) <==> IsSettled(t.journal, s.ref) || s.SettledCallback?)
            && forall k :: CreditsOnce(terms, t, n, k)
  {
    var ref, n := s.ref, Next(terms, t, s);
    if !IsSettled(t.journal, ref) {
      MarkEffect(terms, t, hand, ref);
      if s.SettledCallback? {
        OpenIsFunded(terms, PendingOnce(t, terms[ref], ref).value, hand, ref);
        SettleMarked(terms, PendingOnce(t, terms[ref], ref).value, hand, ref);
      }
      forall k ensures CreditsOnce(terms, t, n, k) {
        assert SpentAlike(t, PendingOnce(t, terms[ref], ref).value, k);
        DepositMoves(terms, t.journal, n.journal, ref, k);
      }
    }
  }

  /** Everything deposits look at is as before. */
  ghost predicate DepositsUntouched(t: Tables, n: Tables) {
    && (forall k :: BalanceOf(n, k).pending == BalanceOf(t, k).pending)
    && n.withdrawals == t.withdrawals && SameIds(t.journal, n.journal)
  }

  ghost predicate SameIds(before: seq<Entry>, after: seq<Entry>) {
    forall id :: Exists(after, id) <==> Exists(before, id)
  }

  lemma SaveUntouched(t: Tables, k: Account, b: Balance, kind: EntryKind, amount: int)
    requires b.pending == BalanceOf(t, k).pending
    ensures DepositsUntouched(t, Save(t, k, b, "", kind, amount))
  {
    forall id ensures Exists(t.journal + [Entry("", kind, k, amount)], id) <==> Exists(t.journal, id) {
      ExistsMore(t.journal, Entry("", kind, k, amount), id);
    }
  }

  lemma ReserveUntouched(t: Tables, o: Order)
    requires ReserveOrderFunds(t, o).Ok?
    ensures DepositsUntouched(t, ReserveOrderFunds(t, o).value)
  {
    var k, amount := Account(o.userId, ReserveAsset(o)), ReserveAmount(o);
    if amount > 0 {
      var b := t.balances[k];
      SaveUntouched(t, k, b.(available := Decimal.SubFloorZero(b.available, amount), locked := b.locked + amount),
                    Reserve, amount);
    }
  }

  lemma DebitUntouched(t: Tables, k: Account, amount: int, kind: EntryKind)
    requires DebitLocked(t, k, amount, kind).Ok?
    ensures DepositsUntouched(t, DebitLocked(t, k, amount, kind).value)
  {
    var b := t.balances[k];
    SaveUntouched(t, k, b.(locked := Decimal.SubFloorZero(b.locked, amount)), kind, amount);
  }

  lemma CreditUntouched(t: Tables, k: Account, amount: int, kind: EntryKind)
    ensures DepositsUntouched(t, AddAvailable(t, k, amount, kind))
  {
    var b := BalanceOf(t, k);
    SaveUntouched(t, k, b.(available := b.available + amount), kind, amount);
  }

  lemma ReservationUntouched(t: Tables, id: string, amount: int, consume: bool)
    requires ChangeReservation(t, id, amount, consume).Ok?
    ensures DepositsUntouched(t, ChangeReservation(t, id, amount, consume).value)
  {
  }

  lemma ReleaseUntouched(t: Tables, o: Order)
    requires ReleaseOrderFunds(t, o).Ok?
    ensures DepositsUntouched(t, ReleaseOrderFunds(t, o).value)
  {
    var k, requested := Account(o.userId, ReserveAsset(o)), ReserveAmount(o);
    if requested > 0 {
      var amount := ClampedRelease(t, k, ReservationId(o), requested);
      if amount > 0 {
        var debited := DebitLocked(t, k, amount, Release).value;
        DebitUntouched(t, k, amount, Release);
        CreditUntouched(debited, k, amount, Release);
        ReservationUntouched(AddAvailable(debited, k, amount, Release), ReservationId(o), amount, false);
      }
    }
  }

  lemma BuyerUntouched(t: Tables, x: Trade, p: Plan)
    requires SettleBuyer(t, x, p).Ok?
    ensures DepositsUntouched(t, SettleBuyer(t, x, p).value)
  {
    var quote, base := Account(p.buyer.userId, x.quoteAsset), Account(p.buyer.userId, x.baseAsset);
    DebitUntouched(t, quote, p.lockedQuote, DebitLockedFunds);
    var t1 := DebitLocked(t, quote, p.lockedQuote, DebitLockedFunds).value;
    ReservationUntouched(t1, ReservationId(p.buyer), x.quoteQuantity, true);
    var t2 := ChangeReservation(t1, ReservationId(p.buyer), x.quoteQuantity, true).value;
    var t3 := t2;
    if p.release > 0 {
      CreditUntouched(t2, quote, p.release, Release);
      ReservationUntouched(AddAvailable(t2, quote, p.release, Release), ReservationId(p.buyer), p.release, false);
      t3 := ChangeReservation(AddAvailable(t2, quote, p.release, Release), ReservationId(p.buyer), p.release,
                              false).value;
    }
    CreditUntouched(t3, base, x.quantity, SettlementReceive);
  }

  lemma SellerUntouched(t: Tables, x: Trade, p: Plan)
    requires SettleSeller(t, x, p).Ok?
    ensures DepositsUntouched(t, SettleSeller(t, x, p).value)
  {
    var quote, base := Account(p.seller.userId, x.quoteAsset), Account(p.seller.userId, x.baseAsset);
    DebitUntouched(t, base, x.quantity, DebitLockedFunds);
    var t1 := DebitLocked(t, base, x.quantity, DebitLockedFunds).value;
    ReservationUntouched(t1, ReservationId(p.seller), x.quantity, true);
    CreditUntouched(ChangeReservation(t1, ReservationId(p.seller), x.quantity, true).value, quote, x.quoteQuantity,
                    SettlementReceive);
  }

  lemma {:induction false} TradesUntouched(t: Tables, orders: map<string, Order>, trades: seq<Trade>)
    requires SettleTrades(t, orders, trades).Ok?
    ensures DepositsUntouched(t, SettleTrades(t, orders, trades).value)
    decreases |trades|
  {
    if trades != [] {
      var maker, taker := orders[trades[0].makerOrderId], orders[trades[0].takerOrderId];
      var p := SettlementForTrade(trades[0], maker, taker).value;
      BuyerUntouched(t, trades[0], p);
      SellerUntouched(SettleBuyer(t, trades[0], p).value, trades[0], p);
      TradesUntouched(SettleTrade(t, trades[0], maker, taker).value, orders, trades[1..]);
    }
  }

  lemma SumsUntouched(terms: map<string, Terms>, before: seq<Entry>, after: seq<Entry>, k: Account)
    requires SameIds(before, after)
    ensures Outstanding(terms, after, k) == Outstanding(terms, before, k)
    ensures Credited(terms, after, k) == Credited(terms, before, k)
  {
    assert OpenRefs(terms, after) == OpenRefs(terms, before);
    assert SettledRefs(terms, after) == SettledRefs(terms, before);
  }

  lemma UntouchedExplained(terms: map<string, Terms>, t: Tables, n: Tables, hand: map<Account, int>)
    requires Explained(terms, t, hand) && DepositsUntouched(t, n)
    ensures Explained(terms, n, hand)
  {
    forall k ensures BalanceOf(n, k).pending == Pending(terms, n, k) + HandOf(hand, k) {
      SumsUntouched(terms, t.journal, n.journal, k);
    }
  }

  lemma UndecidedMoves(withdrawals: map<string, Withdrawal>, wid: string, w: Withdrawal, k: Account)
    requires wid in withdrawals ==> withdrawals[wid].account == w.account
    ensures Undecided(withdrawals[wid := w], k) == Undecided(withdrawals, k) +
              if w.account != k then 0 else Held(w) - if wid in withdrawals then Held(withdrawals[wid]) else 0
  {
    var m := map x | x in withdrawals && withdrawals[x].account == k :: Held(withdrawals[x]);
    var next := withdrawals[wid := w];
    var n := map x | x in next && next[x].account == k :: Held(next[x]);
    if w.account == k {
      assert n == m[wid := n[wid]];
      SumUpdate(m, wid, n[wid]);
    } else {
      assert n == m;
    }
  }

  lemma RequestExplained(terms: map<string, Terms>, t: Tables, wid: string, k: Account, amount: int,
                         hand: map<Account, int>)
    requires Explained(terms, t, hand) && RequestWithdrawal(t, wid, k, amount).Ok?
    ensures Explained(terms, RequestWithdrawal(t, wid, k, amount).value, hand)
    ensures SameIds(t.journal, RequestWithdrawal(t, wid, k, amount).value.journal)
  {
    var n := RequestWithdrawal(t, wid, k, amount).value;
    JournalGrows(t.journal, Entry("", WithdrawalRequested, k, amount));
    forall x ensures BalanceOf(n, x).pending == Pending(terms, n, x) + HandOf(hand, x) {
      SumsUntouched(terms, t.journal, n.journal, x);
      UndecidedMoves(t.withdrawals, wid, Withdrawal(k, amount, Requested), x);
    }
  }

  lemma JournalGrows(journal: seq<Entry>, e: Entry)
    requires e.id == ""
    ensures SameIds(journal, journal + [e])
  {
    forall id ensures Exists(journal + [e], id) <==> Exists(journal, id) {
      ExistsMore(journal, e, id);
    }
  }

  lemma FinalizeExplained(terms: map<string, Terms>, t: Tables, wid: string, cancel: bool, hand: map<Account, int>)
    requires Explained(terms, t, hand) && FinalizeWithdrawal(t, wid, cancel).Ok?
    ensures Explained(terms, FinalizeWithdrawal(t, wid, cancel).value, hand)
    ensures SameIds(t.journal, FinalizeWithdrawal(t, wid, cancel).value.journal)
  {
    var n, w := FinalizeWithdrawal(t, wid, cancel).value, t.withdrawals[wid];
    JournalGrows(t.journal, Entry("", if cancel then WithdrawalCanceled else WithdrawalCompleted, w.account, w.amount));
    forall x ensures BalanceOf(n, x).pending == Pending(terms, n, x) + HandOf(hand, x) {
      SumsUntouched(terms, t.journal, n.journal, x);
      UndecidedMoves(t.withdrawals, wid, w.(status := if cancel then CanceledByUser else Completed), x);
    }
  }

  lemma HandDepositExplained(terms: map<string, Terms>, t: Tables, hand: map<Account, int>, k: Account, amount: int)
    requires Explained(terms, t, hand) && MarkDepositPending(t, k, amount, "").Ok?
    ensures var n, more := MarkDepositPending(t, k, amount, "").value, hand[k := HandOf(hand, k) + amount];
            Explained(terms, n, more) && SameIds(t.journal, n.journal)
  {
    var n, more := MarkDepositPending(t, k, amount, "").value, hand[k := HandOf(hand, k) + amount];
    JournalGrows(t.journal, Entry("", DepositPending, k, amount));
    forall x ensures BalanceOf(n, x).pending == Pending(terms, n, x) + HandOf(more, x) {
      SumsUntouched(terms, t.journal, n.journal, x);
      assert BalanceOf(t, x).pending == Pending(terms, t, x) + HandOf(hand, x);
    }
  }

  lemma HandSettleExplained(terms: map<string, Terms>, t: Tables, hand: map<Account, int>, k: Account, amount: int)
    requires Explained(terms, t, hand) && SettleDeposit(t, k, amount, "").Ok?
    ensures var n, less := SettleDeposit(t, k, amount, "").value, hand[k := HandOf(hand, k) - amount];
            Explained(terms, n, less) && SameIds(t.journal, n.journal)
  {
    var n, less := SettleDeposit(t, k, amount, "").value, hand[k := HandOf(hand, k) - amount];
    JournalGrows(t.journal, Entry("", DepositSettled, k, amount));
    forall x ensures BalanceOf(n, x).pending == Pending(terms, n, x) + HandOf(less, x) {
      SumsUntouched(terms, t.journal, n.journal, x);
      assert BalanceOf(t, x).pending == Pending(terms, t, x) + HandOf(hand, x);
    }
  }

  lemma OtherExplained(terms: map<string, Terms>, t: Tables, hand: map<Account, int>, step: Conservation.Step)
    requires Explained(terms, t, hand) && OwnIds(terms, Other(step))
    ensures var n, after := Next(terms, t, Other(step)), NextHand(terms, t, hand, Other(step));
            Explained(terms, n, after) && SameIds(t.journal, n.journal)
  {
    var n := Next(terms, t, Other(step));
    if Conservation.Attempt(t, step).Ok? {
      match step
      case Deposit(k, amount, id) => HandDepositExplained(terms, t, hand, k, amount);
      case Settle(k, amount, id) => HandSettleExplained(terms, t, hand, k, amount);
      case Request(wid, k, amount) => RequestExplained(terms, t, wid, k, amount, hand);
      case Finalize(wid, cancel) => FinalizeExplained(terms, t, wid, cancel, hand);
      case ReserveFor(o) =>
        ReserveUntouched(t, o);
        UntouchedExplained(terms, t, n, hand);
      case ReleaseFor(o) =>
        ReleaseUntouched(t, o);
        UntouchedExplained(terms, t, n, hand);
      case Trades(orders, trades) =>
        TradesUntouched(t, orders, trades);
        UntouchedExplained(terms, t, n, hand);
    }
  }

  lemma FairKeepsHandOk(terms: map<string, Terms>, t: Tables, hand: map<Account, int>, s: Step)
    requires HandOk(hand) && Fair(terms, t, hand, s)
    ensures HandOk(NextHand(terms, t, hand, s))
  {
  }

  lemma CallbackExplained(terms: map<string, Terms>, t: Tables, hand: map<Account, int>, s: Step)
    requires TermsOk(terms) && Explained(terms, t, hand) && IsCallback(terms, s)
    ensures Explained(terms, Next(terms, t, s), hand)
  {
    if !IsSettled(t.journal, s.ref) {
      MarkEffect(terms, t, hand, s.ref);
      if s.SettledCallback? && Attempt(terms, t, s).Ok? {
        SettleMarked(terms, PendingOnce(t, terms[s.ref], s.ref).value, hand, s.ref);
      }
    }
  }

  /** The pending bucket is explained over every run, fair or not: only what came by hand can go below zero. */
  lemma {:induction false} RunStaysExplained(terms: map<string, Terms>, t: Tables, hand: map<Account, int>,
                                             steps: seq<Step>)
    requires TermsOk(terms) && Explained(terms, t, hand) && forall s :: s in steps ==> OwnIds(terms, s)
    ensures Explained(terms, Run(terms, t, steps), RunHand(terms, t, hand, steps))
    decreases |steps|
  {
    if steps != [] {
      var s := steps[0];
      assert s in steps && forall x :: x in steps[1..] ==> x in steps;
      if s.Other? {
        OtherExplained(terms, t, hand, s.step);
      } else {
        CallbackExplained(terms, t, hand, s);
      }
      RunStaysExplained(terms, Next(terms, t, s), NextHand(terms, t, hand, s), steps[1..]);
    }
  }

  /** The settlement of an unsettled deposit is refused if and only if settlements by hand have eaten into it: what is
      left of the hand deposits no longer makes up for what else the bucket owes. */
  lemma StarvedIff(terms: map<string, Terms>, t: Tables, hand: map<Account, int>, ref: string)
    requires TermsOk(terms) && ref in terms && Explained(terms, t, hand) && !IsSettled(t.journal, ref)
    ensures var x := terms[ref];
            SettleOnce(t, x, ref).Err? <==>
              Pending(terms, t, x.account) + HandOf(hand, x.account) < if IsOpen(t.journal, ref) then x.amount else 0
  {
    var k := terms[ref].account;
    assert BalanceOf(t, k).pending == Pending(terms, t, k) + HandOf(hand, k);
  }

  /** After every run, a settled callback is refused exactly when the hand has starved its deposit. */
  lemma RunStarvesIff(terms: map<string, Terms>, t: Tables, hand: map<Account, int>, steps: seq<Step>, ref: string)
    requires TermsOk(terms) && Explained(terms, t, hand) && ref in terms && forall s :: s in steps ==> OwnIds(terms, s)
    ensures var n, left, x := Run(terms, t, steps), RunHand(terms, t, hand, steps), terms[ref];
            Attempt(terms, n, SettledCallback(ref)).Err? <==>
              && !IsSettled(n.journal, ref)
              && Pending(terms, n, x.account) + HandOf(left, x.account) < if IsOpen(n.journal, ref) then x.amount else 0
  {
    RunStaysExplained(terms, t, hand, steps);
    if !IsSettled(Run(terms, t, steps).journal, ref) {
      StarvedIff(terms, Run(terms, t, steps), RunHand(terms, t, hand, steps), ref);
    }
  }

  /** Every callback of the run succeeds. */
  ghost predicate CallbacksSucceed(terms: map<string, Terms>, t: Tables, steps: seq<Step>)
    decreases |steps|
  {
    steps != [] ==>
      && (steps[0].Other? || Attempt(terms, t, steps[0]).Ok?)
      && CallbacksSucceed(terms, Next(terms, t, steps[0]), steps[1..])
  }

  predicate Seen(t: Tables, n: Tables, steps: seq<Step>, ref: string) {
    && (IsSettled(n.journal, ref) <==> IsSettled(t.journal, ref) || SettledCallback(ref) in steps)
    && (Exists(n.journal, PendingId(ref)) <==>
          Exists(t.journal, PendingId(ref)) || PendingCallback(ref) in steps || SettledCallback(ref) in steps)
  }

  /** Gateway deposits are idempotent: in any run of callbacks, repeated and in any order, interleaved with
      withdrawals, orders, trades and deposits by hand, no callback fails, a reference is settled exactly when a
      settled callback came, and the pending bucket never holds anything for it. */
  lemma {:induction false} RunExplained(terms: map<string, Terms>, t: Tables, hand: map<Account, int>, steps: seq<Step>)
    requires TermsOk(terms) && Explained(terms, t, hand) && HandOk(hand) && FairRun(terms, t, hand, steps)
    ensures Explained(terms, Run(terms, t, steps), RunHand(terms, t, hand, steps)) && CallbacksSucceed(terms, t, steps)
    ensures forall r :: r in terms ==> Seen(t, Run(terms, t, steps), steps, r)
    decreases |steps|
  {
    if steps != [] {
      var s, n := steps[0], Next(terms, t, steps[0]);
      if s.Other? {
        OtherExplained(terms, t, hand, s.step);
        FairKeepsHandOk(terms, t, hand, s);
      } else {
        CallbackEffect(terms, t, hand, s);
      }
      RunExplained(terms, n, NextHand(terms, t, hand, s), steps[1..]);
      forall r | r in terms ensures Seen(t, Run(terms, t, steps), steps, r) {
        assert Seen(n, Run(terms, n, steps[1..]), steps[1..], r);
        assert forall x :: x in steps <==> x == s || x in steps[1..];
      }
    }
  }

  lemma {:induction false} CallbacksAreFair(terms: map<string, Terms>, t: Tables, hand: map<Account, int>,
                                            steps: seq<Step>)
    requires forall s :: s in steps ==> IsCallback(terms, s)
    ensures FairRun(terms, t, hand, steps) && RunHand(terms, t, hand, steps) == hand
    decreases |steps|
  {
    if steps != [] {
      assert steps[0] in steps && forall x :: x in steps[1..] ==> x in steps;
      CallbacksAreFair(terms, Next(terms, t, steps[0]), hand, steps[1..]);
    }
  }

  lemma NothingPending(terms: map<string, Terms>, refs: set<string>, withdrawals: map<string, Withdrawal>, k: Account)
    requires refs == {} && forall w :: w in withdrawals ==> !withdrawals[w].status.Requested?
    ensures Amounts(terms, refs, k) == 0 && Undecided(withdrawals, k) == 0
  {
    SumZero(map r | r in terms && terms[r].account == k :: if r in refs then terms[r].amount else 0);
    SumZero(map w | w in withdrawals && withdrawals[w].account == k :: Held(withdrawals[w]));
  }

  lemma EmptyIsExplained(terms: map<string, Terms>)
    ensures Explained(terms, Tables(map[], map[], map[], []), map[]) && HandOk(map[])
  {
    var t := Tables(map[], map[], map[], []);
    var hand: map<Account, int> := map[];
    forall k ensures BalanceOf(t, k).pending == Pending(terms, t, k) + HandOf(hand, k) {
      assert OpenRefs(terms, t.journal) == {};
      NothingPending(terms, OpenRefs(terms, t.journal), t.withdrawals, k);
    }
  }

  /** Callbacks alone: what they change of an account is what they credit. */
  lemma {:induction false} CallbacksCredit(terms: map<string, Terms>, t: Tables, hand: map<Account, int>,
                                           steps: seq<Step>, k: Account)
    requires TermsOk(terms) && Explained(terms, t, hand) && HandOk(hand)
    requires forall s :: s in steps ==> IsCallback(terms, s)
    ensures CreditsOnce(terms, t, Run(terms, t, steps), k) && Run(terms, t, steps).withdrawals == t.withdrawals
    decreases |steps|
  {
    if steps != [] {
      assert steps[0] in steps && forall x :: x in steps[1..] ==> x in steps;
      CallbackEffect(terms, t, hand, steps[0]);
      assert CreditsOnce(terms, t, Next(terms, t, steps[0]), k);
      CallbacksCredit(terms, Next(terms, t, steps[0]), hand, steps[1..], k);
    }
  }

  lemma SameDeposits(terms: map<string, Terms>, a: seq<Entry>, b: seq<Entry>, k: Account)
    requires forall r :: r in terms ==> (IsOpen(a, r) <==> IsOpen(b, r)) && (IsSettled(a, r) <==> IsSettled(b, r))
    ensures Outstanding(terms, a, k) == Outstanding(terms, b, k) && Credited(terms, a, k) == Credited(terms, b, k)
  {
    assert OpenRefs(terms, a) == OpenRefs(terms, b);
    assert SettledRefs(terms, a) == SettledRefs(terms, b);
  }

  /** Order and repetition do not matter: two runs of the same callbacks leave the same balances. */
  lemma CallbackOrderIsIrrelevant(terms: map<string, Terms>, t: Tables, hand: map<Account, int>, a: seq<Step>,
                                  b: seq<Step>, k: Account)
    requires TermsOk(terms) && Explained(terms, t, hand) && HandOk(hand) && forall s :: s in a ==> IsCallback(terms, s)
    requires forall s :: s in a <==> s in b
    ensures BalanceOf(Run(terms, t, a), k) == BalanceOf(Run(terms, t, b), k)
  {
    CallbacksRun(terms, t, hand, a, k);
    CallbacksRun(terms, t, hand, b, k);
    SameSetSameBalance(terms, t, Run(terms, t, a), Run(terms, t, b), hand, a, b, k);
  }

  /** All that a run of callbacks leaves behind. */
  ghost predicate Accounted(terms: map<string, Terms>, t: Tables, n: Tables, hand: map<Account, int>, steps: seq<Step>,
                            k: Account) {
    && (forall r :: r in terms ==> Seen(t, n, steps, r))
    && CreditsOnce(terms, t, n, k) && n.withdrawals == t.withdrawals && Explained(terms, n, hand)
  }

  lemma CallbacksRun(terms: map<string, Terms>, t: Tables, hand: map<Account, int>, steps: seq<Step>, k: Account)
    requires TermsOk(terms) && Explained(terms, t, hand) && HandOk(hand)
    requires forall s :: s in steps ==> IsCallback(terms, s)
    ensures Accounted(terms, t, Run(terms, t, steps), hand, steps, k)
  {
    CallbacksAreFair(terms, t, hand, steps);
    RunExplained(terms, t, hand, steps);
    CallbacksCredit(terms, t, hand, steps, k);
  }

  lemma SameSetSameBalance(terms: map<string, Terms>, t: Tables, n: Tables, m: Tables, hand: map<Account, int>,
                           a: seq<Step>, b: seq<Step>, k: Account)
    requires Accounted(terms, t, n, hand, a, k) && Accounted(terms, t, m, hand, b, k) && forall s :: s in a <==> s in b
    ensures BalanceOf(n, k) == BalanceOf(m, k)
  {
    forall r | r in terms
      ensures (IsOpen(n.journal, r) <==> IsOpen(m.journal, r)) && (IsSettled(n.journal, r) <==> IsSettled(m.journal, r))
    {
      assert Seen(t, n, a, r) && Seen(t, m, b, r);
    }
    SameDeposits(terms, n.journal, m.journal, k);
  }

  /** One reference is what all this hangs on: an announced deposit is used up by a settlement of the same amount if
      and only if both callbacks carry the same reference, so an event id of its own on each leaves the first one
      pending for ever. */
  lemma ResidualIffReferencesDiffer(terms: map<string, Terms>, t: Tables, hand: map<Account, int>, announced: Callback,
                                    paid: Callback)
    requires TermsOk(terms) && Explained(terms, t, hand) && HandOk(hand)
    requires var a, b := Reference(announced), Reference(paid);
             && a in terms && b in terms && terms[a] == terms[b]
             && !Exists(t.journal, PendingId(a)) && !Exists(t.journal, PendingId(b))
    ensures var a, b := Reference(announced), Reference(paid); var k := terms[a].account;
            var n := Run(terms, t, [PendingCallback(a), SettledCallback(b)]);
            && BalanceOf(n, k).available == BalanceOf(t, k).available + terms[a].amount
            && (BalanceOf(n, k).pending == BalanceOf(t, k).pending <==> a == b)
  {
    TwoCallbacks(terms, t, hand, Reference(announced), Reference(paid));
  }

  /** What a callback for `ref` does to its own deposit and to no other. */
  ghost predicate Called(terms: map<string, Terms>, t: Tables, n: Tables, ref: string, settled: bool)
    requires ref in terms
  {
    var x := terms[ref];
    && OthersStand(terms, t.journal, n.journal, ref)
    && Exists(n.journal, PendingId(ref))
    && (IsSettled(n.journal, ref) <==> IsSettled(t.journal, ref) || settled)
    && BalanceOf(n, x.account).pending - BalanceOf(t, x.account).pending ==
       Change(IsOpen(t.journal, ref), IsOpen(n.journal, ref)) * x.amount
    && BalanceOf(n, x.account).available - BalanceOf(t, x.account).available ==
       Change(IsSettled(t.journal, ref), IsSettled(n.journal, ref)) * x.amount
  }

  lemma CallbackMoves(terms: map<string, Terms>, t: Tables, hand: map<Account, int>, s: Step)
    requires TermsOk(terms) && Explained(terms, t, hand) && HandOk(hand) && IsCallback(terms, s)
    ensures Explained(terms, Next(terms, t, s), hand) && Called(terms, t, Next(terms, t, s), s.ref, s.SettledCallback?)
  {
    var n, k := Next(terms, t, s), terms[s.ref].account;
    CallbackEffect(terms, t, hand, s);
    DepositMoves(terms, t.journal, n.journal, s.ref, k);
    assert CreditsOnce(terms, t, n, k);
    assert BalanceOf(n, k).pending == Pending(terms, n, k) + HandOf(hand, k);
    assert BalanceOf(t, k).pending == Pending(terms, t, k) + HandOf(hand, k);
  }

  lemma PairMoves(terms: map<string, Terms>, t: Tables, once: Tables, n: Tables, a: string, b: string)
    requires TermsOk(terms) && a in terms && b in terms && terms[a] == terms[b]
    requires !Exists(t.journal, PendingId(a)) && !Exists(t.journal, PendingId(b))
    requires !IsSettled(t.journal, a) && !IsSettled(t.journal, b)
    requires Called(terms, t, once, a, false) && Called(terms, once, n, b, true)
    ensures var k := terms[a].account;
            && BalanceOf(n, k).available == BalanceOf(t, k).available + terms[a].amount
            && (BalanceOf(n, k).pending == BalanceOf(t, k).pending <==> a == b)
  {
  }

  lemma TwoCallbacks(terms: map<string, Terms>, t: Tables, hand: map<Account, int>, a: string, b: string)
    requires TermsOk(terms) && Explained(terms, t, hand) && HandOk(hand) && a in terms && b in terms
    requires terms[a] == terms[b]
    requires !Exists(t.journal, PendingId(a)) && !Exists(t.journal, PendingId(b))
    ensures var k := terms[a].account;
            var n := Run(terms, t, [PendingCallback(a), SettledCallback(b)]);
            && BalanceOf(n, k).available == BalanceOf(t, k).available + terms[a].amount
            && (BalanceOf(n, k).pending == BalanceOf(t, k).pending <==> a == b)
  {
    var steps := [PendingCallback(a), SettledCallback(b)];
    var once := Next(terms, t, steps[0]);
    CallbackMoves(terms, t, hand, steps[0]);
    CallbackMoves(terms, once, hand, steps[1]);
    PairMoves(terms, t, once, Next(terms, once, steps[1]), a, b);
    assert steps[1..][0] == steps[1] && steps[1..][1..] == [];
    assert Run(terms, once, steps[1..]) == Next(terms, once, steps[1]);
  }
}
