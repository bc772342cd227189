/** When each order transaction of internal/app/orders/service.go succeeds, and the rows it leaves, in the fields of the
    orders. */
module Outcomes {
  import opened Orders
  import opened Engine
  import opened Ledger
  import opened LedgerLaws
  import opened Projection
  import opened Cover
  import opened CoverRuns
  import opened Transactions

  /** The row of a placed order: waiting, if it is to be matched later and is no stop. */
  function PlacedRow(o: Order, wait: bool): Order {
    if wait && o.status.Open? then o.(status := PendingMatch) else o
  }

  /** An order is placed if and only if its id is new and its funds can be reserved. */
  lemma PlaceOutcome(s: Exchange, o: Order, wait: bool)
    requires Built(o)
    ensures var placed := PlaceTx(s, o, wait);
            && (placed.Ok? <==>
                  && o.id !in s.orders && Complete(o)
                  && NeedAccount(o) in s.tables.balances && BalanceOf(s.tables, NeedAccount(o)).available >= Need(o)
                  && (if o.reservationId != "" then o.reservationId else "res_" + o.id) !in s.tables.reservations)
            && (placed.Ok? ==>
                  && placed.value.orders == s.orders[o.id := PlacedRow(o, wait)]
                  && Moved(s.tables, placed.value.tables, NeedAccount(o), -Need(o), Need(o), 0))
  {
    ReserveIff(s.tables, o);
    if PlaceTx(s, o, wait).Ok? {
      ReserveMoves(s.tables, o);
    }
  }

  /** Who may cancel what: unknown ids and foreign orders are refused, a finished order is left alone, and a live one is
      canceled with nothing left to fill. */
  lemma CancelOutcome(s: Exchange, id: string, user: string, now: int)
    ensures var n := CancelTx(s, id, user, now);
            if id !in s.orders then n == Err(RecordNotFound)
            else
              var o := s.orders[id];
              if user != "" && user != o.userId then n == Err(UserMismatch)
              else
                match o.status
                case Filled => n == Ok(s)
                case Canceled => n == Ok(s)
                case Expired => n == Ok(s)
                case Rejected => n == Err(NotCancelable)
                case UnsetStatus => n == Err(NotCancelable)
                case _ => Ended(s, id, n, now)
  {
  }

  /** A live order is canceled as soon as its funds can be released. */
  predicate Ended(s: Exchange, id: string, n: Result<Exchange>, now: int)
    requires id in s.orders
  {
    var o, released := s.orders[id], ReleaseOrderFunds(s.tables, s.orders[id]);
    var row := o.(status := Canceled, remaining := 0, updatedAt := now);
    (n.Ok? <==> released.Ok?) && (n.Ok? ==> n.value == Exchange(s.orders[id := row], released.value))
  }

  /** Every order a written result names is stored as it names it, and no other row changes. */
  lemma WriteOutcome(s: Exchange, r: MatchResult)
    requires WriteTx(s, r).Ok? && (forall i, j :: 0 <= i < j < |r.makers| ==> r.makers[i].id != r.makers[j].id)
    requires forall m :: m in r.makers ==> m.id != r.taker.id
    ensures var n := WriteTx(s, r).value.orders;
            && r.taker.id in n && n[r.taker.id] == r.taker
            && (forall m :: m in r.makers ==> m.id in n && n[m.id] == m)
            && (forall id :: id in s.orders && id != r.taker.id && (forall m :: m in r.makers ==> m.id != id) ==>
                  id in n && n[id] == s.orders[id])
            && (forall id :: id in n ==> id in s.orders || id == r.taker.id || exists m :: m in r.makers && m.id == id)
  {
    SaveAllSplit(s.orders, r.makers, r.taker);
    SavedRows(s.orders, r.makers);
  }

  lemma {:induction false} SavedRows(orders: map<string, Order>, items: seq<Order>)
    requires forall i, j :: 0 <= i < j < |items| ==> items[i].id != items[j].id
    ensures var n := SaveAll(orders, items);
            && (forall o :: o in items ==> o.id in n && n[o.id] == o)
            && (forall id :: id in orders && (forall o :: o in items ==> o.id != id) ==> id in n && n[id] == orders[id])
            && (forall id :: id in n ==> id in orders || exists o :: o in items && o.id == id)
    decreases |items|
  {
    if items != [] {
      var next := orders[items[0].id := items[0]];
      assert items == [items[0]] + items[1..] && items[0] in items;
      forall o | o in items[1..] ensures o.id != items[0].id {
        var i :| 0 <= i < |items[1..]| && items[1..][i] == o;
        assert items[i + 1] == o;
      }
      SavedRows(next, items[1..]);
    }
  }

  /** A result is written if its order is still waiting or open and everybody it names is stored; a decided order
      skips it without an error. */
  lemma PersistOutcome(s: Exchange, r: MatchResult)
    ensures var n := PersistTx(s, r);
            if r.taker.id !in s.orders then n == Err(RecordNotFound)
            else
              var status := s.orders[r.taker.id].status;
              if !status.PendingMatch? && !status.Open? && !status.PartiallyFilled? then n == Ok(s)
              else if exists m :: m in r.makers && m.id !in s.orders then n == Err(RecordNotFound)
              else n == WriteTx(s, r)
  {
  }
}
