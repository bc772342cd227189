/** Every transaction of the order service against the price-level index: what it saves and what it touches, each listed
    as internal/app/orders/service.go does it. */
module LevelTouches {
  import opened Orders
  import opened Engine
  import opened Projection
  import opened PriceLevels
  import opened Batching
  import opened Cover
  import Transactions

  /** A batch of `match`: the makers it saves and touches, and the taker, touched if the batch is adopted. */
  datatype Round = Round(makers: seq<Order>, taker: Order, adopted: bool)

  /** One call of `match`. */
  datatype Work = Work(start: Order, rounds: seq<Round>, final: Order)

  function RoundSaves(rounds: seq<Round>): seq<Order> {
    if rounds == [] then [] else rounds[0].makers + RoundSaves(rounds[1..])
  }

  function RoundTouches(rounds: seq<Round>): seq<Order> {
    if rounds == [] then []
    else rounds[0].makers + (if rounds[0].adopted then [rounds[0].taker] else []) + RoundTouches(rounds[1..])
  }

  /** `match` touches its taker before and after, whatever the batches do. */
  function WorkTouches(w: Work): seq<Order> {
    [w.start] + RoundTouches(w.rounds) + [w.final]
  }

  /** `activateTriggeredStops`: each triggered stop is matched and then saved. */
  function StopSaves(stops: seq<Work>): seq<Order> {
    if stops == [] then [] else RoundSaves(stops[0].rounds) + [stops[0].final] + StopSaves(stops[1..])
  }

  function StopTouches(stops: seq<Work>): seq<Order> {
    if stops == [] then [] else WorkTouches(stops[0]) + StopTouches(stops[1..])
  }

  /** The transactions that write orders. */
  datatype ServiceTx =
    | PlaceAndMatch(item: Order, work: Work, stops: seq<Work>)
    | PlaceWaiting(item: Order, now: int)
    | PlaceStop(item: Order)
    | MatchOrder(work: Work, stops: seq<Work>)
    | MatchWithBook(start: Order, makers: seq<Order>, final: Order, stops: seq<Work>)
    | PersistResult(makers: seq<Order>, taker: Order, stops: seq<Work>)
    | Cancel(canceled: Order)
    | TriggerStops(stops: seq<Work>)

  function Waiting(item: Order, now: int): Order {
    item.(status := PendingMatch, updatedAt := now)
  }

  /** In the order of the source; asynchronous placing saves its order twice. */
  function Saved(tx: ServiceTx): seq<Order> {
    match tx
    case PlaceAndMatch(item, work, stops) => [item] + RoundSaves(work.rounds) + [work.final] + StopSaves(stops)
    case PlaceWaiting(item, now) => [item, Waiting(item, now)]
    case PlaceStop(item) => [item]
    case MatchOrder(work, stops) => RoundSaves(work.rounds) + [work.final] + StopSaves(stops)
    case MatchWithBook(_, makers, final, stops) => makers + [final] + StopSaves(stops)
    case PersistResult(makers, taker, stops) => makers + [taker] + StopSaves(stops)
    case Cancel(canceled) => [canceled]
    case TriggerStops(stops) => StopSaves(stops)
  }

  function Touched(tx: ServiceTx): seq<Order> {
    match tx
    case PlaceAndMatch(_, work, stops) => WorkTouches(work) + StopTouches(stops)
    case PlaceWaiting(_, _) => []
    case PlaceStop(_) => []
    case MatchOrder(work, stops) => WorkTouches(work) + StopTouches(stops)
    case MatchWithBook(start, makers, final, stops) => [start, final] + makers + StopTouches(stops)
    case PersistResult(makers, taker, stops) => [taker] + makers + StopTouches(stops)
    case Cancel(canceled) => [canceled]
    case TriggerStops(stops) => StopTouches(stops)
  }

  /** Asynchronous and stop placement return before the index is refreshed. */
  predicate Refreshes(tx: ServiceTx) {
    !tx.PlaceWaiting? && !tx.PlaceStop?
  }

  ghost function Effect(x: Index, tx: ServiceTx, market: string): Index {
    if Refreshes(tx) then Commit(x, Saves(Saved(tx), Touched(tx), market))
    else x.(active := SyncRows(x.active, Saved(tx)))
  }

  /** A transaction as the service runs it: orders keep the key they were placed at, a placed order is new, and `Place`
      matches the very order it created. */
  ghost predicate Proper(home: map<string, Key>, x: Index, tx: ServiceTx) {
    && (forall o :: o in Saved(tx) ==> Savable(home, o))
    && (match tx
        case PlaceAndMatch(item, work, _) => work.start == item
        case PlaceWaiting(item, _) => New(x.active, item)
        case PlaceStop(item) => New(x.active, item) && item.status.PendingStop?
        case _ => true)
  }

  ghost predicate New(active: set<Order>, item: Order) {
    forall o :: o in active ==> o.id != item.id
  }

  // ---- Each touches what it saves ----

  lemma {:induction false} RoundsTouch(rounds: seq<Round>)
    ensures forall o :: o in RoundSaves(rounds) ==> o in RoundTouches(rounds)
  {
    if rounds != [] {
      RoundsTouch(rounds[1..]);
    }
  }

  lemma WorkTouchesSaves(w: Work)
    ensures forall o :: o in RoundSaves(w.rounds) || o == w.final || o == w.start ==> o in WorkTouches(w)
  {
    RoundsTouch(w.rounds);
  }

  lemma {:induction false} StopsTouch(stops: seq<Work>)
    ensures forall o :: o in StopSaves(stops) ==> o in StopTouches(stops)
  {
    if stops != [] {
      WorkTouchesSaves(stops[0]);
      StopsTouch(stops[1..]);
    }
  }

  /** Every transaction that refreshes the index touches every order it saves, triggered stops included. */
  lemma SavedIsTouched(home: map<string, Key>, x: Index, tx: ServiceTx)
    requires Proper(home, x, tx) && Refreshes(tx)
    ensures forall o :: o in Saved(tx) ==> o in Touched(tx)
  {
    match tx
    case PlaceAndMatch(_, work, stops) =>
      WorkTouchesSaves(work);
      StopsTouch(stops);
    case MatchOrder(work, stops) =>
      WorkTouchesSaves(work);
      StopsTouch(stops);
    case MatchWithBook(_, _, _, stops) => StopsTouch(stops);
    case PersistResult(_, _, stops) => StopsTouch(stops);
    case Cancel(_) =>
    case TriggerStops(stops) => StopsTouch(stops);
  }

  /** A transaction that does not refresh leaves no row behind: the row of a new waiting order comes and goes. */
  lemma UnrefreshedLeavesRows(home: map<string, Key>, x: Index, tx: ServiceTx)
    requires Proper(home, x, tx) && !Refreshes(tx)
    ensures SyncRows(x.active, Saved(tx)) == x.active
  {
    var item := tx.item;
    if tx.PlaceStop? {
      assert SyncRows(x.active, [item]) == SyncRow(x.active, item);
    } else {
      var later := Waiting(item, tx.now);
      assert [item, later][1..] == [later];
      var once := SyncRow(x.active, item);
      assert SyncRows(once, [later]) == SyncRows(SyncRow(once, later), []);
      assert SyncRow(once, later) == x.active;
    }
  }

  /** Every transaction of the service keeps the index equal to the full aggregation. */
  lemma TransactionStaysInSync(home: map<string, Key>, x: Index, tx: ServiceTx, market: string)
    requires IndexOk(home, x) && Proper(home, x, tx)
    ensures IndexOk(home, Effect(x, tx, market))
  {
    if Refreshes(tx) {
      SavedIsTouched(home, x, tx);
      CommitStaysInSync(home, x, Saves(Saved(tx), Touched(tx), market));
    } else {
      UnrefreshedLeavesRows(home, x, tx);
    }
  }

  // ---- Runs ----

  datatype Step = Step(tx: ServiceTx, market: string)

  ghost function Run(x: Index, steps: seq<Step>): Index
    decreases |steps|
  {
    if steps == [] then x else Run(Effect(x, steps[0].tx, steps[0].market), steps[1..])
  }

  ghost predicate ProperRun(home: map<string, Key>, x: Index, steps: seq<Step>)
    decreases |steps|
  {
    steps != [] ==>
      && Proper(home, x, steps[0].tx)
      && ProperRun(home, Effect(x, steps[0].tx, steps[0].market), steps[1..])
  }

  /** After every run of service transactions the index is the full aggregation, and reconciliation finds no drift. */
  lemma {:induction false} RunStaysInSync(home: map<string, Key>, x: Index, steps: seq<Step>)
    requires IndexOk(home, x) && ProperRun(home, x, steps)
    ensures IndexOk(home, Run(x, steps))
    ensures forall market :: Drifts(Run(x, steps), market) == {}
    decreases |steps|
  {
    if steps == [] {
      forall market ensures Drifts(x, market) == {} {
        NoDriftIff(x, market);
      }
    } else {
      TransactionStaysInSync(home, x, steps[0].tx, steps[0].market);
      RunStaysInSync(home, Effect(x, steps[0].tx, steps[0].market), steps[1..]);
    }
  }

  // ---- The saves are those of the transactions ----

  /** The save lists are the rows that the transactions over orders and balances write. */
  lemma SavesWhatItWrites(s: Exchange, r: MatchResult, id: string, user: string, o: Order, now: int)
    ensures var n := Transactions.WriteTx(s, r);
            n.Ok? ==> n.value.orders == SaveAll(s.orders, Saved(PersistResult(r.makers, r.taker, [])))
    ensures var n := Transactions.CancelTx(s, id, user, now);
            n.Ok? && id in s.orders && s.orders[id].id == id && IsLive(s.orders[id].status) ==>
              n.value.orders == SaveAll(s.orders, Saved(Cancel(n.value.orders[id])))
    ensures var n := Transactions.PlaceTx(s, o, true);
            n.Ok? && !o.status.PendingStop? ==>
              n.value.orders == SaveAll(s.orders, Saved(PlaceWaiting(o, o.updatedAt)))
    ensures var n := Transactions.PlaceTx(s, o, true);
            n.Ok? && o.status.PendingStop? ==> n.value.orders == SaveAll(s.orders, Saved(PlaceStop(o)))
  {
    assert r.makers + [r.taker] + StopSaves([]) == r.makers + [r.taker];
    var waiting := Waiting(o, o.updatedAt);
    assert [o, waiting][1..] == [waiting] && [waiting][1..] == [] && [o][1..] == [];
    assert s.orders[o.id := o][o.id := waiting] == s.orders[o.id := waiting];
    SaveOne(s.orders, waiting);
    SaveOne(s.orders[o.id := o], waiting);
    SaveOne(s.orders, o);
    var n := Transactions.CancelTx(s, id, user, now);
    if n.Ok? && id in s.orders && s.orders[id].id == id && IsLive(s.orders[id].status) {
      SaveOne(s.orders, n.value.orders[id]);
    }
  }

  lemma SaveOne(orders: map<string, Order>, o: Order)
    ensures SaveAll(orders, [o]) == orders[o.id := o]
  {
    assert [o][1..] == [];
  }

  // ---- The rounds of the batched loop ----

  /** The rounds of `match`, batch by batch. */
  function RoundsOf(rows: seq<Order>, r: MatchResult, ids: TradeIds, clock: nat -> int, n: nat): seq<Round>
    decreases r.taker.remaining
  {
    var t := ServiceTaker(r.taker);
    var page := Candidates(rows, t, BATCH);
    if r.taker.remaining <= 0 || page == [] then []
    else
      var matched := MatchLimitSpec(t, page, After(ids, |r.trades|), clock(n));
      if matched.Failed? then []
      else
        var next := Extend(r, matched.value);
        var round := Round(matched.value.makers, next.taker, |matched.value.trades| > 0 || next.taker.status.Expired?);
        if |matched.value.trades| > 0 then
          TradesShrink(t, page, After(ids, |r.trades|), clock(n));
          [round] + RoundsOf(SaveRows(Opposite(t.side), rows, matched.value.makers), next, ids, clock, n + 1)
        else [round]
  }

  /** The loop and its rounds go on together after a batch with trades. */
  lemma RoundUnfolds(rows: seq<Order>, r: MatchResult, o: MatchResult, ids: TradeIds, clock: nat -> int, n: nat)
    requires r.taker.remaining > 0 && Candidates(rows, ServiceTaker(r.taker), BATCH) != [] && |o.trades| > 0
    requires var t := ServiceTaker(r.taker);
             MatchLimitSpec(t, Candidates(rows, t, BATCH), After(ids, |r.trades|), clock(n)) == Done(o)
    ensures var left, next := SaveRows(Opposite(r.taker.side), rows, o.makers), Extend(r, o);
            && MatchBatches(rows, r, ids, clock, n) == MatchBatches(left, next, ids, clock, n + 1)
            && RoundsOf(rows, r, ids, clock, n) ==
               [Round(o.makers, next.taker, true)] + RoundsOf(left, next, ids, clock, n + 1)
            && next.taker.remaining < r.taker.remaining
  {
    TermsKept(r, Candidates(rows, ServiceTaker(r.taker), BATCH), After(ids, |r.trades|), clock(n));
  }

  lemma SavesAppend(round: Round, later: seq<Round>, front: seq<Order>)
    ensures front + RoundSaves([round] + later) == (front + round.makers) + RoundSaves(later)
  {
    assert ([round] + later)[1..] == later;
  }

  /** The rounds save exactly the makers the loop reports. */
  lemma {:induction false} RoundsSaveMakers(rows: seq<Order>, r: MatchResult, ids: TradeIds, clock: nat -> int, n: nat)
    requires MatchBatches(rows, r, ids, clock, n).Done?
    ensures MatchBatches(rows, r, ids, clock, n).value.makers == r.makers + RoundSaves(RoundsOf(rows, r, ids, clock, n))
    decreases r.taker.remaining
  {
    var t := ServiceTaker(r.taker);
    var page := Candidates(rows, t, BATCH);
    if r.taker.remaining > 0 && page != [] {
      var o := MatchLimitSpec(t, page, After(ids, |r.trades|), clock(n)).value;
      if |o.trades| > 0 {
        var left, next := SaveRows(Opposite(t.side), rows, o.makers), Extend(r, o);
        RoundUnfolds(rows, r, o, ids, clock, n);
        RoundsSaveMakers(left, next, ids, clock, n + 1);
        SavesAppend(Round(o.makers, next.taker, true), RoundsOf(left, next, ids, clock, n + 1), r.makers);
      } else {
        TermsKept(r, page, After(ids, |r.trades|), clock(n));
        assert o.makers == [];
      }
    }
  }

  /** A transaction that matches saves the order it places, the makers it hits and the taker as it ends, in this
      order. */
  lemma MatchSavesItsResult(rows: seq<Order>, taker: Order, ids: TradeIds, clock: nat -> int)
    requires MatchSpec(rows, taker, ids, clock).Done?
    ensures var r := MatchSpec(rows, taker, ids, clock).value;
            var work := Work(taker, RoundsOf(rows, MatchResult(taker, [], []), ids, clock, 0), r.taker);
            && Saved(MatchOrder(work, [])) == r.makers + [r.taker]
            && Saved(PlaceAndMatch(taker, work, [])) == [taker] + r.makers + [r.taker]
            && Saved(MatchWithBook(taker, r.makers, r.taker, [])) == r.makers + [r.taker]
            && Saved(TriggerStops([work])) == r.makers + [r.taker]
  {
    var r := MatchSpec(rows, taker, ids, clock).value;
    var rounds := RoundsOf(rows, MatchResult(taker, [], []), ids, clock, 0);
    RoundsSaveMakers(rows, MatchResult(taker, [], []), ids, clock, 0);
    assert [] + RoundSaves(rounds) == RoundSaves(rounds) && r.makers == RoundSaves(rounds);
    var work := Work(taker, rounds, r.taker);
    assert [work][1..] == [] && StopSaves([]) == [];
    assert r.makers + [r.taker] + [] == r.makers + [r.taker];
  }
}
