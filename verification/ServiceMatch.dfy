/** Where the order transactions get their match results from when matching is synchronous: the batched loop over the
    active-order rows always reports a result that continues the stored orders. */
module ServiceMatch {
  import opened Orders
  import opened Engine
  import opened BookSpec
  import opened Sweeping
  import opened MatchingLaws
  import opened Projection
  import opened Refinement
  import opened Cover
  import opened CoverRuns
  import opened Batching
  import opened Transactions
  import Decimal

  /** The rows are the stored orders, all of the market of `t`. */
  ghost predicate RowsStored(orders: map<string, Order>, rows: seq<Order>, t: Order) {
    forall m :: m in rows ==> m.id in orders && orders[m.id] == m && SameAssets(m, t)
  }

  predicate SameAssets(m: Order, t: Order) {
    m.baseAsset == t.baseAsset && m.quoteAsset == t.quoteAsset
  }

  ghost predicate Names(makers: seq<Order>, id: string) {
    exists x :: x in makers && x.id == id
  }

  lemma NamesMore(makers: seq<Order>, id: string)
    requires Keyed(makers) && makers != []
    ensures Names(makers, makers[0].id)
    ensures Names(makers[1..], id) ==> Names(makers, id) && id != makers[0].id
  {
    KeyedTail(makers);
    assert makers[0] in makers;
  }

  /** What a scan adds to `r`, as fills of stored orders by its taker. */
  ghost predicate AddsFills(orders: map<string, Order>, r: MatchResult, makers: seq<Order>, o: MatchResult) {
    && r.makers <= o.makers && r.trades <= o.trades && SameTerms(r.taker, o.taker)
    && var ms, ts := o.makers[|r.makers|..], o.trades[|r.trades|..];
       && Fills(orders, ms, ts, o.taker)
       && (forall m :: m in ms ==> Names(makers, m.id))
       && o.taker.remaining == r.taker.remaining - SumQuantity(ts) >= 0
       && (o.taker.status == r.taker.status || o.taker.status.Expired? ||
           o.taker.status == StatusForRemaining(o.taker.remaining))
  }

  lemma OneFill(orders: map<string, Order>, r: MatchResult, maker: Order, ids: TradeIds, now: int)
    requires r.taker.remaining > 0 && !r.taker.side.OtherSide? && CrossesPrice(r.taker, maker)
    requires maker.id in orders && orders[maker.id] == maker && SameAssets(maker, r.taker)
    ensures var next := Execute(r, maker, ids, now);
            Fill(orders, next.makers[|r.makers|], next.trades[|r.trades|], next.taker)
  {
  }

  lemma FillsMore(orders: map<string, Order>, r: MatchResult, makers: seq<Order>, next: MatchResult, o: MatchResult)
    requires makers != [] && Keyed(makers) && AddsFills(orders, next, makers[1..], o)
    requires r.makers <= next.makers && |next.makers| == |r.makers| + 1 && next.makers[|r.makers|].id == makers[0].id
    requires r.trades <= next.trades && |next.trades| == |r.trades| + 1 && SameTerms(r.taker, next.taker)
    requires Fill(orders, next.makers[|r.makers|], next.trades[|r.trades|], next.taker)
    requires next.taker.remaining == r.taker.remaining - next.trades[|r.trades|].quantity
    requires next.taker.status == StatusForRemaining(next.taker.remaining)
    requires o.trades == next.trades ==> o.taker.status == next.taker.status || o.taker.status.Expired?
    requires o.trades != next.trades ==>
               o.taker.status.Expired? || o.taker.status == StatusForRemaining(o.taker.remaining)
    ensures AddsFills(orders, r, makers, o)
  {
    var m, x := next.makers[|r.makers|], next.trades[|r.trades|];
    var ms, ts := o.makers[|next.makers|..], o.trades[|next.trades|..];
    TailFirst(o.makers, next.makers, |r.makers|);
    TailFirst(o.trades, next.trades, |r.trades|);
    NamesMore(makers, m.id);
    forall y | y in ms ensures y.id != m.id && Names(makers, y.id) {
      NamesMore(makers, y.id);
    }
    FillsFirst(orders, m, x, ms, ts, o.taker);
    assert ([x] + ts)[1..] == ts;
  }

  lemma TailFirst<T>(all: seq<T>, front: seq<T>, n: nat)
    requires front <= all && |front| == n + 1
    ensures all[n..] == [front[n]] + all[|front|..]
  {
  }

  lemma FillsFirst(orders: map<string, Order>, m: Order, x: Trade, ms: seq<Order>, ts: seq<Trade>, t: Order)
    requires Fill(orders, m, x, t) && Fills(orders, ms, ts, t) && forall y :: y in ms ==> y.id != m.id
    ensures Fills(orders, [m] + ms, [x] + ts, t)
  {
    var all, trades := [m] + ms, [x] + ts;
    forall i | 0 <= i < |all| ensures Fill(orders, all[i], trades[i], t) {
      assert i > 0 ==> all[i] == ms[i - 1] && trades[i] == ts[i - 1];
    }
    forall i, j | 0 <= i < j < |all| ensures all[i].id != all[j].id {
      assert all[j] == ms[j - 1] && ms[j - 1] in ms;
      assert i > 0 ==> all[i] == ms[i - 1];
    }
  }

  lemma {:induction false} ScanFills(orders: map<string, Order>, r: MatchResult, makers: seq<Order>, ids: TradeIds,
                                     now: int)
    requires Keyed(makers) && AllCross(r.taker, makers) && RowsStored(orders, makers, r.taker)
    requires !r.taker.side.OtherSide? && r.taker.remaining >= 0 && Scan(r, makers, ids, now).Done?
    ensures var o := Scan(r, makers, ids, now).value;
            && AddsFills(orders, r, makers, o)
            && (o.trades == r.trades ==> o.taker.status == r.taker.status || o.taker.status.Expired?)
            && (o.trades != r.trades ==>
                o.taker.status.Expired? || o.taker.status == StatusForRemaining(o.taker.remaining))
    decreases |makers|
  {
    if makers != [] && r.taker.remaining > 0 {
      var next := Execute(r, makers[0], ids, now);
      CrossTail(r.taker, next.taker, makers);
      if EligibleMaker(r.taker, makers[0]) {
        assert makers[0] in makers && forall m :: m in makers[1..] ==> m in makers;
        KeyedTail(makers);
        OneFill(orders, r, makers[0], ids, now);
        ScanFills(orders, next, makers[1..], ids, now);
        FillsMore(orders, r, makers, next, Scan(next, makers[1..], ids, now).value);
      }
    }
  }

  /** Every maker hit is live in the store. */
  ghost predicate MakersLive(orders: map<string, Order>, makers: seq<Order>) {
    forall m :: m in makers ==> m.id in orders && IsLive(orders[m.id].status)
  }

  lemma CandidatesLive(orders: map<string, Order>, rows: seq<Order>, t: Order, ms: seq<Order>)
    requires Keyed(rows) && RowsStored(orders, rows, t) && !t.side.OtherSide?
    requires forall m :: m in ms ==> Names(AllCandidates(rows, t), m.id)
    ensures MakersLive(orders, ms)
  {
    CandidatesCross(rows, t);
    forall m | m in ms ensures m.id in orders && IsLive(orders[m.id].status) {
      var x :| x in AllCandidates(rows, t) && x.id == m.id;
      assert CrossesPrice(t, x) && orders[x.id] == x;
    }
  }

  lemma WholeIsConsistent(orders: map<string, Order>, rows: seq<Order>, taker: Order, ids: TradeIds, now: int)
    requires Keyed(rows) && RowsStored(orders, rows, taker) && ValidateTaker(ServiceTaker(taker)).None?
    requires TakenFrom(orders, taker) && IsLive(taker.status)
    requires WholeMatch(rows, taker, ids, now).Done?
    ensures Consistent(orders, WholeMatch(rows, taker, ids, now).value)
    ensures MakersLive(orders, WholeMatch(rows, taker, ids, now).value.makers)
  {
    var t := ServiceTaker(taker);
    var makers := AllCandidates(rows, t);
    CandidatesCross(rows, t);
    ScanFills(orders, MatchResult(t, [], []), makers, ids, now);
    var o, w := Scan(MatchResult(t, [], []), makers, ids, now).value, WholeMatch(rows, taker, ids, now).value;
    assert o.makers[0..] == o.makers && o.trades[0..] == o.trades;
    assert w.makers == o.makers && w.trades == o.trades && SameOwner(o.taker, w.taker);
    RetakenFills(orders, o.makers, o.trades, o.taker, w.taker);
    CandidatesLive(orders, rows, t, o.makers);
  }

  /** Fills hold of the taker whatever its price, status and stamp. */
  lemma RetakenFills(orders: map<string, Order>, makers: seq<Order>, trades: seq<Trade>, t: Order, u: Order)
    requires Fills(orders, makers, trades, t) && SameOwner(t, u)
    ensures Fills(orders, makers, trades, u)
  {
    forall i | 0 <= i < |makers| ensures Fill(orders, makers[i], trades[i], u) {
      assert Fill(orders, makers[i], trades[i], t);
    }
  }

  /** Time stamps do not matter to the fills. */
  lemma StampsAreIrrelevant(orders: map<string, Order>, w: MatchResult, b: MatchResult)
    requires Consistent(orders, w) && SameOrder(w.taker, b.taker)
    requires SameOrders(w.makers, b.makers) && SameTrades(w.trades, b.trades)
    ensures Consistent(orders, b) && (MakersLive(orders, w.makers) ==> MakersLive(orders, b.makers))
  {
    forall m | m in b.makers ensures exists x :: x in w.makers && x.id == m.id {
      var i :| 0 <= i < |b.makers| && b.makers[i] == m;
      assert w.makers[i] in w.makers && SameOrder(w.makers[i], b.makers[i]);
    }
    forall i | 0 <= i < |b.makers|
      ensures Fill(orders, b.makers[i], b.trades[i], b.taker) && b.makers[i].id == w.makers[i].id {
      assert Fill(orders, w.makers[i], w.trades[i], w.taker);
      assert SameOrder(w.makers[i], b.makers[i]) && SameTrade(w.trades[i], b.trades[i]);
    }
    SameSums(w.trades, b.trades);
  }

  lemma {:induction false} SameSums(a: seq<Trade>, b: seq<Trade>)
    requires SameTrades(a, b)
    ensures SumQuantity(a) == SumQuantity(b)
  {
    if a != [] {
      assert SameTrade(a[0], b[0]);
      assert SameTrades(a[1..], b[1..]);
      SameSums(a[1..], b[1..]);
    }
  }

  /** What the batched loop reports for a live taker read from the store, waiting or not, is a result for the stored
      orders none of whose makers is gone: matching within a transaction keeps the exact cover and never fails a
      seller. */
  lemma MatchIsConsistent(orders: map<string, Order>, rows: seq<Order>, taker: Order, ids: TradeIds, clock: nat -> int)
    requires Keyed(rows) && RowsStored(orders, rows, taker) && ValidateTaker(ServiceTaker(taker)).None?
    requires TakenFrom(orders, taker) && IsLive(taker.status)
    requires MatchSpec(rows, taker, ids, clock).Done?
    ensures Consistent(orders, MatchSpec(rows, taker, ids, clock).value)
    ensures MakersLive(orders, MatchSpec(rows, taker, ids, clock).value.makers)
  {
    BatchedIsWhole(rows, taker, ids, clock, 0);
    WholeIsConsistent(orders, rows, taker, ids, 0);
    StampsAreIrrelevant(orders, WholeMatch(rows, taker, ids, 0).value, MatchSpec(rows, taker, ids, clock).value);
  }
}
