/** The batched matching loop of the order service (`match`, internal/app/orders/service.go): pages of at most 500
    candidates of the active-order table stand in for one scan over all of them. */
module Batching {
  import opened Orders
  import opened Engine
  import opened Priority
  import opened BookSpec
  import opened Sweeping
  import opened Projection
  import opened Refinement
  import Decimal

  const BATCH: nat := 500

  /** `effectiveMatchTaker`: a market sell matches down to the smallest price whatever price it names. */
  function ServiceTaker(o: Order): Order {
    if o.kind.Market? && o.side.Sell? then o.(price := MIN_MARKET_PRICE) else o
  }

  /** The filter of `ListMatchCandidates`. */
  predicate IsCandidate(t: Order, m: Order) {
    && m.market == t.market && m.side == Opposite(t.side) && IsActiveRow(m) && m.id != t.id
    && if m.side.Sell? then m.price <= t.price else m.price >= t.price
  }

  /** All candidates among the rows of a side, listed best price and earliest sequence first. */
  function AllCandidates(rows: seq<Order>, t: Order): seq<Order> {
    if rows == [] then []
    else if IsCandidate(t, rows[0]) then [rows[0]] + AllCandidates(rows[1..], t)
    else AllCandidates(rows[1..], t)
  }

  function Candidates(rows: seq<Order>, t: Order, limit: nat): seq<Order> {
    var all := AllCandidates(rows, t);
    if limit <= |all| then all[..limit] else all
  }

  /** `SaveOrder` of a maker, on the rows of its side. */
  function SaveRow(side: Side, rows: seq<Order>, m: Order): seq<Order> {
    if IsActiveRow(m) then InsertSorted(side, RemoveId(rows, m.id), m) else RemoveId(rows, m.id)
  }

  function SaveRows(side: Side, rows: seq<Order>, makers: seq<Order>): seq<Order>
    decreases |makers|
  {
    if makers == [] then rows else SaveRows(side, SaveRow(side, rows, makers[0]), makers[1..])
  }

  /** Trade ids drawn after the first `n`. */
  function After(ids: TradeIds, n: nat): TradeIds {
    (k: nat) => ids(n + k)
  }

  /** The loop from a result reached so far; `clock` gives the time of each batch. */
  function MatchBatches(rows: seq<Order>, r: MatchResult, ids: TradeIds, clock: nat -> int,
                        n: nat): Outcome<MatchResult>
    decreases r.taker.remaining
  {
    var t := ServiceTaker(r.taker);
    var page := Candidates(rows, t, BATCH);
    if r.taker.remaining <= 0 || page == [] then Done(r)
    else
      var matched := MatchLimitSpec(t, page, After(ids, |r.trades|), clock(n));
      if matched.Failed? then Failed(matched.error)
      else
        var next := Extend(r, matched.value);
        if |matched.value.trades| > 0 then
          TradesShrink(t, page, After(ids, |r.trades|), clock(n));
          MatchBatches(SaveRows(Opposite(t.side), rows, matched.value.makers), next, ids, clock, n + 1)
        else if matched.value.taker.status.Expired? then Done(next)
        else Done(r)
  }

  /** A batch added to the result so far; the taker keeps its own limit price. */
  function Extend(r: MatchResult, batch: MatchResult): MatchResult {
    MatchResult(batch.taker.(price := r.taker.price), r.makers + batch.makers, r.trades + batch.trades)
  }

  function Disposed(r: MatchResult): MatchResult {
    r.(taker := Dispose(r.taker, r.taker.price))
  }

  /** What `match` reports. */
  function MatchSpec(rows: seq<Order>, taker: Order, ids: TradeIds, clock: nat -> int): Outcome<MatchResult> {
    match MatchBatches(rows, MatchResult(taker, [], []), ids, clock, 0)
    case Failed(e) => Failed(e)
    case Done(r) => Done(Disposed(r))
  }

  /** One scan over all candidates at once. */
  function WholeMatch(rows: seq<Order>, taker: Order, ids: TradeIds, now: int): Outcome<MatchResult> {
    match MatchLimitSpec(ServiceTaker(taker), AllCandidates(rows, ServiceTaker(taker)), ids, now)
    case Failed(e) => Failed(e)
    case Done(r) => Done(r.(taker := Dispose(r.taker, taker.price)))
  }

  // ---- Progress ----

  lemma {:induction false} ScanShrinks(r: MatchResult, makers: seq<Order>, ids: TradeIds, now: int)
    requires Scan(r, makers, ids, now).Done?
    ensures var o := Scan(r, makers, ids, now).value;
            && |o.trades| >= |r.trades| && o.taker.remaining <= r.taker.remaining
            && (|o.trades| > |r.trades| ==> o.taker.remaining < r.taker.remaining)
    decreases |makers|
  {
    if makers != [] && r.taker.remaining > 0 {
      if EligibleMaker(r.taker, makers[0]) {
        if Decimal.Mul(FillQuantity(r.taker, makers[0]), makers[0].price) > 0 {
          ScanShrinks(Execute(r, makers[0], ids, now), makers[1..], ids, now);
        }
      } else if !(IsSelfTrade(r.taker, makers[0]) && CrossesPrice(r.taker, makers[0])) {
        ScanShrinks(r, makers[1..], ids, now);
      }
    }
  }

  /** A batch with trades leaves its taker strictly less to fill, so the loop ends. */
  lemma TradesShrink(t: Order, makers: seq<Order>, ids: TradeIds, now: int)
    requires MatchLimitSpec(t, makers, ids, now).Done?
    ensures var o := MatchLimitSpec(t, makers, ids, now).value;
            |o.trades| > 0 ==> o.taker.remaining < t.remaining
  {
    ScanShrinks(MatchResult(t, [], []), makers, ids, now);
  }

  // ---- One batch inside the whole scan ----

  /** Equal but for the time stamps. */
  predicate SameOrder(a: Order, b: Order) {
    a == b.(updatedAt := a.updatedAt)
  }

  predicate SameTrade(a: Trade, b: Trade) {
    a == b.(createdAt := a.createdAt)
  }

  ghost predicate SameOrders(a: seq<Order>, b: seq<Order>) {
    |a| == |b| && forall i :: 0 <= i < |a| ==> SameOrder(a[i], b[i])
  }

  ghost predicate SameTrades(a: seq<Trade>, b: seq<Trade>) {
    |a| == |b| && forall i :: 0 <= i < |a| ==> SameTrade(a[i], b[i])
  }

  /** `whole` is `batch` on top of `base`, but for the time stamps. */
  ghost predicate Continues(base: MatchResult, batch: MatchResult, whole: MatchResult) {
    && SameOrder(whole.taker, batch.taker)
    && SameOrders(whole.makers, base.makers + batch.makers)
    && SameTrades(whole.trades, base.trades + batch.trades)
  }

  ghost predicate SameOutcome(base: MatchResult, batch: Outcome<MatchResult>, whole: Outcome<MatchResult>) {
    match (batch, whole)
    case (Failed(e), Failed(f)) => e == f
    case (Done(o), Done(w)) => Continues(base, o, w)
    case _ => false
  }

  lemma ExecuteContinues(base: MatchResult, r: MatchResult, s: MatchResult, maker: Order, ids: TradeIds, now: int,
                         later: int)
    requires Continues(base, r, s)
    ensures Continues(base, Execute(r, maker, After(ids, |base.trades|), now), Execute(s, maker, ids, later))
  {
    var a, b := Execute(r, maker, After(ids, |base.trades|), now), Execute(s, maker, ids, later);
    assert |s.trades| == |base.trades| + |r.trades|;
    assert base.makers + a.makers == (base.makers + r.makers) + [a.makers[|r.makers|]];
    assert base.trades + a.trades == (base.trades + r.trades) + [a.trades[|r.trades|]];
  }

  /** A scan started afresh makes the executions of one that has already reported something. */
  lemma {:induction false} ScanContinues(base: MatchResult, r: MatchResult, s: MatchResult, makers: seq<Order>,
                                         ids: TradeIds, now: int, later: int)
    requires Continues(base, r, s)
    ensures SameOutcome(base, Scan(r, makers, After(ids, |base.trades|), now), Scan(s, makers, ids, later))
    decreases |makers|
  {
    if makers != [] && r.taker.remaining > 0 {
      var m := makers[0];
      if EligibleMaker(r.taker, m) {
        if Decimal.Mul(FillQuantity(r.taker, m), m.price) > 0 {
          ExecuteContinues(base, r, s, m, ids, now, later);
          ScanContinues(base, Execute(r, m, After(ids, |base.trades|), now), Execute(s, m, ids, later), makers[1..],
                        ids, now, later);
        }
      } else if !(IsSelfTrade(r.taker, m) && CrossesPrice(r.taker, m)) {
        ScanContinues(base, r, s, makers[1..], ids, now, later);
      }
    }
  }

  /** Makers a taker crosses; only its own orders among them do not trade. */
  ghost predicate AllCross(t: Order, makers: seq<Order>) {
    forall m :: m in makers ==> CrossesPrice(t, m)
  }

  lemma CrossTail(t: Order, u: Order, makers: seq<Order>)
    requires AllCross(t, makers) && makers != [] && SameTerms(t, u)
    ensures CrossesPrice(t, makers[0]) && AllCross(u, makers[1..])
  {
    assert makers[0] in makers && forall m :: m in makers[1..] ==> m in makers;
  }

  /** The scan of the whole list is the scan, from `front` on, of what `front` has not hit. */
  ghost predicate Resumes(r: MatchResult, makers: seq<Order>, n: nat, front: Outcome<MatchResult>,
                          whole: Outcome<MatchResult>, ids: TradeIds, now: int) {
    if front.Failed? then whole == front
    else
      var k := |front.value.makers| - |r.makers|;
      && 0 <= k <= n <= |makers| && SameTerms(r.taker, front.value.taker)
      && whole == Scan(front.value, makers[k..], ids, now)
  }

  lemma ResumesMore(r: MatchResult, makers: seq<Order>, n: nat, next: MatchResult, front: Outcome<MatchResult>,
                    whole: Outcome<MatchResult>, ids: TradeIds, now: int)
    requires 0 < n <= |makers| && SameTerms(r.taker, next.taker) && |next.makers| == |r.makers| + 1
    requires Resumes(next, makers[1..], n - 1, front, whole, ids, now)
    ensures Resumes(r, makers, n, front, whole, ids, now)
  {
    if front.Done? {
      var k := |front.value.makers| - |next.makers|;
      assert makers[1..][k..] == makers[k + 1..];
    }
  }

  lemma ResumesAtOnce(r: MatchResult, makers: seq<Order>, n: nat, ids: TradeIds, now: int)
    requires n <= |makers|
    ensures Resumes(r, makers, n, Done(r), Scan(r, makers, ids, now), ids, now)
  {
    assert makers[0..] == makers;
  }

  lemma SelfStops(r: MatchResult, makers: seq<Order>, ids: TradeIds, now: int)
    requires makers != [] && r.taker.remaining > 0 && IsSelfTrade(r.taker, makers[0])
    requires CrossesPrice(r.taker, makers[0])
    ensures Scan(r, makers, ids, now) == Done(Expire(r, now))
  {
  }

  /** A scan that meets an order of the taker's own ends there, and would end there again. */
  lemma ResumesAtSelf(r: MatchResult, makers: seq<Order>, n: nat, ids: TradeIds, now: int)
    requires 0 < n <= |makers| && r.taker.remaining > 0
    requires IsSelfTrade(r.taker, makers[0]) && CrossesPrice(r.taker, makers[0])
    ensures Resumes(r, makers, n, Scan(r, makers[..n], ids, now), Scan(r, makers, ids, now), ids, now)
  {
    var o := Expire(r, now);
    assert Expire(o, now) == o && CrossesPrice(o.taker, makers[0]);
    SelfStops(r, makers, ids, now);
    SelfStops(r, makers[..n], ids, now);
    SelfStops(o, makers, ids, now);
    StaysPut(r, makers, n, o, ids, now);
  }

  lemma StaysPut(r: MatchResult, makers: seq<Order>, n: nat, o: MatchResult, ids: TradeIds, now: int)
    requires n <= |makers| && SameTerms(r.taker, o.taker) && |o.makers| == |r.makers|
    ensures Resumes(r, makers, n, Done(o), Scan(o, makers, ids, now), ids, now)
  {
    assert makers[0..] == makers;
  }

  predicate Trading(t: Order, m: Order) {
    EligibleMaker(t, m) && Decimal.Mul(FillQuantity(t, m), m.price) > 0
  }

  lemma ScanTrades(r: MatchResult, makers: seq<Order>, rest: seq<Order>, next: MatchResult, ids: TradeIds, now: int)
    requires makers != [] && r.taker.remaining > 0 && Trading(r.taker, makers[0])
    requires next == Execute(r, makers[0], ids, now) && rest == makers[1..]
    ensures Scan(r, makers, ids, now) == Scan(next, rest, ids, now)
    ensures SameTerms(r.taker, next.taker) && |next.makers| == |r.makers| + 1
  {
  }

  /** A scan of a front of the makers that starts with a trade is the scan of the shorter front behind it. */
  lemma FrontTrades(r: MatchResult, makers: seq<Order>, n: nat, next: MatchResult, ids: TradeIds, now: int)
    requires 0 < n <= |makers| && r.taker.remaining > 0 && Trading(r.taker, makers[0])
    requires next == Execute(r, makers[0], ids, now)
    ensures Scan(r, makers[..n], ids, now) == Scan(next, makers[1..][..n - 1], ids, now)
    ensures Scan(r, makers, ids, now) == Scan(next, makers[1..], ids, now)
    ensures SameTerms(r.taker, next.taker) && |next.makers| == |r.makers| + 1
  {
    var page, left := makers[..n], makers[1..][..n - 1];
    assert page[1..] == left && page[0] == makers[0];
    ScanTrades(r, makers, makers[1..], next, ids, now);
    ScanTrades(r, page, left, next, ids, now);
  }

  lemma ResumesWithoutTrade(r: MatchResult, makers: seq<Order>, n: nat, ids: TradeIds, now: int)
    requires n <= |makers| && (n > 0 ==> CrossesPrice(r.taker, makers[0]))
    requires n == 0 || r.taker.remaining <= 0 || !Trading(r.taker, makers[0])
    ensures Resumes(r, makers, n, Scan(r, makers[..n], ids, now), Scan(r, makers, ids, now), ids, now)
  {
    if n == 0 || r.taker.remaining <= 0 {
      ResumesAtOnce(r, makers, n, ids, now);
    } else if IsSelfTrade(r.taker, makers[0]) {
      ResumesAtSelf(r, makers, n, ids, now);
    }
  }

  /** A scan hits a front of its makers and goes on from there, whether it stopped for a self-trade, ran out of makers
      or filled the taker. */
  lemma {:induction false} ScanResumes(r: MatchResult, makers: seq<Order>, n: nat, ids: TradeIds, now: int)
    requires n <= |makers| && AllCross(r.taker, makers)
    ensures Resumes(r, makers, n, Scan(r, makers[..n], ids, now), Scan(r, makers, ids, now), ids, now)
    decreases n
  {
    var trades := n > 0 && r.taker.remaining > 0 && Trading(r.taker, makers[0]);
    if n > 0 {
      CrossTail(r.taker, r.taker, makers);
    }
    if trades {
      var next := Execute(r, makers[0], ids, now);
      CrossTail(r.taker, next.taker, makers);
      ScanResumes(next, makers[1..], n - 1, ids, now);
      FrontTrades(r, makers, n, next, ids, now);
      ResumesMore(r, makers, n, next, Scan(r, makers[..n], ids, now), Scan(r, makers, ids, now), ids, now);
    } else {
      ResumesWithoutTrade(r, makers, n, ids, now);
    }
  }

  /** What a scan of crossing makers reports: an execution of each of a front of them, whole unless the taker is
      filled. */
  ghost predicate Hits(r: MatchResult, makers: seq<Order>, o: MatchResult) {
    var k := |o.makers| - |r.makers|;
    && 0 <= k <= |makers| && |o.trades| == |r.trades| + k
    && (forall i :: 0 <= i < k ==> HitsWholly(makers[i], o.makers[|r.makers| + i], o.taker.remaining > 0))
    && (o.taker.remaining > 0 && k > 0 ==> o.taker.status.PartiallyFilled? || o.taker.status.Expired?)
    && (k == 0 ==> o.taker.remaining == r.taker.remaining)
    && (o.taker.remaining > 0 && k < |makers| ==> o.taker.status.Expired? && IsSelfTrade(o.taker, makers[k]))
  }

  predicate HitsWholly(maker: Order, m: Order, whole: bool) {
    m.id == maker.id && (whole ==> m.status.Filled?)
  }

  lemma HitsMore(r: MatchResult, makers: seq<Order>, next: MatchResult, o: MatchResult)
    requires makers != [] && Hits(next, makers[1..], o) && next.makers <= o.makers
    requires |next.makers| == |r.makers| + 1 && |next.trades| == |r.trades| + 1
    requires next.makers[|r.makers|].id == makers[0].id && o.taker.remaining <= next.taker.remaining
    requires next.taker.remaining > 0 ==> next.makers[|r.makers|].status.Filled? && next.taker.status.PartiallyFilled?
    requires |o.makers| == |next.makers| && o.taker.remaining > 0 ==>
               o.taker.status == next.taker.status || o.taker.status.Expired?
    ensures Hits(r, makers, o)
  {
    assert o.makers[|r.makers|] == next.makers[|r.makers|];
    forall i | 0 <= i < |o.makers| - |r.makers|
      ensures HitsWholly(makers[i], o.makers[|r.makers| + i], o.taker.remaining > 0)
    {
      if i > 0 {
        assert HitsWholly(makers[1..][i - 1], o.makers[|next.makers| + (i - 1)], o.taker.remaining > 0);
      }
    }
  }

  lemma {:induction false} ScanHits(r: MatchResult, makers: seq<Order>, ids: TradeIds, now: int)
    requires AllCross(r.taker, makers) && Scan(r, makers, ids, now).Done?
    ensures var o := Scan(r, makers, ids, now).value;
            && Hits(r, makers, o) && r.makers <= o.makers
            && (o.makers == r.makers ==> o.taker.status == r.taker.status || o.taker.status.Expired?)
    decreases |makers|
  {
    if makers != [] && r.taker.remaining > 0 {
      var m, rest := makers[0], makers[1..];
      var next := Execute(r, m, ids, now);
      CrossTail(r.taker, next.taker, makers);
      if EligibleMaker(r.taker, m) {
        ScanHits(next, rest, ids, now);
        ScanShrinks(next, rest, ids, now);
        HitsMore(r, makers, next, Scan(next, rest, ids, now).value);
      }
    }
  }

  // ---- The rows a batch leaves ----

  /** Rows have ids, no two the same. */
  ghost predicate Keyed(rows: seq<Order>) {
    && (forall o :: o in rows ==> o.id != "")
    && forall i, j :: 0 <= i < j < |rows| ==> rows[i].id != rows[j].id
  }

  lemma {:induction false} CandidatesCross(rows: seq<Order>, t: Order)
    requires Keyed(rows) && !t.side.OtherSide?
    ensures AllCross(t, AllCandidates(rows, t)) && Keyed(AllCandidates(rows, t))
    ensures forall m :: m in AllCandidates(rows, t) ==> m in rows
  {
    if rows != [] {
      KeyedTail(rows);
      assert rows[0] in rows;
      CandidatesCross(rows[1..], t);
    }
  }

  lemma {:induction false} RemoveKeepsKeyed(rows: seq<Order>, id: string)
    requires Keyed(rows)
    ensures Keyed(RemoveId(rows, id))
  {
    if rows != [] {
      KeyedTail(rows);
      RemoveKeepsKeyed(rows[1..], id);
      RemoveMembers(rows[1..], id);
      assert rows[0] in rows;
    }
  }

  lemma KeyedTail(rows: seq<Order>)
    requires Keyed(rows) && rows != []
    ensures Keyed(rows[1..]) && forall m :: m in rows[1..] ==> m in rows && m.id != rows[0].id
  {
    forall m | m in rows[1..] ensures m in rows && m.id != rows[0].id {
      var i :| 0 <= i < |rows[1..]| && rows[1..][i] == m;
      assert rows[i + 1] == m;
    }
  }

  lemma {:induction false} CandidatesWithout(rows: seq<Order>, t: Order, id: string)
    ensures AllCandidates(RemoveId(rows, id), t) == RemoveId(AllCandidates(rows, t), id)
  {
    if rows != [] {
      CandidatesWithout(rows[1..], t, id);
      var all, rest := AllCandidates(rows[1..], t), RemoveId(rows[1..], id);
      assert ([rows[0]] + all)[1..] == all && ([rows[0]] + rest)[1..] == rest;
    }
  }

  lemma RemoveFirst(q: seq<Order>)
    requires Keyed(q) && q != []
    ensures RemoveId(q, q[0].id) == q[1..]
  {
    RemoveAbsent(q[1..], q[0].id);
  }

  /** Saving makers that were filled drops them from the front of the candidates. */
  lemma {:induction false} CandidatesLeft(side: Side, rows: seq<Order>, t: Order, makers: seq<Order>)
    requires Keyed(rows) && !t.side.OtherSide? && |makers| <= |AllCandidates(rows, t)|
    requires forall i :: 0 <= i < |makers| ==> HitsWholly(AllCandidates(rows, t)[i], makers[i], true)
    ensures AllCandidates(SaveRows(side, rows, makers), t) == AllCandidates(rows, t)[|makers|..]
    ensures Keyed(SaveRows(side, rows, makers))
    decreases |makers|
  {
    if makers != [] {
      var all := AllCandidates(rows, t);
      assert HitsWholly(all[0], makers[0], true);
      CandidatesCross(rows, t);
      CandidatesWithout(rows, t, makers[0].id);
      RemoveKeepsKeyed(rows, makers[0].id);
      RemoveFirst(all);
      var rest := SaveRow(side, rows, makers[0]);
      forall i | 0 <= i < |makers[1..]| ensures HitsWholly(AllCandidates(rest, t)[i], makers[1..][i], true) {
        assert HitsWholly(all[i + 1], makers[i + 1], true);
      }
      CandidatesLeft(side, rest, t, makers[1..]);
    }
  }

  lemma {:induction false} CandidatesIgnoreFill(rows: seq<Order>, t: Order, u: Order)
    requires u.id == t.id && u.market == t.market && u.side == t.side && u.price == t.price
    ensures AllCandidates(rows, u) == AllCandidates(rows, t)
  {
    if rows != [] {
      CandidatesIgnoreFill(rows[1..], t, u);
    }
  }

  // ---- The theorem ----

  /** The outcomes of the loop and of the scan, whose taker carries its effective price. */
  ghost predicate Agree(price: int, batched: Outcome<MatchResult>, whole: Outcome<MatchResult>) {
    match (batched, whole)
    case (Failed(e), Failed(f)) => e == f
    case (Done(b), Done(w)) =>
      && SameOrder(w.taker.(price := price), b.taker) && b.taker.price == price
      && SameOrders(w.makers, b.makers) && SameTrades(w.trades, b.trades)
    case _ => false
  }

  /** The result so far, as the scan sees it. */
  ghost predicate Reached(r: MatchResult, s: MatchResult) {
    && SameOrder(s.taker, ServiceTaker(r.taker))
    && SameOrders(s.makers, r.makers) && SameTrades(s.trades, r.trades)
  }

  /** A page on top of the result so far reaches what the scan of the page does. */
  lemma PageReaches(r: MatchResult, s: MatchResult, page: seq<Order>, ids: TradeIds, now: int, later: int)
    requires Reached(r, s) && AllCross(s.taker, page)
    ensures var t := ServiceTaker(r.taker);
            var batch := Scan(MatchResult(t, [], []), page, After(ids, |r.trades|), now);
            var whole := Scan(s, page, ids, later);
            && (batch.Failed? ==> whole == batch)
            && (batch.Done? ==>
                  && whole.Done? && Hits(MatchResult(t, [], []), page, batch.value)
                  && |whole.value.makers| == |s.makers| + |batch.value.makers|
                  && SameTerms(t, batch.value.taker)
                  && Reached(Extend(r, batch.value), whole.value))
  {
    var first := MatchResult(ServiceTaker(r.taker), [], []);
    assert r.makers + [] == r.makers && r.trades + [] == r.trades;
    ScanContinues(r, first, s, page, ids, now, later);
    assert AllCross(first.taker, page);
    assert page[..|page|] == page;
    ScanResumes(first, page, |page|, After(ids, |r.trades|), now);
    if Scan(first, page, After(ids, |r.trades|), now).Done? {
      ScanHits(first, page, After(ids, |r.trades|), now);
    }
  }

  /** The rows after a page that left its taker unfilled: its hits are gone, everything else is still a candidate. */
  lemma RowsLeft(rows: seq<Order>, r: MatchResult, page: seq<Order>, o: MatchResult)
    requires var t := ServiceTaker(r.taker);
             && Keyed(rows) && !t.side.OtherSide? && page == Candidates(rows, t, BATCH)
             && Hits(MatchResult(t, [], []), page, o) && o.taker.remaining > 0 && SameTerms(t, o.taker)
    ensures var t := ServiceTaker(r.taker); var left := SaveRows(Opposite(t.side), rows, o.makers);
            && Keyed(left) && |o.makers| <= |AllCandidates(rows, t)|
            && AllCandidates(left, ServiceTaker(Extend(r, o).taker)) == AllCandidates(rows, t)[|o.makers|..]
  {
    var t := ServiceTaker(r.taker);
    var all, left := AllCandidates(rows, t), SaveRows(Opposite(t.side), rows, o.makers);
    forall i | 0 <= i < |o.makers| ensures HitsWholly(all[i], o.makers[i], true) {
      assert HitsWholly(page[i], o.makers[0 + i], true);
    }
    CandidatesLeft(Opposite(t.side), rows, t, o.makers);
    CandidatesIgnoreFill(left, t, ServiceTaker(Extend(r, o).taker));
  }

  /** A taker that traded, or met its own order, is not reopened. */
  lemma ReopenKeeps(r: MatchResult, makers: seq<Order>, o: MatchResult)
    requires Hits(r, makers, o) && makers != []
    ensures Reopen(o.taker) == o.taker
  {
  }

  lemma AllCandidatesCross(rows: seq<Order>, t: Order, u: Order)
    requires Keyed(rows) && !t.side.OtherSide? && SameOrder(u, t)
    ensures AllCross(u, AllCandidates(rows, t)) && AllCross(u, Candidates(rows, t, BATCH))
  {
    CandidatesCross(rows, t);
    assert forall m :: m in Candidates(rows, t, BATCH) ==> m in AllCandidates(rows, t);
  }

  /** One round of the loop: the scan of everything fails with it, ends with it, or goes on with what it leaves. */
  lemma Round(rows: seq<Order>, r: MatchResult, s: MatchResult, ids: TradeIds, now: int, later: int)
    requires var t := ServiceTaker(r.taker);
             && Keyed(rows) && !t.side.OtherSide? && Reached(r, s)
             && r.taker.remaining > 0 && Candidates(rows, t, BATCH) != []
    ensures var t := ServiceTaker(r.taker); var all, page := AllCandidates(rows, t), Candidates(rows, t, BATCH);
            var batch := Scan(MatchResult(t, [], []), page, After(ids, |r.trades|), now);
            && (batch.Failed? ==> Scan(s, all, ids, later) == batch)
            && (batch.Done? ==>
                  var o := batch.value; var w := Scan(s, page, ids, later);
                  && Reopen(o.taker) == o.taker && SameTerms(t, o.taker) && |o.makers| <= |all|
                  && w.Done? && Reached(Extend(r, o), w.value)
                  && Scan(s, all, ids, later) == Scan(w.value, all[|o.makers|..], ids, later)
                  && Hits(MatchResult(t, [], []), page, o))
  {
    var t := ServiceTaker(r.taker);
    var all, page := AllCandidates(rows, t), Candidates(rows, t, BATCH);
    assert page == all[..|page|];
    AllCandidatesCross(rows, t, s.taker);
    PageReaches(r, s, page, ids, now, later);
    ScanResumes(s, all, |page|, ids, later);
    var batch, whole := Scan(MatchResult(t, [], []), page, After(ids, |r.trades|), now), Scan(s, page, ids, later);
    assert Resumes(s, all, |page|, whole, Scan(s, all, ids, later), ids, later);
    if batch.Done? {
      ReopenKeeps(MatchResult(t, [], []), page, batch.value);
    }
  }

  /** A round after which the loop stops: the scan stops there too. */
  lemma RoundEnds(rows: seq<Order>, r: MatchResult, o: MatchResult, w: MatchResult, ids: TradeIds, now: int)
    requires var t := ServiceTaker(r.taker);
             && Keyed(rows) && !t.side.OtherSide? && r.taker.remaining > 0 && Candidates(rows, t, BATCH) != []
             && Hits(MatchResult(t, [], []), Candidates(rows, t, BATCH), o) && SameTerms(t, o.taker)
             && Reached(Extend(r, o), w) && |o.makers| <= |AllCandidates(rows, t)|
             && (|o.trades| == 0 || o.taker.remaining <= 0)
    ensures var t := ServiceTaker(r.taker);
            Agree(r.taker.price, Done(Extend(r, o)), Scan(w, AllCandidates(rows, t)[|o.makers|..], ids, now))
    ensures |o.trades| == 0 ==> o.taker.status.Expired?
  {
    var t := ServiceTaker(r.taker);
    var all, page := AllCandidates(rows, t), Candidates(rows, t, BATCH);
    CandidatesCross(rows, t);
    if o.taker.remaining > 0 {
      assert page[0] == all[0] && all[0] in all && all[0..] == all;
      assert IsSelfTrade(w.taker, all[0]) && CrossesPrice(w.taker, all[0]);
      SelfStops(w, all, ids, now);
      assert SameOrder(Expire(w, now).taker, w.taker);
    }
  }

  /** The loop stands for the scan of all candidates, from any result reached so far. */
  lemma {:induction false} BatchesAreOneScan(rows: seq<Order>, r: MatchResult, s: MatchResult, ids: TradeIds,
                                             clock: nat -> int, n: nat, now: int)
    requires Keyed(rows) && ValidateTaker(ServiceTaker(r.taker).(remaining := 1)).None?
    requires Reached(r, s)
    ensures Agree(r.taker.price, MatchBatches(rows, r, ids, clock, n),
                  Scan(s, AllCandidates(rows, ServiceTaker(r.taker)), ids, now))
    decreases r.taker.remaining
  {
    var t := ServiceTaker(r.taker);
    var page := Candidates(rows, t, BATCH);
    if r.taker.remaining > 0 && page != [] {
      Round(rows, r, s, ids, clock(n), now);
      var batch := Scan(MatchResult(t, [], []), page, After(ids, |r.trades|), clock(n));
      if batch.Done? {
        var o, w := batch.value, Scan(s, page, ids, now).value;
        if |o.trades| > 0 && o.taker.remaining > 0 {
          RowsLeft(rows, r, page, o);
          TradesShrink(t, page, After(ids, |r.trades|), clock(n));
          BatchesAreOneScan(SaveRows(Opposite(t.side), rows, o.makers), Extend(r, o), w, ids, clock, n + 1, now);
        } else {
          RoundEnds(rows, r, o, w, ids, now);
        }
      }
    }
  }

  /** Batched matching is transparent: but for time stamps, the loop over pages of 500 candidates reports the trades,
      the makers and the taker of one `MatchLimit` over all candidates, and fails exactly when that does. */
  lemma BatchedIsWhole(rows: seq<Order>, taker: Order, ids: TradeIds, clock: nat -> int, now: int)
    requires Keyed(rows) && ValidateTaker(ServiceTaker(taker)).None?
    ensures match (MatchSpec(rows, taker, ids, clock), WholeMatch(rows, taker, ids, now))
            case (Failed(e), Failed(f)) => e == f
            case (Done(b), Done(w)) =>
              SameOrder(w.taker, b.taker) && SameOrders(w.makers, b.makers) && SameTrades(w.trades, b.trades)
            case _ => false
  {
    var r, s := MatchResult(taker, [], []), MatchResult(ServiceTaker(taker), [], []);
    BatchesAreOneScan(rows, r, s, ids, clock, 0, now);
  }

  // ---- The loop of the source ----

  lemma {:induction false} SaveRowsSplit(side: Side, rows: seq<Order>, a: seq<Order>, b: seq<Order>)
    ensures SaveRows(side, rows, a + b) == SaveRows(side, SaveRows(side, rows, a), b)
    decreases |a|
  {
    if a == [] {
      assert a + b == b;
    } else {
      assert (a + b)[1..] == a[1..] + b;
      SaveRowsSplit(side, SaveRow(side, rows, a[0]), a[1..], b);
    }
  }

  /** The loop of `match`: pages of candidates until the taker is filled, meets an order of its own, or nothing crosses
      it. `left` are the rows of the other side afterwards. */
  method MatchPages(rows: seq<Order>, taker: Order, ids: TradeIds, clock: nat -> int)
    returns (out: Outcome<MatchResult>, left: seq<Order>)
    ensures out == MatchBatches(rows, MatchResult(taker, [], []), ids, clock, 0)
    ensures out.Done? ==> left == SaveRows(Opposite(taker.side), rows, out.value.makers)
  {
    var r := MatchResult(taker, [], []);
    var n := 0;
    left := rows;
    ghost var whole := MatchBatches(rows, r, ids, clock, 0);
    while r.taker.remaining > 0
      invariant r.taker.side == taker.side
      invariant MatchBatches(left, r, ids, clock, n) == whole
      invariant left == SaveRows(Opposite(taker.side), rows, r.makers)
      decreases r.taker.remaining
    {
      var t := ServiceTaker(r.taker);
      var page := Candidates(left, t, BATCH);
      if |page| == 0 {
        return Done(r), left;
      }
      var batch := MatchLimit(t, page, After(ids, |r.trades|), clock(n));
      if batch.Failed? {
        return batch, left;
      }
      var next := Extend(r, batch.value);
      TermsKept(r, page, After(ids, |r.trades|), clock(n));
      if |batch.value.trades| == 0 {
        return Done(if batch.value.taker.status.Expired? then next else r), left;
      }
      left := SaveMakers(Opposite(t.side), left, batch.value.makers);
      SaveRowsSplit(Opposite(t.side), rows, r.makers, batch.value.makers);
      r, n := next, n + 1;
    }
    out := Done(r);
  }

  /** `match`: the loop, then the status of what is left of the taker. */
  method Match(rows: seq<Order>, taker: Order, ids: TradeIds, clock: nat -> int)
    returns (out: Outcome<MatchResult>, left: seq<Order>)
    ensures out == MatchSpec(rows, taker, ids, clock)
    ensures out.Done? ==> left == SaveRows(Opposite(taker.side), rows, out.value.makers)
  {
    out, left := MatchPages(rows, taker, ids, clock);
    if out.Failed? {
      return;
    }
    var r := out.value;
    if r.taker.remaining > 0 && IsImmediateOnly(r.taker) {
      r := r.(taker := r.taker.(status := Expired));
    } else if r.taker.remaining > 0 && !r.taker.status.PartiallyFilled? && !r.taker.status.Expired? {
      r := r.(taker := r.taker.(status := Open));
    }
    out := Done(r);
  }

  method SaveMakers(side: Side, rows: seq<Order>, makers: seq<Order>) returns (left: seq<Order>)
    ensures left == SaveRows(side, rows, makers)
  {
    left := rows;
    var i := 0;
    assert makers[0..] == makers;
    while i < |makers|
      invariant 0 <= i <= |makers| && SaveRows(side, left, makers[i..]) == SaveRows(side, rows, makers)
    {
      assert makers[i..][1..] == makers[i + 1..];
      left := SaveRow(side, left, makers[i]);
      i := i + 1;
    }
  }

  lemma {:induction false} ScanKeepsTerms(r: MatchResult, makers: seq<Order>, ids: TradeIds, now: int)
    requires Scan(r, makers, ids, now).Done?
    ensures var o := Scan(r, makers, ids, now).value;
            SameTerms(r.taker, o.taker) && (|o.trades| == |r.trades| ==> o.makers == r.makers)
    ensures |Scan(r, makers, ids, now).value.trades| >= |r.trades|
    decreases |makers|
  {
    if makers != [] && r.taker.remaining > 0 {
      if EligibleMaker(r.taker, makers[0]) {
        if Decimal.Mul(FillQuantity(r.taker, makers[0]), makers[0].price) > 0 {
          ScanKeepsTerms(Execute(r, makers[0], ids, now), makers[1..], ids, now);
        }
      } else if !(IsSelfTrade(r.taker, makers[0]) && CrossesPrice(r.taker, makers[0])) {
        ScanKeepsTerms(r, makers[1..], ids, now);
      }
    }
  }

  /** A batch leaves the taker its terms, and strictly less to fill if it traded at all. */
  lemma TermsKept(r: MatchResult, page: seq<Order>, ids: TradeIds, now: int)
    requires MatchLimitSpec(ServiceTaker(r.taker), page, ids, now).Done?
    ensures var o := MatchLimitSpec(ServiceTaker(r.taker), page, ids, now).value;
            && Extend(r, o).taker.side == r.taker.side
            && (|o.trades| == 0 ==> Extend(r, o).makers == r.makers)
            && (|o.trades| > 0 ==> Extend(r, o).taker.remaining < r.taker.remaining)
  {
    var t := ServiceTaker(r.taker);
    ScanKeepsTerms(MatchResult(t, [], []), page, ids, now);
    TradesShrink(t, page, ids, now);
  }
}
