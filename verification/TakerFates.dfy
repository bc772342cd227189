/** What becomes of a taker and what its trades carry, in the fields of the orders alone: internal/core/matching/book.go
    and internal/core/matching/engine.go. */
module TakerFates {
  import opened Orders
  import opened Engine
  import opened Priority
  import opened BookSpec
  import opened Sweeping
  import opened MatchingLaws
  import Decimal

  /** A price within the taker's limit; a market sell without a limit takes any. */
  predicate Reaches(t: Order, price: int) {
    if t.side.Buy? then price <= t.price
    else price >= t.price || (t.kind.Market? && t.price <= 0)
  }

  predicate SameUser(t: Order, o: Order) {
    t.userId != "" && o.userId == t.userId
  }

  /** The other side offers the taker nothing more: it is empty, beyond the limit, or the taker's own order is next. */
  predicate Exhausted(t: Order, q: seq<Order>) {
    q == [] || !Reaches(t, q[0].price) || SameUser(t, q[0])
  }

  // ---- Acceptance ----

  /** One of the two is unknown, or they are the same, and at least one is known. */
  predicate Agreeable(named: string, expected: string) {
    if named == "" then expected != "" else expected == "" || named == expected
  }

  /** A taker the book may match. */
  ghost predicate Acceptable(c: Config, v: View, t: Order) {
    && t.id != "" && (forall o :: Has(v, o) ==> o.id != t.id)
    && Agreeable(t.market, c.market) && Agreeable(t.baseAsset, c.baseAsset) && Agreeable(t.quoteAsset, c.quoteAsset)
    && (t.side.Buy? || t.side.Sell?) && t.remaining > 0
    && (t.price > 0 || (t.kind.Market? && t.side.Sell?))
  }

  /** `Apply` refuses exactly the other takers, and then leaves the book alone; an acceptable one fails for a quote
      amount below the supported precision and for nothing else. */
  lemma AcceptedIff(c: Config, issued: map<string, nat>, v: View, taker: Order, ids: TradeIds, now: int)
    requires WF(c, issued, v)
    ensures var a := ApplySpec(c, v, taker, ids, now);
            && (Acceptable(c, v, taker) <==> a.outcome.Done? || a.outcome.error == QuoteBelowPrecision)
            && (!Acceptable(c, v, taker) ==> a.view == v)
  {
    assert Acceptable(c, v, taker) <==> Refusal(c, v, taker).None?;
    if Refusal(c, v, taker).None? {
      var t := Prepared(c, taker);
      SweepFailure(MatchResult(t, [], []), v.On(Opposite(t.side)), ids, now);
    }
  }

  lemma {:induction false} SweepFailure(r: MatchResult, q: seq<Order>, ids: TradeIds, now: int)
    ensures Sweep(r, q, ids, now).SweepFailed? ==> Sweep(r, q, ids, now).error == QuoteBelowPrecision
    decreases |q|, r.taker.remaining
  {
    if Trades(r, q) {
      SweepFailure(Execute(r, q[0], ids, now), AfterHit(q, HitMaker(r, q, now)), ids, now);
    }
  }

  /** An order the book may hold. */
  ghost predicate Holdable(c: Config, v: View, o: Order) {
    && o.id != "" && (forall x :: Has(v, x) ==> x.id != o.id)
    && (o.market == "" || o.market == c.market)
    && (o.baseAsset == "" || c.baseAsset == "" || o.baseAsset == c.baseAsset)
    && (o.quoteAsset == "" || c.quoteAsset == "" || o.quoteAsset == c.quoteAsset)
    && (o.side.Buy? || o.side.Sell?) && !o.kind.Market? && o.price > 0 && o.remaining > 0
    && (o.status.Open? || o.status.PartiallyFilled? || o.status.UnsetStatus?)
  }

  /** Booking accepts exactly the orders that may rest, and puts them on their side. */
  lemma BookedIff(c: Config, issued: map<string, nat>, v: View, o: Order)
    requires WF(c, issued, v)
    ensures var n := InsertSpec(c, v, o);
            && (n.error.None? <==> Holdable(c, v, o))
            && (n.error.Some? ==> n.view == v)
            && (n.error.None? ==>
                  && Normalize(c, o) in n.view.On(o.side) && n.view.On(Opposite(o.side)) == v.On(Opposite(o.side))
                  && forall x :: Has(n.view, x) <==> Has(v, x) || x == Normalize(c, o))
  {
    InsertMembers(o.side, v.On(o.side), Normalize(c, o));
  }

  /** What is left out of an order is filled in: a limit order, good till cancelled, open, in the market of the book. */
  lemma NormalizedIs(c: Config, o: Order)
    ensures var n := Normalize(c, o);
            && n == o.(kind := n.kind, timeInForce := n.timeInForce, status := n.status, market := n.market,
                       baseAsset := n.baseAsset, quoteAsset := n.quoteAsset)
            && (n.kind.Limit? <==> o.kind.Limit? || o.kind.UnsetKind?) && (n.kind.Market? <==> o.kind.Market?)
            && (n.timeInForce.IOC? <==> o.timeInForce.IOC?) && !n.timeInForce.UnsetTimeInForce?
            && (n.status.Open? <==> o.status.Open? || o.status.UnsetStatus?)
            && (!o.status.UnsetStatus? ==> n.status == o.status)
            && n.market == (if o.market != "" then o.market else c.market)
            && n.baseAsset == (if o.baseAsset != "" then o.baseAsset else c.baseAsset)
            && n.quoteAsset == (if o.quoteAsset != "" then o.quoteAsset else c.quoteAsset)
  {
  }

  /** The order in which a book is matched: bids from the highest price down, asks from the lowest up, and at one price
      the earlier sequence first. */
  lemma MatchedInOrder(c: Config, issued: map<string, nat>, v: View, i: nat, j: nat)
    requires WF(c, issued, v) && i < j
    ensures j < |v.bids| ==>
              v.bids[i].price > v.bids[j].price ||
              (v.bids[i].price == v.bids[j].price && v.bids[i].sequence < v.bids[j].sequence)
    ensures j < |v.asks| ==>
              v.asks[i].price < v.asks[j].price ||
              (v.asks[i].price == v.asks[j].price && v.asks[i].sequence < v.asks[j].sequence)
  {
    assert j < |v.bids| ==> Before(Buy, v.bids[i], v.bids[j]);
    assert j < |v.asks| ==> Before(Sell, v.asks[i], v.asks[j]);
  }

  // ---- The end of a taker ----

  /** Where a sweep stops: with the taker filled, or with nothing more on offer. */
  predicate Stops(r: MatchResult, q: seq<Order>, out: Swept) {
    && out.Swept? && out.result.taker.remaining >= 0
    && (out.result.taker.remaining > 0 ==> Exhausted(r.taker, out.rest))
    && (out.selfTrade <==>
          out.result.taker.remaining > 0 && out.rest != [] && Reaches(r.taker, out.rest[0].price))
  }

  /** A queue of orders of the other side, as they rest. */
  ghost predicate Opposed(c: Config, issued: map<string, nat>, t: Order, q: seq<Order>) {
    && !t.side.OtherSide? && t.market == c.market && c.market != ""
    && SideOk(c, issued, Opposite(t.side), q) && forall o :: o in q ==> o.id != t.id
  }

  lemma {:induction false} SweepStops(c: Config, issued: map<string, nat>, r: MatchResult, q: seq<Order>, ids: TradeIds,
                                      now: int)
    requires Opposed(c, issued, r.taker, q) && r.taker.remaining >= 0 && Sweep(r, q, ids, now).Swept?
    ensures Stops(r, q, Sweep(r, q, ids, now))
    decreases |q|, r.taker.remaining
  {
    if Trades(r, q) {
      var maker, next := HitMaker(r, q, now), Execute(r, q[0], ids, now);
      if maker.status.Filled? {
        assert forall o :: o in q[1..] ==> o in q;
        SweepStops(c, issued, next, q[1..], ids, now);
      }
    } else if q != [] {
      assert q[0] in q;
    }
  }

  /** What is left of a taker, by its kind and time in force. */
  ghost predicate Fate(t: Order, o: Order, traded: bool, view: View) {
    var q := view.On(Opposite(t.side));
    var blocked := q != [] && Reaches(t, q[0].price);
    && o.remaining >= 0 && (o.remaining > 0 ==> Exhausted(t, q))
    && (if o.remaining == 0 then o.status.Filled?
        else if t.kind.Market? || t.timeInForce.IOC? || blocked then o.status.Expired?
        else o.status == if traded then PartiallyFilled else Open)
    && (if o.remaining > 0 && !t.kind.Market? && !t.timeInForce.IOC? && !blocked then o in view.On(t.side)
        else !HasId(view, t.id))
  }

  /** A taker trades until it is filled, the next price is beyond its limit or the next order its own. What is left of
      it rests, open or partially filled, if it is a limit order that may wait and met no order of its own; otherwise
      it expires and nothing of it stays in the book. */
  lemma ApplyFate(c: Config, issued: map<string, nat>, v: View, taker: Order, ids: TradeIds, now: int)
    requires WF(c, issued, v) && Ticketed(issued, taker) && ApplySpec(c, v, taker, ids, now).outcome.Done?
    ensures var a := ApplySpec(c, v, taker, ids, now); var r := a.outcome.value;
            Fate(taker, r.taker, r.trades != [], a.view)
  {
    var t := Prepared(c, taker);
    var r, side := MatchResult(t, [], []), Opposite(t.side);
    var a := ApplySpec(c, v, taker, ids, now);
    AcceptedIsReady(c, issued, v, taker);
    assert forall o :: o in v.On(side) ==> Has(v, o);
    SweepStops(c, issued, r, v.On(side), ids, now);
    SweepSelfTrade(r, v.On(side), ids, now);
    SweepExtends(r, v.On(side), ids, now);
    SweepEffect(c, issued, v, side, r, ids, now);
    var out := Sweep(r, v.On(side), ids, now);
    var w, o := v.With(side, out.rest), a.outcome.value.taker;
    BookedOrNot(c, issued, w, o);
  }

  lemma BookedOrNot(c: Config, issued: map<string, nat>, w: View, o: Order)
    requires !HasId(w, o.id) && !o.side.OtherSide?
    ensures Book(w, o).On(Opposite(o.side)) == w.On(Opposite(o.side))
    ensures if !o.kind.Market? && (o.status.Open? || o.status.PartiallyFilled?) &&
              o.remaining > 0 then o in Book(w, o).On(o.side)
            else !HasId(Book(w, o), o.id)
  {
    InsertMembers(o.side, w.On(o.side), o);
  }

  // ---- What trades carry ----

  /** The k-th trade carries the k-th id drawn, and is stamped k microseconds after the start. */
  ghost predicate Drawn(trades: seq<Trade>, ids: TradeIds, now: int) {
    forall k :: 0 <= k < |trades| ==> trades[k].id == ids(k) && trades[k].createdAt == now + 1000 * k
  }

  lemma DrawnMore(r: MatchResult, maker: Order, ids: TradeIds, now: int)
    requires Drawn(r.trades, ids, now)
    ensures Drawn(Execute(r, maker, ids, now).trades, ids, now)
  {
  }

  lemma {:induction false} SweepDraws(r: MatchResult, q: seq<Order>, ids: TradeIds, now: int)
    requires Drawn(r.trades, ids, now) && Sweep(r, q, ids, now).Swept?
    ensures Drawn(Sweep(r, q, ids, now).result.trades, ids, now)
    decreases |q|, r.taker.remaining
  {
    if Trades(r, q) {
      DrawnMore(r, q[0], ids, now);
      SweepDraws(Execute(r, q[0], ids, now), AfterHit(q, HitMaker(r, q, now)), ids, now);
    }
  }

  lemma ApplyDraws(c: Config, v: View, taker: Order, ids: TradeIds, now: int)
    requires ApplySpec(c, v, taker, ids, now).outcome.Done?
    ensures Drawn(ApplySpec(c, v, taker, ids, now).outcome.value.trades, ids, now)
  {
    var t := Prepared(c, taker);
    SweepDraws(MatchResult(t, [], []), v.On(Opposite(t.side)), ids, now);
  }

  lemma {:induction false} ScanDraws(r: MatchResult, makers: seq<Order>, ids: TradeIds, now: int)
    requires Drawn(r.trades, ids, now) && Scan(r, makers, ids, now).Done?
    ensures Drawn(Scan(r, makers, ids, now).value.trades, ids, now)
    decreases |makers|
  {
    if makers != [] && r.taker.remaining > 0 {
      if EligibleMaker(r.taker, makers[0]) {
        DrawnMore(r, makers[0], ids, now);
        ScanDraws(Execute(r, makers[0], ids, now), makers[1..], ids, now);
      } else if !(IsSelfTrade(r.taker, makers[0]) && CrossesPrice(r.taker, makers[0])) {
        ScanDraws(r, makers[1..], ids, now);
      }
    }
  }

  lemma MatchLimitDraws(taker: Order, makers: seq<Order>, ids: TradeIds, now: int)
    requires MatchLimitSpec(taker, makers, ids, now).Done?
    ensures Drawn(MatchLimitSpec(taker, makers, ids, now).value.trades, ids, now)
  {
    ScanDraws(MatchResult(taker, [], []), makers, ids, now);
  }

  // ---- What a trade does to its maker and its taker ----

  /** `o` is the maker `m` after the trade `x` with the taker `t`. */
  predicate Reduced(m: Order, o: Order, x: Trade, t: Order, now: int) {
    && 0 < x.quantity <= m.remaining
    && o == m.(filled := m.filled + x.quantity, remaining := m.remaining - x.quantity,
               status := if x.quantity == m.remaining then Filled else PartiallyFilled, updatedAt := now)
    && x.makerOrderId == m.id && x.makerUserId == m.userId && x.takerOrderId == t.id && x.takerUserId == t.userId
    && x.takerSide == t.side && x.market == t.market && x.baseAsset == t.baseAsset && x.quoteAsset == t.quoteAsset
    && x.price == m.price && x.quoteQuantity == Decimal.Mul(x.quantity, m.price) > 0
    && m.id != t.id && !SameUser(t, m)
  }

  /** The k-th order of the other side is the k-th maker, reduced by the k-th trade; the taker is stamped, too. */
  lemma ApplyReduces(c: Config, issued: map<string, nat>, v: View, taker: Order, ids: TradeIds, now: int)
    requires WF(c, issued, v) && Ticketed(issued, taker) && ApplySpec(c, v, taker, ids, now).outcome.Done?
    ensures var r := ApplySpec(c, v, taker, ids, now).outcome.value; var q := v.On(Opposite(taker.side));
            && |r.makers| == |r.trades| <= |q| && r.taker.updatedAt == now
            && forall k :: 0 <= k < |r.trades| ==> Reduced(q[k], r.makers[k], r.trades[k], Normalize(c, taker), now)
  {
    var t := Prepared(c, taker);
    var q := v.On(Opposite(t.side));
    var r := ApplySpec(c, v, taker, ids, now).outcome.value;
    PriceTimePriority(c, issued, v, taker, ids, now);
    AcceptedIsReady(c, issued, v, taker);
    SweepSelfTrade(MatchResult(t, [], []), q, ids, now);
    forall k | 0 <= k < |r.trades| ensures Reduced(q[k], r.makers[k], r.trades[k], Normalize(c, taker), now) {
      assert HitBy(q[k], r.makers[k], r.trades[k], now) && Has(v, q[k]) && r.trades[k] in r.trades;
    }
  }

  /** The taker comes back as it went in, filled in and filled by its trades; a market order is marked immediate. */
  lemma TakerReturns(c: Config, issued: map<string, nat>, v: View, taker: Order, ids: TradeIds, now: int)
    requires WF(c, issued, v) && Ticketed(issued, taker) && ApplySpec(c, v, taker, ids, now).outcome.Done?
    ensures var r := ApplySpec(c, v, taker, ids, now).outcome.value;
            var t, sold := Normalize(c, taker), SumQuantity(r.trades);
            r.taker == t.(timeInForce := if taker.kind.Market? then IOC else t.timeInForce, status := r.taker.status,
                          filled := taker.filled + sold, remaining := taker.remaining - sold, updatedAt := now)
  {
    ApplyReduces(c, issued, v, taker, ids, now);
    PriceTimePriority(c, issued, v, taker, ids, now);
  }

  /** One of these makers, reduced by the trade `x`. */
  ghost predicate FromAmong(makers: seq<Order>, o: Order, x: Trade, t: Order, now: int) {
    exists m :: m in makers && Reduced(m, o, x, t, now)
  }

  /** Every trade a scan adds reduces one of its makers and the taker. */
  ghost predicate ScanReduces(r: MatchResult, o: MatchResult, makers: seq<Order>, now: int) {
    && |r.makers| == |r.trades| <= |o.makers| == |o.trades| && r.makers <= o.makers && r.trades <= o.trades
    && SameTerms(r.taker, o.taker)
    && (forall k :: |r.trades| <= k < |o.trades| ==> FromAmong(makers, o.makers[k], o.trades[k], r.taker, now))
    && (o.taker == r.taker || o.taker.updatedAt == now)
  }

  lemma ExecuteReduces(r: MatchResult, maker: Order, ids: TradeIds, now: int)
    requires r.taker.remaining > 0 && EligibleMaker(r.taker, maker)
    requires Decimal.Mul(FillQuantity(r.taker, maker), maker.price) > 0 && |r.makers| == |r.trades|
    ensures var next := Execute(r, maker, ids, now); var k := |r.trades|;
            && |next.makers| == |next.trades| == k + 1 && Reduced(maker, next.makers[k], next.trades[k], r.taker, now)
            && next.taker.filled == r.taker.filled + next.trades[k].quantity
            && next.taker.remaining == r.taker.remaining - next.trades[k].quantity && next.taker.updatedAt == now
  {
  }

  lemma {:induction false} ScanMakes(r: MatchResult, makers: seq<Order>, ids: TradeIds, now: int)
    requires |r.makers| == |r.trades| && Scan(r, makers, ids, now).Done?
    ensures ScanReduces(r, Scan(r, makers, ids, now).value, makers, now)
    decreases |makers|
  {
    if makers != [] && r.taker.remaining > 0 {
      assert forall m :: m in makers[1..] ==> m in makers;
      if EligibleMaker(r.taker, makers[0]) {
        var next := Execute(r, makers[0], ids, now);
        var o := Scan(next, makers[1..], ids, now).value;
        ExecuteReduces(r, makers[0], ids, now);
        ScanMakes(next, makers[1..], ids, now);
        forall k | |r.trades| <= k < |o.trades|
          ensures FromAmong(makers, o.makers[k], o.trades[k], r.taker, now)
        {
          if k == |r.trades| {
            assert o.makers[k] == next.makers[k] && o.trades[k] == next.trades[k] && makers[0] in makers;
          } else {
            var m :| m in makers[1..] && Reduced(m, o.makers[k], o.trades[k], next.taker, now);
            assert m in makers && Reduced(m, o.makers[k], o.trades[k], r.taker, now);
          }
        }
      } else if !(IsSelfTrade(r.taker, makers[0]) && CrossesPrice(r.taker, makers[0])) {
        ScanMakes(r, makers[1..], ids, now);
      }
    }
  }

  /** Every trade of `MatchLimit` reduces one of the makers it was given. */
  lemma MatchLimitReduces(taker: Order, makers: seq<Order>, ids: TradeIds, now: int)
    requires MatchLimitSpec(taker, makers, ids, now).Done?
    ensures var r := MatchLimitSpec(taker, makers, ids, now).value;
            && |r.makers| == |r.trades|
            && forall k :: 0 <= k < |r.trades| ==> FromAmong(makers, r.makers[k], r.trades[k], taker, now)
  {
    var first := MatchResult(taker, [], []);
    ScanMakes(first, makers, ids, now);
    var o := Scan(first, makers, ids, now).value;
    forall k | 0 <= k < |o.trades| ensures FromAmong(makers, o.makers[k], o.trades[k], taker, now) {
      assert |first.trades| <= k < |o.trades|;
    }
  }
}
