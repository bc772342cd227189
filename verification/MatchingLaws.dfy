/** Price-time priority, quantity conservation and completeness of one matching run. */
module MatchingLaws {
  import opened Orders
  import opened Engine
  import opened Priority
  import opened BookSpec
  import opened Sweeping
  import Decimal

  /** The trades of one run against the makers it reports. */
  ghost predicate TradesDescribe(t: Order, makers: seq<Order>, trades: seq<Trade>, now: int)
  {
    && |makers| == |trades|
    && forall i :: 0 <= i < |trades| ==>
         && trades[i].makerOrderId == makers[i].id && trades[i].makerUserId == makers[i].userId
         && trades[i].takerOrderId == t.id && trades[i].takerUserId == t.userId && trades[i].takerSide == t.side
         && trades[i].market == t.market && trades[i].baseAsset == t.baseAsset && trades[i].quoteAsset == t.quoteAsset
         && trades[i].price == makers[i].price && trades[i].quantity > 0
         && trades[i].quoteQuantity == Decimal.Mul(trades[i].quantity, makers[i].price) > 0
  }

  /** `m` is `o` reduced by the trade `x`. */
  predicate HitBy(o: Order, m: Order, x: Trade, now: int) {
    x.quantity <= o.remaining && m == Executed(o, x.quantity, now)
  }

  predicate HitWhole(o: Order, m: Order, x: Trade) {
    m.status.Filled? && x.quantity == o.remaining
  }

  /** The makers hit are the front of the queue, each reduced by its own trade, all but the last to nothing. */
  ghost predicate HitsFront(q: seq<Order>, makers: seq<Order>, trades: seq<Trade>, now: int) {
    && |makers| == |trades| <= |q|
    && (forall i :: 0 <= i < |makers| ==> HitBy(q[i], makers[i], trades[i], now))
    && (forall i :: 0 <= i < |makers| - 1 ==> HitWhole(q[i], makers[i], trades[i]))
  }

  /** What a run leaves of the queue it walked. */
  function Remainder(q: seq<Order>, makers: seq<Order>): seq<Order>
    requires |makers| <= |q|
  {
    var k := |makers|;
    if k > 0 && !makers[k - 1].status.Filled? then [makers[k - 1]] + q[k..] else q[k..]
  }

  /** The trades a run adds to those already in `r`. */
  function NewTrades(r: MatchResult, q: seq<Order>, ids: TradeIds, now: int): seq<Trade>
    decreases |q|, r.taker.remaining
  {
    if Trades(r, q) then
      var next := Execute(r, q[0], ids, now);
      [next.trades[|r.trades|]] + NewTrades(next, AfterHit(q, HitMaker(r, q, now)), ids, now)
    else []
  }

  lemma {:induction false} SweepTrades(r: MatchResult, q: seq<Order>, ids: TradeIds, now: int)
    requires Sweep(r, q, ids, now).Swept?
    ensures Sweep(r, q, ids, now).result.trades == r.trades + NewTrades(r, q, ids, now)
    decreases |q|, r.taker.remaining
  {
    if Trades(r, q) {
      SweepTrades(Execute(r, q[0], ids, now), AfterHit(q, HitMaker(r, q, now)), ids, now);
    }
  }

  /** A completely filled front maker extends a walk of the queue behind it. */
  lemma WalkFurther(q: seq<Order>, maker: Order, item: Trade, makers: seq<Order>, trades: seq<Trade>, now: int)
    requires q != [] && HitsFront(q[1..], makers, trades, now)
    requires maker == Executed(q[0], item.quantity, now) && maker.status.Filled? && item.quantity == q[0].remaining
    ensures HitsFront(q, [maker] + makers, [item] + trades, now)
    ensures Remainder(q, [maker] + makers) == Remainder(q[1..], makers)
  {
    var ms, ts := [maker] + makers, [item] + trades;
    forall i | 0 <= i < |ms|
      ensures HitBy(q[i], ms[i], ts[i], now) && (i < |ms| - 1 ==> HitWhole(q[i], ms[i], ts[i]))
    {
      if i > 0 {
        assert ms[i] == makers[i - 1] && ts[i] == trades[i - 1] && q[i] == q[1..][i - 1];
        assert HitBy(q[1..][i - 1], makers[i - 1], trades[i - 1], now);
      }
    }
    assert q[1..][|makers|..] == q[|ms|..];
  }

  lemma {:induction false} SweepWalks(r: MatchResult, q: seq<Order>, ids: TradeIds, now: int)
    ensures var makers, trades := NewMakers(r, q, ids, now), NewTrades(r, q, ids, now);
            && HitsFront(q, makers, trades, now)
            && Sweep(r, q, ids, now).rest == Remainder(q, makers)
    decreases |q|, r.taker.remaining
  {
    if Trades(r, q) {
      var maker, next := HitMaker(r, q, now), Execute(r, q[0], ids, now);
      var rest := AfterHit(q, maker);
      var makers, trades := NewMakers(next, rest, ids, now), NewTrades(next, rest, ids, now);
      if maker.status.Filled? {
        SweepWalks(next, rest, ids, now);
        WalkFurther(q, maker, next.trades[|r.trades|], makers, trades, now);
      } else {
        assert !Trades(next, rest);
      }
    }
  }

  lemma {:induction false} SweepDescribes(r: MatchResult, q: seq<Order>, ids: TradeIds, now: int)
    ensures TradesDescribe(r.taker, NewMakers(r, q, ids, now), NewTrades(r, q, ids, now), now)
    decreases |q|, r.taker.remaining
  {
    if Trades(r, q) {
      SweepDescribes(Execute(r, q[0], ids, now), AfterHit(q, HitMaker(r, q, now)), ids, now);
    }
  }

  predicate WithinLimit(t: Order, price: int) {
    match t.side
    case Buy => price <= EffectiveTaker(t).price
    case Sell => price >= EffectiveTaker(t).price
    case OtherSide => false
  }

  /** Every trade is within the taker's limit and between two different users. */
  lemma {:induction false} SweepIsFair(r: MatchResult, q: seq<Order>, ids: TradeIds, now: int)
    ensures forall x :: x in NewTrades(r, q, ids, now) ==>
              WithinLimit(r.taker, x.price) && !(x.takerUserId != "" && x.makerUserId == x.takerUserId)
    decreases |q|, r.taker.remaining
  {
    if Trades(r, q) {
      SweepIsFair(Execute(r, q[0], ids, now), AfterHit(q, HitMaker(r, q, now)), ids, now);
    }
  }

  /** What the queue offers this taker before an order it may not trade with. */
  function Depth(t: Order, q: seq<Order>): int {
    if q == [] || !EligibleMaker(EffectiveTaker(t), q[0]) then 0 else q[0].remaining + Depth(t, q[1..])
  }

  function SumQuantity(trades: seq<Trade>): int {
    if trades == [] then 0 else trades[0].quantity + SumQuantity(trades[1..])
  }

  lemma {:induction false} DepthIgnoresFill(t: Order, u: Order, q: seq<Order>)
    requires SameTerms(t, u)
    ensures Depth(t, q) == Depth(u, q) >= 0
  {
    if q != [] {
      DepthIgnoresFill(t, u, q[1..]);
    }
  }

  /** A run fills as much as the taker wants or the eligible front of the queue offers. */
  lemma {:induction false} SweepFillsAll(r: MatchResult, q: seq<Order>, ids: TradeIds, now: int)
    requires r.taker.remaining >= 0 && Sweep(r, q, ids, now).Swept?
    ensures SumQuantity(NewTrades(r, q, ids, now)) == Decimal.Min(r.taker.remaining, Depth(r.taker, q))
    decreases |q|, r.taker.remaining
  {
    DepthIgnoresFill(r.taker, r.taker, q);
    if Trades(r, q) {
      var maker, next := HitMaker(r, q, now), Execute(r, q[0], ids, now);
      SweepFillsAll(next, AfterHit(q, maker), ids, now);
      DepthIgnoresFill(r.taker, next.taker, q[1..]);
      DepthIgnoresFill(next.taker, next.taker, AfterHit(q, maker));
    }
  }

  /** The taker's fill grows by exactly the traded quantity, and its quantity is conserved. */
  lemma {:induction false} SweepConserves(r: MatchResult, q: seq<Order>, ids: TradeIds, now: int)
    requires Sweep(r, q, ids, now).Swept?
    ensures var t, traded := Sweep(r, q, ids, now).result.taker, SumQuantity(NewTrades(r, q, ids, now));
            t.filled == r.taker.filled + traded && t.remaining == r.taker.remaining - traded
    decreases |q|, r.taker.remaining
  {
    if Trades(r, q) {
      SweepConserves(Execute(r, q[0], ids, now), AfterHit(q, HitMaker(r, q, now)), ids, now);
    }
  }

  // ---- Laws of one `Apply` ----

  /** A side read front to back never offers a better price later. */
  lemma PricesWorsen(side: Side, q: seq<Order>, i: nat, j: nat)
    requires Sorted(side, q) && i <= j < |q|
    ensures !BetterPrice(side, q[j].price, q[i].price)
  {
    assert i < j ==> Before(side, q[i], q[j]);
  }

  /** Trade prices only worsen, stay within the limit of the taker, and no user trades with itself. */
  ghost predicate FairPrices(side: Side, t: Order, trades: seq<Trade>) {
    && (forall i, j :: 0 <= i <= j < |trades| ==> !BetterPrice(side, trades[j].price, trades[i].price))
    && (forall x :: x in trades ==>
          WithinLimit(t, x.price) && !(x.takerUserId != "" && x.makerUserId == x.takerUserId))
  }

  lemma WalkIsFair(side: Side, r: MatchResult, q: seq<Order>, ids: TradeIds, now: int)
    requires Sorted(side, q)
    ensures FairPrices(side, r.taker, NewTrades(r, q, ids, now))
  {
    var makers, trades := NewMakers(r, q, ids, now), NewTrades(r, q, ids, now);
    SweepWalks(r, q, ids, now);
    SweepDescribes(r, q, ids, now);
    SweepIsFair(r, q, ids, now);
    forall i, j | 0 <= i <= j < |trades| ensures !BetterPrice(side, trades[j].price, trades[i].price) {
      PricesWorsen(side, q, i, j);
      assert HitBy(q[i], makers[i], trades[i], now) && HitBy(q[j], makers[j], trades[j], now);
    }
  }

  /** The result of matching, in terms of the run it made. */
  lemma MatchedRun(c: Config, issued: map<string, nat>, v: View, t: Order, ids: TradeIds, now: int)
    requires WF(c, issued, v) && Ready(c, issued, Opposite(t.side), t) && t.remaining >= 0
    requires MatchAndBook(v, t, ids, now).outcome.Done?
    ensures var a := MatchAndBook(v, t, ids, now); var o := a.outcome.value;
            var r, side := MatchResult(t, [], []), Opposite(t.side); var q := v.On(side);
            && o.makers == NewMakers(r, q, ids, now) && o.trades == NewTrades(r, q, ids, now)
            && |o.makers| <= |q| && a.view == Book(v.With(side, Remainder(q, o.makers)), o.taker)
            && SumQuantity(o.trades) == Decimal.Min(t.remaining, Depth(t, q))
            && o.taker.filled == t.filled + SumQuantity(o.trades)
            && o.taker.remaining == t.remaining - SumQuantity(o.trades)
            && SameTerms(t, o.taker)
  {
    var r, q := MatchResult(t, [], []), v.On(Opposite(t.side));
    MatchedResult(c, issued, v, t, ids, now);
    SweepTrades(r, q, ids, now);
    SweepWalks(r, q, ids, now);
    SweepFillsAll(r, q, ids, now);
    SweepConserves(r, q, ids, now);
  }

  /** Price-time priority of a successful `Apply`: it hits a front of the opposite side in order, fills all
      makers but the last completely, at prices that only worsen and never pass the limit, never trades a user
      with itself, fills all that the front offers, and leaves precisely the rest of the queue. */
  lemma PriceTimePriority(c: Config, issued: map<string, nat>, v: View, taker: Order, ids: TradeIds, now: int)
    requires WF(c, issued, v) && Ticketed(issued, taker)
    requires ApplySpec(c, v, taker, ids, now).outcome.Done?
    ensures var a := ApplySpec(c, v, taker, ids, now); var r := a.outcome.value;
            var t := Prepared(c, taker); var side := Opposite(t.side); var q := v.On(side);
            && HitsFront(q, r.makers, r.trades, now)
            && TradesDescribe(t, r.makers, r.trades, now)
            && FairPrices(side, t, r.trades)
            && SumQuantity(r.trades) == Decimal.Min(t.remaining, Depth(t, q))
            && r.taker.filled == t.filled + SumQuantity(r.trades)
            && r.taker.remaining == t.remaining - SumQuantity(r.trades)
            && SameTerms(t, r.taker)
            && a.view == Book(v.With(side, Remainder(q, r.makers)), r.taker)
  {
    AcceptedIsReady(c, issued, v, taker);
    var t := Prepared(c, taker);
    var r, side := MatchResult(t, [], []), Opposite(t.side);
    MatchedRun(c, issued, v, t, ids, now);
    SweepWalks(r, v.On(side), ids, now);
    SweepDescribes(r, v.On(side), ids, now);
    WalkIsFair(side, r, v.On(side), ids, now);
  }

  /** After a run without self-trade that leaves the taker something to fill, nothing on the other side crosses it. */
  lemma {:induction false} SweepStopsAtLimit(r: MatchResult, q: seq<Order>, ids: TradeIds, now: int)
    ensures var out := Sweep(r, q, ids, now);
            out.Swept? && !out.selfTrade && out.result.taker.remaining > 0 ==>
              out.rest == [] || !CrossesPrice(EffectiveTaker(out.result.taker), out.rest[0])
    decreases |q|, r.taker.remaining
  {
    if Trades(r, q) {
      SweepStopsAtLimit(Execute(r, q[0], ids, now), AfterHit(q, HitMaker(r, q, now)), ids, now);
    }
  }

  /** Matching never improves the best price of the side it consumes. */
  lemma SweepKeepsBest(r: MatchResult, side: Side, q: seq<Order>, ids: TradeIds, now: int)
    requires Sorted(side, q)
    ensures var rest := Sweep(r, q, ids, now).rest;
            rest != [] ==> q != [] && !BetterPrice(side, rest[0].price, q[0].price)
  {
    SweepWalks(r, q, ids, now);
    var makers, trades := NewMakers(r, q, ids, now), NewTrades(r, q, ids, now);
    var rest := Sweep(r, q, ids, now).rest;
    var k := |makers|;
    if rest != [] {
      var i := if k > 0 && !makers[k - 1].status.Filled? then k - 1 else k;
      assert k > 0 ==> HitBy(q[k - 1], makers[k - 1], trades[k - 1], now);
      PricesWorsen(side, q, 0, i);
    }
  }

  /** What is left of the taker can no longer trade, or rests nowhere. */
  lemma FinishedCannotCross(r: MatchResult, q: seq<Order>, ids: TradeIds, now: int)
    requires Sweep(r, q, ids, now).Swept?
    ensures var out := Sweep(r, q, ids, now); var o := Finish(out.result, out.selfTrade, now).taker;
            && o.id == r.taker.id && o.market == r.taker.market && o.side == r.taker.side
            && (IsBookable(o) ==> out.rest == [] || !CrossesPrice(o, out.rest[0]))
  {
    SweepExtends(r, q, ids, now);
    SweepSelfTrade(r, q, ids, now);
    SweepStopsAtLimit(r, q, ids, now);
  }

  lemma MatchKeepsUncrossed(c: Config, issued: map<string, nat>, v: View, t: Order, ids: TradeIds, now: int)
    requires WF(c, issued, v) && Uncrossed(v) && Ready(c, issued, Opposite(t.side), t) && !HasId(v, t.id)
    requires t.market == c.market
    ensures Uncrossed(MatchAndBook(v, t, ids, now).view)
  {
    var r, side := MatchResult(t, [], []), Opposite(t.side);
    SweepEffect(c, issued, v, side, r, ids, now);
    SweepKeepsBest(r, side, v.On(side), ids, now);
    var out := Sweep(r, v.On(side), ids, now);
    var w := v.With(side, out.rest);
    assert Uncrossed(w);
    if out.Swept? {
      FinishedCannotCross(r, v.On(side), ids, now);
      BookKeepsUncrossed(c, issued, w, Finish(out.result, out.selfTrade, now).taker);
    }
  }

  /** `Apply` never crosses the book, not even when it fails half way. */
  lemma ApplyKeepsUncrossed(c: Config, issued: map<string, nat>, v: View, taker: Order, ids: TradeIds, now: int)
    requires WF(c, issued, v) && Ticketed(issued, taker) && Uncrossed(v)
    ensures Uncrossed(ApplySpec(c, v, taker, ids, now).view)
  {
    if Refusal(c, v, taker).None? {
      AcceptedIsReady(c, issued, v, taker);
      MatchKeepsUncrossed(c, issued, v, Prepared(c, taker), ids, now);
    }
  }

  lemma BookKeepsUncrossed(c: Config, issued: map<string, nat>, v: View, o: Order)
    requires WF(c, issued, v) && Uncrossed(v) && !HasId(v, o.id)
    requires o.market == c.market && !o.side.OtherSide?
    requires var q := v.On(Opposite(o.side)); IsBookable(o) ==> q == [] || !CrossesPrice(o, q[0])
    ensures Uncrossed(Book(v, o))
  {
    var side := Opposite(o.side);
    if IsBookable(o) && v.On(side) != [] {
      var best := v.On(side)[0];
      assert Has(v, best);
      assert Resting(c, issued, best);
    }
  }

  predicate QuantityAddsUp(o: Order) {
    o.filled + o.remaining == o.quantity
  }

  lemma HitsConserve(q: seq<Order>, makers: seq<Order>, trades: seq<Trade>, now: int)
    requires HitsFront(q, makers, trades, now) && forall o :: o in q ==> QuantityAddsUp(o)
    ensures forall o :: o in makers ==> QuantityAddsUp(o)
  {
    forall i | 0 <= i < |makers| ensures QuantityAddsUp(makers[i]) {
      assert HitBy(q[i], makers[i], trades[i], now) && q[i] in q;
    }
  }

  ghost predicate QuantitiesAddUp(v: View) {
    forall o :: Has(v, o) ==> QuantityAddsUp(o)
  }

  lemma SweepKeepsQuantities(r: MatchResult, v: View, side: Side, ids: TradeIds, now: int)
    requires QuantitiesAddUp(v)
    ensures QuantitiesAddUp(v.With(side, Sweep(r, v.On(side), ids, now).rest))
    ensures forall o :: o in NewMakers(r, v.On(side), ids, now) ==> QuantityAddsUp(o)
  {
    var q := v.On(side);
    var makers := NewMakers(r, q, ids, now);
    SweepWalks(r, q, ids, now);
    assert forall o :: o in q ==> Has(v, o);
    HitsConserve(q, makers, NewTrades(r, q, ids, now), now);
    assert forall o :: o in Remainder(q, makers) ==> o in makers || o in q;
  }

  /** filled + remaining = quantity is kept for everything that rests, even by an `Apply` that fails half
      way, and for the taker and every maker a successful one reports. */
  lemma ApplyConservesQuantity(c: Config, issued: map<string, nat>, v: View, taker: Order, ids: TradeIds, now: int)
    requires WF(c, issued, v) && Ticketed(issued, taker)
    requires QuantityAddsUp(taker) && QuantitiesAddUp(v)
    ensures var a := ApplySpec(c, v, taker, ids, now);
            && QuantitiesAddUp(a.view)
            && (a.outcome.Done? ==> forall o :: o in Touched(a.outcome.value) ==> QuantityAddsUp(o))
  {
    if Refusal(c, v, taker).None? {
      AcceptedIsReady(c, issued, v, taker);
      var t := Prepared(c, taker);
      var r, side := MatchResult(t, [], []), Opposite(t.side);
      SweepKeepsQuantities(r, v, side, ids, now);
      if MatchAndBook(v, t, ids, now).outcome.Done? {
        MatchedRun(c, issued, v, t, ids, now);
        BookKeepsQuantities(v.With(side, Sweep(r, v.On(side), ids, now).rest),
                            MatchAndBook(v, t, ids, now).outcome.value.taker);
      }
    }
  }

  lemma BookKeepsQuantities(v: View, o: Order)
    requires QuantitiesAddUp(v) && QuantityAddsUp(o)
    ensures QuantitiesAddUp(Book(v, o))
  {
    InsertMembers(o.side, v.On(o.side), o);
    forall x | Has(Book(v, o), x) ensures QuantityAddsUp(x) {
      assert x == o || Has(v, x);
    }
  }
}
