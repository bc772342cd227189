/** The whole resident book: two sides and the id index, changed in place. */
module MarketBooks {
  import opened Orders
  import opened Engine
  import opened Priority
  import opened Ladder
  import opened BookSpec
  import opened Sweeping
  import opened BookSides
  import opened BookRuns
  import opened TakerFates
  import Decimal

  /** Where the index says an active order rests. */
  datatype Ref = Ref(side: Side, price: int)

  /** The index names exactly the queued orders, each with its side and price. */
  ghost predicate IndexOf(orders: map<string, Ref>, v: View) {
    && (forall o :: Has(v, o) ==> o.id in orders && orders[o.id] == Ref(o.side, o.price))
    && (forall id :: id in orders ==> HasId(v, id))
  }

  class MarketBook {
    const config: Config
    const bids: BookSide
    const asks: BookSide
    var orders: map<string, Ref>
    /** The sequence id the repository assigned to each order id. */
    ghost const issued: map<string, nat>

    /** The resting orders of both sides in priority order. */
    ghost function Contents(): View
      reads bids, asks
    {
      View(bids.Flat(), asks.Flat())
    }

    ghost predicate Valid()
      reads this, bids, asks
    {
      && bids != asks && bids.side.Buy? && asks.side.Sell?
      && bids.Valid() && asks.Valid()
      && WF(config, issued, Contents())
      && IndexOf(orders, Contents())
    }

    constructor (config: Config, ghost issued: map<string, nat>)
      requires config.market != "" && Issue(issued)
      ensures Valid() && Contents() == EMPTY_VIEW && this.config == config
      ensures this.issued == issued && fresh(bids) && fresh(asks)
    {
      this.config := config;
      this.issued := issued;
      bids := new BookSide(Buy);
      asks := new BookSide(Sell);
      orders := map[];
    }

    function SideOf(side: Side): BookSide {
      if side.Buy? then bids else asks
    }

    /** `insertResting`. */
    method InsertResting(item: Order) returns (err: Option<MatchError>)
      requires Valid() && Ticketed(issued, item)
      modifies this, bids, asks
      ensures Valid() && Inserted(Contents(), err) == InsertSpec(config, old(Contents()), item)
    {
      var o := Normalize(config, item);
      err := ValidateResting(config, o);
      if err.Some? {
        return;
      }
      if o.id in orders {
        return Some(AlreadyActive);
      }
      ghost var v := Contents();
      InsertKeepsWF(config, issued, v, o);
      forall x | x in SideOf(o.side).Flat() ensures x.sequence != o.sequence {
        assert Has(v, x);
      }
      SideOf(o.side).Insert(o);
      IndexGains(orders, v, v.With(o.side, InsertSorted(o.side, v.On(o.side), o)), o);
      orders := orders[o.id := Ref(o.side, o.price)];
      assert Contents() == v.With(o.side, InsertSorted(o.side, v.On(o.side), o));
    }

    /** `removeAt`. */
    method RemoveAt(s: BookSide, price: int, idx: nat) returns (removed: Order)
      requires Valid() && (s == bids || s == asks)
      requires price in s.levels && idx < |s.levels[price]|
      modifies this, bids, asks
      ensures Valid() && removed == old(s.levels[price][idx])
      ensures Has(old(Contents()), removed) && Contents() == Without(old(Contents()), removed.id)
    {
      ghost var v := Contents();
      UniqueOnSide(config, issued, v, s.side);
      removed := s.RemoveAt(price, idx);
      ghost var w := Without(v, removed.id);
      OneSideLoses(config, issued, v, s.side, removed);
      IndexLoses(orders, v, removed.id);
      orders := orders - {removed.id};
      assert Contents() == w;
      assert WF(config, issued, w) && IndexOf(orders, w);
    }

    /** Writes the executed best maker of a side back in place. */
    method ReplaceHead(s: BookSide, price: int, maker: Order)
      requires Valid() && (s == bids || s == asks)
      requires s.prices != [] && price == s.prices[0] && price in s.levels && s.levels[price] != []
      requires Resting(config, issued, maker) && maker.side == s.side
      requires maker.id == s.levels[price][0].id && maker.price == price && s.levels[price][0] == s.Flat()[0]
      modifies bids, asks
      ensures Valid() && old(s.Flat()) != []
      ensures Contents() == old(Contents()).With(s.side, [maker] + old(s.Flat())[1..])
    {
      ghost var v := Contents();
      ghost var w := v.With(s.side, [maker] + v.On(s.side)[1..]);
      HeadReplaced(config, issued, v, s.side, maker);
      assert Has(v, v.On(s.side)[0]);
      s.ReplaceHead(price, maker);
      IndexKeeps(orders, v, w, maker, v.On(s.side)[0]);
      assert Contents() == w;
      assert WF(config, issued, w) && IndexOf(orders, w);
    }

    /** Takes the filled best maker of a side out of the book. */
    method RemoveHead(s: BookSide, price: int)
      requires Valid() && (s == bids || s == asks)
      requires price in s.levels && s.levels[price] != [] && s.Flat() != [] && s.levels[price][0] == s.Flat()[0]
      modifies this, bids, asks
      ensures Valid() && Contents() == old(Contents()).With(s.side, old(s.Flat())[1..])
    {
      ghost var v := Contents();
      var removed := RemoveAt(s, price, 0);
      HeadRemoval(config, issued, v, s.side);
    }

    /** `Apply`: matches a taker against the opposite side and books what is left of it. */
    method Apply(order: Order, ids: TradeIds, now: int) returns (out: Outcome<MatchResult>)
      requires Valid() && Ticketed(issued, order)
      modifies this, bids, asks
      ensures Valid() && Applied(Contents(), out) == ApplySpec(config, old(Contents()), order, ids, now)
      ensures Acceptable(config, old(Contents()), order) <==> out.Done? || out.error == QuoteBelowPrecision
      ensures out.Done? ==>
                && Fate(order, out.value.taker, out.value.trades != [], Contents())
                && Drawn(out.value.trades, ids, now)
    {
      ghost var v := Contents();
      AcceptedIff(config, issued, v, order, ids, now);
      if ApplySpec(config, v, order, ids, now).outcome.Done? {
        ApplyFate(config, issued, v, order, ids, now);
        ApplyDraws(config, v, order, ids, now);
      }
      var taker := Normalize(config, order);
      if taker.id in orders {
        return Failed(AlreadyActive);
      }
      var invalid := ValidateTaker(EffectiveTaker(taker));
      if invalid.Some? {
        return Failed(invalid.value);
      }
      invalid := ValidateMarket(config, taker);
      if invalid.Some? {
        return Failed(invalid.value);
      }
      if taker.kind.Market? {
        taker := taker.(timeInForce := IOC);
      }
      AcceptedIsReady(config, issued, Contents(), order);
      out := MatchAccepted(taker, ids, now);
    }

    /** One execution against the best maker, written back into the book. */
    method Hit(s: BookSide, price: int, result: MatchResult, ids: TradeIds, now: int) returns (next: MatchResult)
      requires Valid() && (s == bids || s == asks) && Trades(result, s.Flat())
      requires s.prices != [] && price == s.prices[0] && price in s.levels && s.levels[price] != []
      requires s.levels[price][0] == s.Flat()[0] && s.Flat()[0].price == price
      modifies this, bids, asks
      ensures Valid() && Contents() == old(Contents()).With(s.side, s.Flat())
      ensures Sweep(next, s.Flat(), ids, now) == Sweep(result, old(s.Flat()), ids, now)
      ensures SameTerms(result.taker, next.taker)
      ensures |s.Flat()| < |old(s.Flat())| ||
                (|s.Flat()| == |old(s.Flat())| && 0 <= next.taker.remaining < result.taker.remaining)
      ensures HasId(Contents(), result.taker.id) ==> HasId(old(Contents()), result.taker.id)
    {
      ghost var v := Contents();
      var maker := s.levels[price][0];
      next := Execute(result, maker, ids, now);
      var qty := FillQuantity(result.taker, maker);
      maker := Executed(maker, qty, now);
      ExecutedMaker(config, issued, v, s.side, qty, now);
      if maker.status.Filled? {
        RemoveHead(s, price);
      } else {
        ReplaceHead(s, price, maker);
      }
      if !HasId(v, result.taker.id) {
        SyncKeepsAbsent(v, Contents(), maker, result.taker.id);
      }
    }

    /** The last steps of `Apply`: an unfilled taker expires or rests. */
    method Conclude(result: MatchResult, ghost taker: Order, now: int) returns (done: MatchResult)
      requires Valid() && !HasId(Contents(), taker.id) && taker.id != ""
      requires Ready(config, issued, Opposite(taker.side), taker) && SameTerms(taker, result.taker)
      modifies this, bids, asks
      ensures Valid() && done == Finish(result, false, now) && Contents() == Book(old(Contents()), done.taker)
    {
      if result.taker.remaining <= 0 {
        return result.(taker := result.taker.(status := Filled, updatedAt := now));
      }
      if IsImmediateOnly(result.taker) {
        return result.(taker := result.taker.(status := Expired, updatedAt := now));
      }
      var rest := result.taker.(status := if result.trades == [] then Open else PartiallyFilled, updatedAt := now);
      RemainderRests(config, issued, Opposite(taker.side), taker, rest);
      var err := InsertResting(rest);
      assert err.None?;
      done := result.(taker := rest);
    }

    /** The loop of `Apply`: `stop` says why it ended other than by running out of taker or crossing makers. */
    method MatchAgainst(makerSide: BookSide, taker: Order, ids: TradeIds, now: int)
      returns (result: MatchResult, selfTrade: bool, err: Option<MatchError>)
      requires Valid() && (makerSide == bids || makerSide == asks)
      requires taker.market == config.market && makerSide.side == Opposite(taker.side)
      requires !HasId(Contents(), taker.id)
      modifies this, bids, asks
      ensures Valid() && SameTerms(taker, result.taker) && !HasId(Contents(), taker.id)
      ensures Contents() == old(Contents()).With(makerSide.side, makerSide.Flat())
      ensures Sweep(MatchResult(taker, [], []), old(makerSide.Flat()), ids, now) ==
              if err.Some? then SweepFailed(err.value, makerSide.Flat()) else Swept(result, makerSide.Flat(), selfTrade)
    {
      result, selfTrade, err := MatchResult(taker, [], []), false, None;
      ghost var v := Contents();
      ghost var whole := Sweep(result, makerSide.Flat(), ids, now);
      while result.taker.remaining > 0
        invariant Valid() && SameTerms(taker, result.taker) && !HasId(Contents(), taker.id)
        invariant Contents() == v.With(makerSide.side, makerSide.Flat())
        invariant Sweep(result, makerSide.Flat(), ids, now) == whole
        decreases |makerSide.Flat()|, result.taker.remaining
      {
        var best := makerSide.BestPrice();
        if best.None? {
          return;
        }
        var maker := makerSide.levels[best.value][0];
        // A queued order is always bookable, of this market and on the other side, so the
        // source's guards that drop an empty queue or an ineligible order here never fire.
        QueuedOrder(config, issued, Contents(), makerSide.side, maker);
        if !EligibleMaker(EffectiveTaker(result.taker), maker) {
          if IsSelfTrade(EffectiveTaker(result.taker), maker) && CrossesPrice(EffectiveTaker(result.taker), maker) {
            result, selfTrade := Expire(result, now), true;
          }
          return;
        }
        if Decimal.Mul(FillQuantity(result.taker, maker), maker.price) <= 0 {
          err := Some(QuoteBelowPrecision);
          return;
        }
        result := Hit(makerSide, best.value, result, ids, now);
      }
    }

    /** `Apply` on a taker that passed its checks. */
    method MatchAccepted(taker: Order, ids: TradeIds, now: int) returns (out: Outcome<MatchResult>)
      requires Valid() && Ready(config, issued, Opposite(taker.side), taker)
      requires !HasId(Contents(), taker.id) && taker.id != ""
      modifies this, bids, asks
      ensures Valid() && Applied(Contents(), out) == MatchAndBook(old(Contents()), taker, ids, now)
    {
      var makerSide := SideOf(Opposite(taker.side));
      var result, selfTrade, err := MatchAgainst(makerSide, taker, ids, now);
      if err.Some? {
        return Failed(err.value);
      }
      MatchedAndBooked(old(Contents()), taker, ids, now);
      if selfTrade {
        return Done(result);
      }
      result := Conclude(result, taker, now);
      out := Done(result);
    }

    /** Where an active order waits in the queue its reference names. */
    method Locate(id: string) returns (s: BookSide, price: int, idx: nat)
      requires Valid() && id in orders
      ensures s == bids || s == asks
      ensures price in s.levels && idx < |s.levels[price]| && s.levels[price][idx].id == id
      ensures Has(Contents(), s.levels[price][idx])
    {
      s, price := SideOf(orders[id].side), orders[id].price;
      ghost var o :| Has(Contents(), o) && o.id == id;
      FlattenMembers(s.prices, s.levels);
      assert o in s.Flat();
      idx := IndexInQueue(s.levels[price], id);
      assert s.levels[price][idx] in s.levels[price];
      assert s.levels[price][idx] in s.Flat();
    }

    method ActiveOrder(id: string) returns (found: Option<Order>)
      requires Valid()
      ensures found.Some? <==> HasId(Contents(), id)
      ensures found.Some? ==> Has(Contents(), found.value) && found.value.id == id
    {
      if id !in orders {
        return None;
      }
      var s, price, idx := Locate(id);
      found := Some(s.levels[price][idx]);
    }

    /** `removeOrder`. */
    method RemoveOrder(id: string)
      requires Valid()
      modifies this, bids, asks
      ensures Valid() && Contents() == Without(old(Contents()), id)
      ensures forall o :: Has(Contents(), o) <==> Has(old(Contents()), o) && o.id != id
    {
      CancelRemoves(config, issued, Contents(), id);
      if id == "" || id !in orders {
        WithoutAbsent(config, issued, Contents(), id);
        return;
      }
      var s, price, idx := Locate(id);
      var removed := RemoveAt(s, price, idx);
    }

    /** `Cancel`: the canceled order, or nothing when the id is not active. */
    method Cancel(id: string, now: int) returns (canceled: Option<Order>)
      requires Valid()
      modifies this, bids, asks
      ensures Valid() && Contents() == CancelSpec(old(Contents()), id)
      ensures forall o :: Has(Contents(), o) <==> Has(old(Contents()), o) && o.id != id
      ensures canceled.Some? <==> HasId(old(Contents()), id)
      ensures canceled.Some? ==>
                exists o :: Has(old(Contents()), o) && o.id == id &&
                    canceled.value == o.(status := Canceled, updatedAt := now)
    {
      CancelRemoves(config, issued, Contents(), id);
      if id == "" || id !in orders {
        WithoutAbsent(config, issued, Contents(), id);
        return None;
      }
      var s, price, idx := Locate(id);
      var removed := RemoveAt(s, price, idx);
      canceled := Some(removed.(status := Canceled, updatedAt := now));
    }

    /** One order of a list to load: booked if it is bookable, passed over otherwise. */
    method LoadOne(item: Order) returns (err: Option<MatchError>)
      requires Valid() && (IsBookable(Normalize(config, item)) ==> Ticketed(issued, item))
      modifies this, bids, asks
      ensures Valid() && Inserted(Contents(), err) == LoadOrder(config, old(Contents()), item)
    {
      var o := Normalize(config, item);
      err := None;
      if IsBookable(o) {
        NormalizeTwice(config, item);
        err := InsertResting(o);
      }
    }

    /** `Load`: books the bookable orders one after the other, up to the first that is refused. */
    method Load(items: seq<Order>) returns (err: Option<MatchError>)
      requires Valid() && forall o :: o in items && IsBookable(Normalize(config, o)) ==> Ticketed(issued, o)
      modifies this, bids, asks
      ensures Valid() && Inserted(Contents(), err) == LoadSpec(config, old(Contents()), items)
    {
      ghost var whole := LoadSpec(config, Contents(), items);
      var i := 0;
      assert items[0..] == items;
      while i < |items|
        invariant 0 <= i <= |items| && Valid()
        invariant LoadSpec(config, Contents(), items[i..]) == whole
      {
        assert items[i..][1..] == items[i + 1..];
        assert items[i] in items;
        err := LoadOne(items[i]);
        if err.Some? {
          return;
        }
        i := i + 1;
      }
      err := None;
    }

    /** One order of a logged result: out of the book, and back in if it still rests. */
    method Rewrite(item: Order) returns (err: Option<MatchError>)
      requires Valid() && (IsBookable(Normalize(config, item)) ==> Ticketed(issued, item))
      modifies this, bids, asks
      ensures Valid() && Inserted(Contents(), err) == ReplayOrder(config, old(Contents()), item)
    {
      RemoveOrder(item.id);
      var o := Normalize(config, item);
      err := None;
      if IsBookable(o) {
        NormalizeTwice(config, item);
        err := InsertResting(o);
      }
    }

    /** `ApplyResult`: writes the makers and then the taker of a logged result. */
    method ApplyResult(result: MatchResult) returns (err: Option<MatchError>)
      requires Valid()
      requires forall o :: o in Touched(result) && IsBookable(Normalize(config, o)) ==> Ticketed(issued, o)
      modifies this, bids, asks
      ensures Valid() && Inserted(Contents(), err) == ReplaySpec(config, old(Contents()), result)
    {
      var items := Touched(result);
      ghost var whole := ReplayOrders(config, Contents(), items);
      var i := 0;
      assert items[0..] == items;
      while i < |items|
        invariant 0 <= i <= |items| && Valid()
        invariant ReplayOrders(config, Contents(), items[i..]) == whole
      {
        assert items[i..][1..] == items[i + 1..];
        assert items[i] in items;
        err := Rewrite(items[i]);
        if err.Some? {
          return;
        }
        i := i + 1;
      }
      err := None;
    }
  }

  method IndexInQueue(queue: seq<Order>, id: string) returns (idx: nat)
    requires exists o :: o in queue && o.id == id
    ensures idx < |queue| && queue[idx].id == id
    ensures forall k :: 0 <= k < idx ==> queue[k].id != id
  {
    ghost var o :| o in queue && o.id == id;
    ghost var k :| 0 <= k < |queue| && queue[k] == o;
    idx := 0;
    while queue[idx].id != id
      invariant idx <= k
      invariant forall j :: 0 <= j < idx ==> queue[j].id != id
      decreases k - idx
    {
      idx := idx + 1;
    }
  }

  lemma IndexGains(orders: map<string, Ref>, v: View, w: View, o: Order)
    requires IndexOf(orders, v) && !HasId(v, o.id) && Members(w) == Members(v) + {o}
    ensures IndexOf(orders[o.id := Ref(o.side, o.price)], w)
  {
    assert forall x :: Has(w, x) <==> x in Members(w);
    assert forall x :: Has(v, x) <==> x in Members(v);
    forall id | HasId(v, id) || id == o.id ensures HasId(w, id) {
      if id == o.id {
        assert Has(w, o);
      } else {
        var x :| Has(v, x) && x.id == id;
        assert Has(w, x);
      }
    }
  }

  lemma IndexKeeps(orders: map<string, Ref>, v: View, w: View, m: Order, o: Order)
    requires IndexOf(orders, v) && Has(v, o) && m.id == o.id && m.side == o.side && m.price == o.price
    requires Members(w) == Sync(Members(v), m) && IsBookable(m)
    ensures IndexOf(orders, w)
  {
    assert forall x :: Has(w, x) <==> x in Members(w);
    assert forall x :: Has(v, x) <==> x in Members(v);
    forall id | HasId(v, id) ensures HasId(w, id) {
      var x :| Has(v, x) && x.id == id;
      assert Has(w, if id == m.id then m else x);
    }
  }

  lemma QueuedOrder(c: Config, issued: map<string, nat>, v: View, side: Side, o: Order)
    requires WF(c, issued, v) && !side.OtherSide? && o in v.On(side)
    ensures IsBookable(o) && o.market == c.market && o.side == side && HasId(v, o.id)
  {
    assert Has(v, o);
    assert Resting(c, issued, o);
  }

  /** `MatchAndBook` by the three ways a sweep can end. */
  lemma MatchedAndBooked(v: View, t: Order, ids: TradeIds, now: int)
    ensures var side := Opposite(t.side);
            var out := Sweep(MatchResult(t, [], []), v.On(side), ids, now);
            var w := v.With(side, out.rest);
            MatchAndBook(v, t, ids, now) ==
              if out.SweepFailed? then Applied(w, Failed(out.error))
              else if out.selfTrade then Applied(w, Done(out.result))
              else Applied(Book(w, Finish(out.result, false, now).taker), Done(Finish(out.result, false, now)))
  {
    if Sweep(MatchResult(t, [], []), v.On(Opposite(t.side)), ids, now).Swept? {
      SweepSelfTrade(MatchResult(t, [], []), v.On(Opposite(t.side)), ids, now);
    }
  }

  /** Without its best order a side is the rest of its queue. */
  lemma HeadRemoval(c: Config, issued: map<string, nat>, v: View, side: Side)
    requires WF(c, issued, v) && !side.OtherSide? && v.On(side) != []
    ensures Without(v, v.On(side)[0].id) == v.With(side, v.On(side)[1..])
  {
    var o := v.On(side)[0];
    HeadDropped(c, issued, v, side);
    RemoveKeepsWF(c, issued, v, o.id);
    CanonicalView(c, issued, Without(v, o.id), v.With(side, v.On(side)[1..]));
  }

  lemma IndexLoses(orders: map<string, Ref>, v: View, id: string)
    requires IndexOf(orders, v)
    ensures IndexOf(orders - {id}, Without(v, id))
  {
    RemoveMembers(v.bids, id);
    RemoveMembers(v.asks, id);
    assert forall x :: Has(Without(v, id), x) <==> Has(v, x) && x.id != id;
    forall i | HasId(v, i) && i != id ensures HasId(Without(v, id), i) {
      var x :| Has(v, x) && x.id == i;
      assert Has(Without(v, id), x);
    }
  }

  lemma UniqueOnSide(c: Config, issued: map<string, nat>, v: View, side: Side)
    requires WF(c, issued, v)
    ensures UniqueIds(v.On(side))
  {
    assert forall o :: o in v.On(side) ==> Has(v, o);
  }

  /** Taking an order out of its own side takes its id out of the book. */
  lemma OneSideLoses(c: Config, issued: map<string, nat>, v: View, side: Side, o: Order)
    requires WF(c, issued, v) && o in v.On(side)
    ensures Has(v, o) && v.With(side, RemoveId(v.On(side), o.id)) == Without(v, o.id)
    ensures WF(c, issued, Without(v, o.id))
  {
    var q := v.On(Opposite(side));
    assert Has(v, o);
    forall x | x in q ensures x.id != o.id {
      assert Has(v, x);
    }
    RemoveAbsent(q, o.id);
    RemoveKeepsWF(c, issued, v, o.id);
    RemoveMembers(v.bids, o.id);
    RemoveMembers(v.asks, o.id);
  }

  lemma WithoutAbsent(c: Config, issued: map<string, nat>, v: View, id: string)
    requires WF(c, issued, v) && !HasId(v, id)
    ensures Without(v, id) == v
  {
    assert forall x :: x in v.bids || x in v.asks ==> Has(v, x);
    RemoveAbsent(v.bids, id);
    RemoveAbsent(v.asks, id);
  }

  lemma NormalizeTwice(c: Config, o: Order)
    ensures Normalize(c, Normalize(c, o)) == Normalize(c, o)
  {
  }
}
