/** What one run of the matching loop does to the taker, the makers and the book. */
module Sweeping {
  import opened Orders
  import opened Engine
  import opened Priority
  import opened BookSpec
  import Decimal

  /** A taker as the matching loop meets it: complete, of this market, and on the other side. */
  predicate Ready(c: Config, issued: map<string, nat>, side: Side, t: Order) {
    && ValidateTaker(EffectiveTaker(t).(remaining := 1)).None? && ValidateMarket(c, t).None?
    && Normalize(c, t) == t && Ticketed(issued, t)
    && side == Opposite(t.side)
  }

  /** Matching changes only the fill, the status and the time stamp of an order. */
  predicate SameTerms(a: Order, b: Order) {
    b == a.(filled := b.filled, remaining := b.remaining, status := b.status, updatedAt := b.updatedAt)
  }

  /** The loop only appends to what it has reported so far. */
  lemma {:induction false} SweepExtends(r: MatchResult, q: seq<Order>, ids: TradeIds, now: int)
    requires Sweep(r, q, ids, now).Swept?
    ensures var out := Sweep(r, q, ids, now).result;
            && r.makers <= out.makers && r.trades <= out.trades
            && |out.makers| - |r.makers| == |out.trades| - |r.trades|
            && SameTerms(r.taker, out.taker)
    decreases |q|, r.taker.remaining
  {
    if Trades(r, q) {
      SweepExtends(Execute(r, q[0], ids, now), AfterHit(q, HitMaker(r, q, now)), ids, now);
    }
  }

  /** The makers a sweep reports beyond those already in `r`. */
  function NewMakers(r: MatchResult, q: seq<Order>, ids: TradeIds, now: int): seq<Order>
    decreases |q|, r.taker.remaining
  {
    if Trades(r, q) then
      var maker := HitMaker(r, q, now);
      [maker] + NewMakers(Execute(r, q[0], ids, now), AfterHit(q, maker), ids, now)
    else []
  }

  lemma {:induction false} SweepMakers(r: MatchResult, q: seq<Order>, ids: TradeIds, now: int)
    requires Sweep(r, q, ids, now).Swept?
    ensures Sweep(r, q, ids, now).result.makers == r.makers + NewMakers(r, q, ids, now)
    decreases |q|, r.taker.remaining
  {
    if Trades(r, q) {
      SweepMakers(Execute(r, q[0], ids, now), AfterHit(q, HitMaker(r, q, now)), ids, now);
    }
  }

  /** The loop keeps the book well formed, error or not, and its maker updates are exactly its effect on the active
      orders. */
  lemma {:induction false} SweepEffect(c: Config, issued: map<string, nat>, v: View, side: Side, r: MatchResult,
                                       ids: TradeIds, now: int)
    requires WF(c, issued, v) && !side.OtherSide? && !HasId(v, r.taker.id)
    ensures var w := v.With(side, Sweep(r, v.On(side), ids, now).rest);
            && WF(c, issued, w) && !HasId(w, r.taker.id)
            && Members(w) == SyncAll(Members(v), NewMakers(r, v.On(side), ids, now))
    decreases |v.On(side)|, r.taker.remaining
  {
    var q := v.On(side);
    if Trades(r, q) {
      var maker := HitMaker(r, q, now);
      ExecutedMaker(c, issued, v, side, FillQuantity(r.taker, q[0]), now);
      var w := v.With(side, AfterHit(q, maker));
      SyncKeepsAbsent(v, w, maker, r.taker.id);
      SweepEffect(c, issued, w, side, Execute(r, q[0], ids, now), ids, now);
    }
  }

  lemma SyncKeepsAbsent(v: View, w: View, o: Order, id: string)
    requires !HasId(v, id) && o.id != id && Members(w) == Sync(Members(v), o)
    ensures !HasId(w, id)
  {
    forall x | Has(w, x) ensures x.id != id {
      assert x in Members(w);
      assert x == o || Has(v, x);
    }
  }

  /** Every maker update of a sweep is normalised, and may rest if it is not filled. */
  lemma {:induction false} NewMakersRest(c: Config, issued: map<string, nat>, v: View, side: Side, r: MatchResult,
                                         ids: TradeIds, now: int)
    requires WF(c, issued, v) && !side.OtherSide?
    ensures forall m :: m in NewMakers(r, v.On(side), ids, now) ==>
              m.id != "" && Normalize(c, m) == m && (IsBookable(m) ==> Resting(c, issued, m))
    decreases |v.On(side)|, r.taker.remaining
  {
    var q := v.On(side);
    if Trades(r, q) {
      var maker := HitMaker(r, q, now);
      ExecutedMaker(c, issued, v, side, FillQuantity(r.taker, q[0]), now);
      NewMakersRest(c, issued, v.With(side, AfterHit(q, maker)), side, Execute(r, q[0], ids, now), ids, now);
    }
  }

  lemma {:induction false} SyncAllSplit(s: set<Order>, a: seq<Order>, b: seq<Order>)
    ensures SyncAll(s, a + b) == SyncAll(SyncAll(s, a), b)
    decreases |a|
  {
    if a == [] {
      assert a + b == b;
    } else {
      assert (a + b)[1..] == a[1..] + b;
      SyncAllSplit(Sync(s, a[0]), a[1..], b);
    }
  }

  /** Writing orders into a set adds nothing but those orders. */
  lemma {:induction false} SyncAllFrom(s: set<Order>, items: seq<Order>)
    ensures forall o :: o in SyncAll(s, items) ==> o in s || o in items
    decreases |items|
  {
    if items != [] {
      SyncAllFrom(Sync(s, items[0]), items[1..]);
    }
  }

  lemma AcceptedIsReady(c: Config, issued: map<string, nat>, v: View, taker: Order)
    requires Refusal(c, v, taker).None? && Ticketed(issued, taker)
    ensures var t := Prepared(c, taker);
            Ready(c, issued, Opposite(t.side), t) && t.remaining > 0 && !HasId(v, t.id) && t.id != ""
  {
  }

  /** What is left of a ready taker may rest whenever it is bookable. */
  lemma RemainderRests(c: Config, issued: map<string, nat>, side: Side, t: Order, o: Order)
    requires Ready(c, issued, side, t) && SameTerms(t, o) && !o.status.UnsetStatus?
    ensures Normalize(c, o) == o && (IsBookable(o) ==> Resting(c, issued, o))
  {
  }

  ghost predicate WritesBack(c: Config, issued: map<string, nat>, items: seq<Order>) {
    forall o :: o in items ==> Normalize(c, o) == o && (IsBookable(o) ==> Resting(c, issued, o))
  }

  /** The result of matching an accepted taker, before it is booked. */
  lemma MatchedResult(c: Config, issued: map<string, nat>, v: View, t: Order, ids: TradeIds, now: int)
    requires WF(c, issued, v) && Ready(c, issued, Opposite(t.side), t)
    requires MatchAndBook(v, t, ids, now).outcome.Done?
    ensures var o := MatchAndBook(v, t, ids, now).outcome.value;
            && o.makers == NewMakers(MatchResult(t, [], []), v.On(Opposite(t.side)), ids, now)
            && SameTerms(t, o.taker) && !o.taker.status.UnsetStatus?
            && WritesBack(c, issued, o.makers) && WritesBack(c, issued, [o.taker])
  {
    var r, side := MatchResult(t, [], []), Opposite(t.side);
    SweepSelfTrade(r, v.On(side), ids, now);
    SweepExtends(r, v.On(side), ids, now);
    SweepMakers(r, v.On(side), ids, now);
    NewMakersRest(c, issued, v, side, r, ids, now);
    RemainderRests(c, issued, side, t, MatchAndBook(v, t, ids, now).outcome.value.taker);
  }

  /** A self-trade expires the taker with something left to fill. */
  lemma {:induction false} SweepSelfTrade(r: MatchResult, q: seq<Order>, ids: TradeIds, now: int)
    requires Sweep(r, q, ids, now).Swept?
    ensures var out := Sweep(r, q, ids, now);
            out.selfTrade ==>
              out.result.taker.status.Expired? && out.result.taker.remaining > 0 && out.result.taker.updatedAt == now
    decreases |q|, r.taker.remaining
  {
    if Trades(r, q) {
      SweepSelfTrade(Execute(r, q[0], ids, now), AfterHit(q, HitMaker(r, q, now)), ids, now);
    }
  }

  lemma MatchAndBookEffect(c: Config, issued: map<string, nat>, v: View, t: Order, ids: TradeIds, now: int)
    requires WF(c, issued, v) && Ready(c, issued, Opposite(t.side), t) && !HasId(v, t.id) && t.id != ""
    ensures var a := MatchAndBook(v, t, ids, now);
            && WF(c, issued, a.view)
            && (a.outcome.Done? ==>
                  && Members(a.view) == SyncAll(Members(v), Touched(a.outcome.value))
                  && WritesBack(c, issued, Touched(a.outcome.value)))
  {
    var r, side := MatchResult(t, [], []), Opposite(t.side);
    var a := MatchAndBook(v, t, ids, now);
    SweepEffect(c, issued, v, side, r, ids, now);
    if a.outcome.Done? {
      var w, o := v.With(side, Sweep(r, v.On(side), ids, now).rest), a.outcome.value.taker;
      MatchedResult(c, issued, v, t, ids, now);
      assert o in [o];
      BookEffect(c, issued, w, o);
      assert SyncAll(Members(w), [o]) == Sync(Members(w), o);
      SyncAllSplit(Members(v), a.outcome.value.makers, [o]);
    }
  }

  /** `Apply` keeps the book well formed, error or not, and a successful one writes exactly
      the makers and the taker of its result into the active orders. */
  lemma ApplyEffect(c: Config, issued: map<string, nat>, v: View, taker: Order, ids: TradeIds, now: int)
    requires WF(c, issued, v) && Ticketed(issued, taker)
    ensures var a := ApplySpec(c, v, taker, ids, now);
            && WF(c, issued, a.view)
            && (a.outcome.Done? ==>
                  && Members(a.view) == SyncAll(Members(v), Touched(a.outcome.value))
                  && WritesBack(c, issued, Touched(a.outcome.value)))
  {
    if Refusal(c, v, taker).None? {
      AcceptedIsReady(c, issued, v, taker);
      MatchAndBookEffect(c, issued, v, Prepared(c, taker), ids, now);
    }
  }

  /** Replaying a logged result has the effect of matching: `ApplyResult` on a copy of the
      earlier book gives the very book `Apply` left behind, and never fails. */
  lemma ReplayIsApply(c: Config, issued: map<string, nat>, v: View, taker: Order, ids: TradeIds, now: int)
    requires WF(c, issued, v) && Ticketed(issued, taker)
    requires ApplySpec(c, v, taker, ids, now).outcome.Done?
    ensures var a := ApplySpec(c, v, taker, ids, now);
            ReplaySpec(c, v, a.outcome.value) == Inserted(a.view, None)
  {
    var a := ApplySpec(c, v, taker, ids, now);
    ApplyEffect(c, issued, v, taker, ids, now);
    ReplayOrdersEffect(c, issued, v, Touched(a.outcome.value));
    CanonicalView(c, issued, ReplaySpec(c, v, a.outcome.value).view, a.view);
  }
}
