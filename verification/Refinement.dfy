/** The resident book refines the list matcher: `Apply` against `MatchLimit` on the flattened side. */
module Refinement {
  import opened Orders
  import opened Engine
  import opened Priority
  import opened BookSpec
  import opened Sweeping
  import opened BookRuns

  /** The result as the list matcher sees it: a market sell carries its effective price. */
  function Effective(r: MatchResult): MatchResult {
    r.(taker := EffectiveTaker(r.taker))
  }

  /** Makers that do not cross leave a scan where it is. */
  lemma {:induction false} ScanIdle(r: MatchResult, q: seq<Order>, ids: TradeIds, now: int)
    requires forall m :: m in q ==> !CrossesPrice(r.taker, m)
    ensures Scan(r, q, ids, now) == Done(r)
    decreases |q|
  {
    if q != [] {
      assert q[0] in q;
      ScanIdle(r, q[1..], ids, now);
    }
  }

  /** If the best order of a side does not cross, none does. */
  lemma BestDecides(c: Config, issued: map<string, nat>, side: Side, q: seq<Order>, t: Order)
    requires c.market != "" && SideOk(c, issued, side, q) && q != [] && t.market == c.market && side == Opposite(t.side)
    requires !CrossesPrice(t, q[0]) && forall m :: m in q ==> m.id != t.id
    ensures forall m :: m in q ==> !CrossesPrice(t, m)
  {
    assert q[0] in q;
    forall m | m in q ensures !CrossesPrice(t, m) {
      assert m == q[0] || Before(side, q[0], m);
    }
  }

  /** The scan over a sorted side makes exactly the executions of the book's loop. */
  lemma {:induction false} ScanFollowsSweep(c: Config, issued: map<string, nat>, side: Side, q: seq<Order>,
                                            r: MatchResult, ids: TradeIds, now: int)
    requires c.market != "" && SideOk(c, issued, side, q) && forall m :: m in q ==> m.id != r.taker.id
    requires r.taker.market == c.market && side == Opposite(r.taker.side)
    ensures match Sweep(r, q, ids, now)
            case SweepFailed(e, _) => Scan(Effective(r), q, ids, now) == Failed(e)
            case Swept(o, _, _) => Scan(Effective(r), q, ids, now) == Done(Effective(o))
    decreases |q|, r.taker.remaining
  {
    if Trades(r, q) {
      var maker, next := HitMaker(r, q, now), Execute(r, q[0], ids, now);
      assert Effective(next) == Execute(Effective(r), q[0], ids, now);
      if maker.status.Filled? {
        assert forall m :: m in q[1..] ==> m in q;
        ScanFollowsSweep(c, issued, side, q[1..], next, ids, now);
      }
    } else if r.taker.remaining > 0 && q != [] && !CrossesPrice(EffectiveTaker(r.taker), q[0]) {
      BestDecides(c, issued, side, q, EffectiveTaker(r.taker));
      ScanIdle(Effective(r), q, ids, now);
    }
  }

  /** What the caller of `MatchLimit` does with its taker: the limit price returns, and a remainder expires
      when it may not rest. */
  function Dispose(m: Order, price: int): Order {
    var o := m.(price := price);
    if o.remaining > 0 && IsImmediateOnly(o) then o.(status := Expired)
    else if o.remaining > 0 && !o.status.PartiallyFilled? && !o.status.Expired? then o.(status := Open)
    else o
  }

  /** A taker that starts out neither partially filled nor expired, or that may not rest anyway. */
  predicate FreshTaker(t: Order) {
    IsImmediateOnly(t) || !(t.status.PartiallyFilled? || t.status.Expired?)
  }

  /** The list matcher on the flattened opposite side, with the taker the book would match. */
  function ListOutcome(c: Config, v: View, taker: Order, ids: TradeIds, now: int): Outcome<MatchResult> {
    var t := Prepared(c, taker);
    MatchLimitSpec(EffectiveTaker(t), v.On(Opposite(t.side)), ids, now)
  }

  lemma ScanOfBook(c: Config, issued: map<string, nat>, v: View, taker: Order, ids: TradeIds, now: int)
    requires WF(c, issued, v) && Refusal(c, v, taker).None?
    ensures var t := Prepared(c, taker);
            match Sweep(MatchResult(t, [], []), v.On(Opposite(t.side)), ids, now)
            case SweepFailed(e, _) => ListOutcome(c, v, taker, ids, now) == Failed(e)
            case Swept(o, _, _) =>
              ListOutcome(c, v, taker, ids, now) == Done(Effective(o).(taker := Reopen(Effective(o).taker)))
  {
    var t := Prepared(c, taker);
    var q := v.On(Opposite(t.side));
    assert forall m :: m in q ==> Has(v, m);
    ScanFollowsSweep(c, issued, Opposite(t.side), q, MatchResult(t, [], []), ids, now);
  }

  predicate StatusExplained(r: MatchResult, o: MatchResult, selfTrade: bool) {
    if selfTrade then o.taker.status.Expired? && o.taker.remaining > 0
    else if |o.trades| > |r.trades| then o.taker.status == StatusForRemaining(o.taker.remaining)
    else o.taker.status == r.taker.status && o.taker.remaining == r.taker.remaining
  }

  /** The status matching leaves: filled or partially filled by the last execution, expired by a self-trade,
      or the one it found. */
  lemma {:induction false} SweepStatus(r: MatchResult, q: seq<Order>, ids: TradeIds, now: int)
    requires Sweep(r, q, ids, now).Swept?
    ensures var out := Sweep(r, q, ids, now); StatusExplained(r, out.result, out.selfTrade)
    decreases |q|, r.taker.remaining
  {
    if Trades(r, q) {
      SweepExtends(Execute(r, q[0], ids, now), AfterHit(q, HitMaker(r, q, now)), ids, now);
      SweepStatus(Execute(r, q[0], ids, now), AfterHit(q, HitMaker(r, q, now)), ids, now);
    }
  }

  /** The last lines of `Apply` and those after a `MatchLimit` treat a fresh taker alike. */
  lemma FinishIsDispose(t: Order, o: MatchResult, selfTrade: bool, now: int)
    requires SameTerms(t, o.taker) && t.remaining > 0 && FreshTaker(t)
    requires StatusExplained(MatchResult(t, [], []), o, selfTrade)
    ensures Finish(o, selfTrade, now).taker == Dispose(Reopen(EffectiveTaker(o.taker)), t.price).(updatedAt := now)
  {
    var d := Dispose(Reopen(EffectiveTaker(o.taker)), t.price);
    assert d == o.taker.(status := d.status);
    assert IsImmediateOnly(o.taker) == IsImmediateOnly(t);
    assert Finish(o, selfTrade, now).taker.status == d.status;
  }

  lemma AcceptedRefines(c: Config, issued: map<string, nat>, v: View, taker: Order, ids: TradeIds, now: int)
    requires WF(c, issued, v) && Refusal(c, v, taker).None?
    ensures Agrees(c, v, taker, ids, now)
  {
    var t := Prepared(c, taker);
    var r, q := MatchResult(t, [], []), v.On(Opposite(t.side));
    ScanOfBook(c, issued, v, taker, ids, now);
    var out := Sweep(r, q, ids, now);
    if out.Swept? {
      SweepExtends(r, q, ids, now);
      SweepStatus(r, q, ids, now);
      if FreshTaker(t) {
        FinishIsDispose(t, out.result, out.selfTrade, now);
      }
    }
  }

  /** The book and the list matcher accept and refuse alike and report the same makers and trades. For a fresh
      taker they agree on the whole taker too, up to the time stamp of a taker nobody touched. */
  ghost predicate Agrees(c: Config, v: View, taker: Order, ids: TradeIds, now: int) {
    match (ApplySpec(c, v, taker, ids, now).outcome, ListOutcome(c, v, taker, ids, now))
    case (Failed(e), Failed(f)) => e == f
    case (Done(a), Done(m)) =>
      && a.makers == m.makers && a.trades == m.trades
      && a.taker.filled == m.taker.filled && a.taker.remaining == m.taker.remaining
      && (FreshTaker(Prepared(c, taker)) ==>
            a.taker == Dispose(m.taker, Prepared(c, taker).price).(updatedAt := now))
    case _ => false
  }

  /** `Apply` refines `MatchLimit`, for every well-formed book and every taker of its market that is not already
      active. */
  lemma ApplyRefinesMatchLimit(c: Config, issued: map<string, nat>, v: View, taker: Order, ids: TradeIds, now: int)
    requires WF(c, issued, v)
    requires !HasId(v, taker.id) && ValidateMarket(c, Normalize(c, taker)).None?
    ensures Agrees(c, v, taker, ids, now)
  {
    if Refusal(c, v, taker).None? {
      AcceptedRefines(c, issued, v, taker, ids, now);
    }
  }

  ghost predicate TakersAgree(c: Config, v: View, taker: Order, ids: TradeIds, now: int) {
    var a, m := ApplySpec(c, v, taker, ids, now).outcome, ListOutcome(c, v, taker, ids, now);
    a.Done? && m.Done? ==>
      a.value.taker == Dispose(m.value.taker, Prepared(c, taker).price).(updatedAt := now)
  }

  /** Freshness is the exact condition: a resubmitted taker that is partially filled (or expired) is reopened by
      `Apply` where `MatchLimit` keeps its status, already on an empty book. */
  lemma TakersAgreeIffFresh(c: Config, issued: map<string, nat>, taker: Order, ids: TradeIds, now: int)
    requires c.market != "" && Issue(issued) && Refusal(c, EMPTY_VIEW, taker).None?
    ensures FreshTaker(Prepared(c, taker)) <==>
            forall v :: WF(c, issued, v) && !HasId(v, taker.id) ==> TakersAgree(c, v, taker, ids, now)
  {
    forall v | WF(c, issued, v) && !HasId(v, taker.id)
      ensures FreshTaker(Prepared(c, taker)) ==> TakersAgree(c, v, taker, ids, now)
    {
      ApplyRefinesMatchLimit(c, issued, v, taker, ids, now);
    }
    EmptyIsWF(c, issued);
    assert !HasId(EMPTY_VIEW, taker.id);
    ScanOfBook(c, issued, EMPTY_VIEW, taker, ids, now);
  }
}
