/** What becomes of a taker in the batched loop (`match`, internal/app/orders/service.go): which rows it is offered,
    and what is left on offer when the loop ends. */
module MatchFates {
  import opened Orders
  import opened Engine
  import opened Priority
  import opened BookSpec
  import opened Sweeping
  import opened Projection
  import opened Batching
  import opened TakerFates

  /** A row the service has to offer to a taker: active, of its market, on the other side, within its limit; a market
      sell takes any positive price whatever it names. */
  predicate Offers(m: Order, t: Order) {
    && m.id != t.id && m.market == t.market && m.side == (if t.side.Buy? then Sell else Buy)
    && !m.kind.Market? && (m.status.Open? || m.status.PartiallyFilled?) && m.remaining >= 5_000_000_000
    && if t.side.Buy? then m.price <= t.price else m.price >= if t.kind.Market? then 1 else t.price
  }

  /** The candidates are exactly the rows on offer. */
  lemma {:induction false} CandidatesExact(rows: seq<Order>, t: Order)
    requires t.side.Buy? || t.side.Sell?
    ensures forall m :: m in AllCandidates(rows, ServiceTaker(t)) <==> m in rows && Offers(m, t)
  {
    if rows != [] {
      CandidatesExact(rows[1..], t);
      assert rows == [rows[0]] + rows[1..];
    }
  }

  /** ... in the order of the rows. */
  lemma {:induction false} CandidatesSorted(side: Side, rows: seq<Order>, t: Order)
    requires Sorted(side, rows)
    ensures Sorted(side, AllCandidates(rows, t)) && forall m :: m in AllCandidates(rows, t) ==> m in rows
  {
    if rows != [] {
      var all := AllCandidates(rows[1..], t);
      CandidatesSorted(side, rows[1..], t);
      assert rows == [rows[0]] + rows[1..];
      forall i | 0 <= i < |all| ensures Before(side, rows[0], all[i]) {
        assert all[i] in all;
        var k :| 0 <= k < |rows[1..]| && rows[1..][k] == all[i];
        assert rows[k + 1] == all[i];
      }
    }
  }

  /** A page is the first 500 candidates, or all of them if there are fewer. */
  lemma PageIs(rows: seq<Order>, t: Order)
    ensures var all, page := AllCandidates(rows, t), Candidates(rows, t, BATCH);
            page <= all && |page| == if |all| < 500 then |all| else 500
  {
  }

  /** Saving a maker replaces its row, drops it if it is filled or too small to stay active, and keeps the priority of
      the rows. */
  lemma SavedMakerIff(side: Side, rows: seq<Order>, m: Order, x: Order)
    ensures x in SaveRow(side, rows, m) <==>
              || (x in rows && x.id != m.id)
              || (x == m && !m.kind.Market? && (m.status.Open? || m.status.PartiallyFilled?) &&
                  m.remaining >= 5_000_000_000)
    ensures Sorted(side, rows) && (forall o :: o in rows && o.id != m.id ==> o.sequence != m.sequence) ==>
              Sorted(side, SaveRow(side, rows, m))
  {
    var rest := RemoveId(rows, m.id);
    RemoveMembers(rows, m.id);
    InsertMembers(side, rest, m);
    if Sorted(side, rows) && forall o :: o in rows && o.id != m.id ==> o.sequence != m.sequence {
      RemoveKeepsSorted(side, rows, m.id);
      InsertKeepsSorted(side, rest, m);
    }
  }

  /** The loop ended with the taker filled, with nothing more on offer, or before an order of the taker's own. */
  ghost predicate Drained(r: MatchResult, o: MatchResult, q: seq<Order>) {
    && SameTerms(r.taker, o.taker) && o.taker.remaining >= 0
    && r.trades <= o.trades && r.makers <= o.makers
    && (o.taker.remaining == 0 && r.taker.remaining > 0 ==> o.taker.status.Filled?)
    && (o.taker.remaining > 0 && q != [] ==> SameUser(r.taker, q[0]) && o.taker.status.Expired?)
    && (o.taker.remaining > 0 && q == [] ==>
          o.taker.status == if |o.trades| > |r.trades| then PartiallyFilled else r.taker.status)
  }

  /** How a scan of crossing makers leaves its taker. */
  lemma {:induction false} ScanEnds(r: MatchResult, makers: seq<Order>, ids: TradeIds, now: int)
    requires AllCross(r.taker, makers) && r.taker.remaining > 0 && Scan(r, makers, ids, now).Done?
    ensures var o := Scan(r, makers, ids, now).value;
            && r.trades <= o.trades && r.makers <= o.makers && o.taker.remaining >= 0 && SameTerms(r.taker, o.taker)
            && (o.taker.remaining == 0 ==> o.taker.status.Filled?)
            && (o.taker.remaining > 0 && |o.makers| - |r.makers| == |makers| ==>
                  o.taker.status == if makers == [] then r.taker.status else PartiallyFilled)
    decreases |makers|
  {
    if makers != [] {
      var next := Execute(r, makers[0], ids, now);
      CrossTail(r.taker, next.taker, makers);
      if EligibleMaker(r.taker, makers[0]) {
        if next.taker.remaining > 0 {
          ScanEnds(next, makers[1..], ids, now);
        }
      }
    }
  }

  /** A page that starts with an order of the taker's own ends the loop. */
  lemma OwnOrderStops(rows: seq<Order>, r: MatchResult, ids: TradeIds, clock: nat -> int, n: nat)
    requires Keyed(rows) && ValidateTaker(ServiceTaker(r.taker).(remaining := 1)).None? && r.taker.remaining > 0
    requires var all := AllCandidates(rows, ServiceTaker(r.taker)); all != [] && SameUser(r.taker, all[0])
    ensures MatchBatches(rows, r, ids, clock, n) ==
              Done(r.(taker := r.taker.(status := Expired, updatedAt := clock(n))))
  {
    var t := ServiceTaker(r.taker);
    var all, page := AllCandidates(rows, t), Candidates(rows, t, BATCH);
    CandidatesCross(rows, t);
    assert page[0] == all[0] && all[0] in all;
    SelfStops(MatchResult(t, [], []), page, After(ids, |r.trades|), clock(n));
    assert r.makers + [] == r.makers && r.trades + [] == r.trades;
  }

  /** One page of the loop. */
  ghost predicate Paged(rows: seq<Order>, r: MatchResult, o: MatchResult) {
    var t := ServiceTaker(r.taker);
    var all, left := AllCandidates(rows, t), SaveRows(Opposite(t.side), rows, o.makers);
    var next := Extend(r, o);
    && SameTerms(t, o.taker) && o.taker.remaining >= 0 && |o.trades| == |o.makers| <= |all|
    && (o.taker.remaining == 0 ==> o.taker.status.Filled?)
    && (o.taker.remaining > 0 ==> Keyed(left) && AllCandidates(left, ServiceTaker(next.taker)) == all[|o.makers|..])
    && (o.taker.remaining > 0 ==>
          || (o.taker.status.PartiallyFilled? && o.trades != [])
          || (o.taker.status.Expired? && |o.makers| < |all| && SameUser(r.taker, all[|o.makers|])))
    && (o.trades == [] ==> o.taker.remaining == r.taker.remaining)
  }

  lemma PageDrains(rows: seq<Order>, r: MatchResult, ids: TradeIds, now: int)
    requires Keyed(rows) && ValidateTaker(ServiceTaker(r.taker).(remaining := 1)).None? && r.taker.remaining > 0
    requires var t := ServiceTaker(r.taker);
             && Candidates(rows, t, BATCH) != []
             && MatchLimitSpec(t, Candidates(rows, t, BATCH), After(ids, |r.trades|), now).Done?
    ensures var t := ServiceTaker(r.taker);
            Paged(rows, r, MatchLimitSpec(t, Candidates(rows, t, BATCH), After(ids, |r.trades|), now).value)
  {
    var t := ServiceTaker(r.taker);
    var first, page := MatchResult(t, [], []), Candidates(rows, t, BATCH);
    var all := AllCandidates(rows, t);
    AllCandidatesCross(rows, t, t);
    ScanHits(first, page, After(ids, |r.trades|), now);
    ScanEnds(first, page, After(ids, |r.trades|), now);
    var o := Scan(first, page, After(ids, |r.trades|), now).value;
    ReopenKeeps(first, page, o);
    if o.taker.remaining > 0 {
      RowsLeft(rows, r, page, o);
      assert |o.makers| < |page| ==> page[|o.makers|] == all[|o.makers|];
    }
  }

  lemma DrainsMore(r: MatchResult, batch: MatchResult, next: MatchResult, o: MatchResult, q: seq<Order>)
    requires next == Extend(r, batch) && SameTerms(ServiceTaker(r.taker), batch.taker) && batch.trades != []
    requires batch.taker.remaining > 0 && batch.taker.status.PartiallyFilled? && Drained(next, o, q)
    ensures Drained(r, o, q)
  {
  }

  /** The rows after the makers `o` has beyond `r` are saved, and what they still offer to the taker of `r`. */
  ghost predicate DrainedFrom(rows: seq<Order>, r: MatchResult, o: MatchResult) {
    && r.makers <= o.makers
    && var left := SaveRows(Opposite(r.taker.side), rows, o.makers[|r.makers|..]);
       Drained(r, o, AllCandidates(left, ServiceTaker(r.taker)))
  }

  /** A page after which nothing else is tried. */
  lemma LastPage(rows: seq<Order>, r: MatchResult, batch: MatchResult, o: MatchResult)
    requires Keyed(rows) && r.taker.remaining > 0 && Paged(rows, r, batch) && !r.taker.side.OtherSide?
    requires o == Extend(r, batch) && (batch.trades == [] || batch.taker.remaining == 0 || batch.taker.status.Expired?)
    ensures DrainedFrom(rows, r, o)
  {
    var t, left := ServiceTaker(r.taker), SaveRows(Opposite(r.taker.side), rows, batch.makers);
    assert o.makers[|r.makers|..] == batch.makers;
    CandidatesIgnoreFill(left, t, ServiceTaker(o.taker));
  }

  /** A page after which the loop goes on. */
  lemma NextPage(rows: seq<Order>, r: MatchResult, batch: MatchResult, o: MatchResult)
    requires SameTerms(ServiceTaker(r.taker), batch.taker) && batch.trades != []
    requires batch.taker.remaining > 0 && batch.taker.status.PartiallyFilled?
    requires DrainedFrom(SaveRows(Opposite(r.taker.side), rows, batch.makers), Extend(r, batch), o)
    ensures DrainedFrom(rows, r, o)
  {
    var side, next := Opposite(r.taker.side), Extend(r, batch);
    var rest := o.makers[|next.makers|..];
    SaveRowsSplit(side, rows, batch.makers, rest);
    assert o.makers[|r.makers|..] == batch.makers + rest;
    var after := SaveRows(side, SaveRows(side, rows, batch.makers), rest);
    CandidatesIgnoreFill(after, ServiceTaker(r.taker), ServiceTaker(next.taker));
    DrainsMore(r, batch, next, o, AllCandidates(after, ServiceTaker(r.taker)));
  }

  /** Pages of candidates until the taker is filled, meets an order of its own, or nothing is on offer. */
  lemma {:induction false} BatchesDrain(rows: seq<Order>, r: MatchResult, ids: TradeIds, clock: nat -> int, n: nat)
    requires Keyed(rows) && ValidateTaker(ServiceTaker(r.taker).(remaining := 1)).None? && r.taker.remaining >= 0
    requires MatchBatches(rows, r, ids, clock, n).Done?
    ensures DrainedFrom(rows, r, MatchBatches(rows, r, ids, clock, n).value)
    decreases r.taker.remaining
  {
    var t, side := ServiceTaker(r.taker), Opposite(r.taker.side);
    var page := Candidates(rows, t, BATCH);
    if r.taker.remaining > 0 && page != [] {
      PageDrains(rows, r, ids, clock(n));
      var batch := MatchLimitSpec(t, page, After(ids, |r.trades|), clock(n)).value;
      var next, left := Extend(r, batch), SaveRows(side, rows, batch.makers);
      if batch.trades != [] && batch.taker.remaining > 0 && !batch.taker.status.Expired? {
        TradesShrink(t, page, After(ids, |r.trades|), clock(n));
        BatchesDrain(left, next, ids, clock, n + 1);
        NextPage(rows, r, batch, MatchBatches(left, next, ids, clock, n + 1).value);
      } else {
        if batch.trades != [] && batch.taker.remaining > 0 {
          CandidatesIgnoreFill(left, t, ServiceTaker(next.taker));
          OwnOrderStops(left, next, ids, clock, n + 1);
          LastPage(rows, r, batch, next);
          Restamped(rows, r, next, clock(n + 1));
        } else {
          LastPage(rows, r, batch, next);
        }
      }
    }
  }

  lemma Restamped(rows: seq<Order>, r: MatchResult, o: MatchResult, now: int)
    requires DrainedFrom(rows, r, o) && o.taker.status.Expired?
    ensures DrainedFrom(rows, r, o.(taker := o.taker.(status := Expired, updatedAt := now)))
  {
  }

  /** What is left of a taker after `match`: filled; or expired, if it may not wait or an order of its own is next among
      the rows left; or open or partially filled, and then no row left is on offer to it. */
  lemma MatchFate(rows: seq<Order>, taker: Order, ids: TradeIds, clock: nat -> int)
    requires Keyed(rows) && ValidateTaker(ServiceTaker(taker)).None? && MatchSpec(rows, taker, ids, clock).Done?
    ensures var r := MatchSpec(rows, taker, ids, clock).value;
            var left := SaveRows(if taker.side.Buy? then Sell else Buy, rows, r.makers);
            && (r.taker.remaining == 0 ==> r.taker.status.Filled?)
            && (r.taker.remaining > 0 && (taker.kind.Market? || taker.timeInForce.IOC?) ==> r.taker.status.Expired?)
            && (r.taker.remaining > 0 && !(exists m :: m in left && Offers(m, taker) && SameUser(taker, m)) ==>
                  && (forall m :: m in left ==> !Offers(m, taker))
                  && (!taker.kind.Market? && !taker.timeInForce.IOC? && taker.status.Open? ==>
                        r.taker.status == if r.trades != [] then PartiallyFilled else Open))
            && (r.taker.remaining > 0 && (exists m :: m in left && Offers(m, taker)) ==> r.taker.status.Expired?)
  {
    var first := MatchResult(taker, [], []);
    var o := MatchBatches(rows, first, ids, clock, 0).value;
    BatchesDrain(rows, first, ids, clock, 0);
    assert o.makers[0..] == o.makers;
    var left := SaveRows(Opposite(taker.side), rows, o.makers);
    CandidatesExact(left, taker);
    var q := AllCandidates(left, ServiceTaker(taker));
    assert q != [] ==> q[0] in q;
  }

  lemma MatchDraws(rows: seq<Order>, taker: Order, ids: TradeIds, clock: nat -> int)
    requires Keyed(rows) && ValidateTaker(ServiceTaker(taker)).None? && MatchSpec(rows, taker, ids, clock).Done?
    ensures var trades := MatchSpec(rows, taker, ids, clock).value.trades;
            forall k :: 0 <= k < |trades| ==> trades[k].id == ids(k)
  {
    var t := ServiceTaker(taker);
    BatchedIsWhole(rows, taker, ids, clock, 0);
    MatchLimitDraws(t, AllCandidates(rows, t), ids, 0);
    var trades, whole := MatchSpec(rows, taker, ids, clock).value.trades, WholeMatch(rows, taker, ids, 0).value.trades;
    forall k | 0 <= k < |trades| ensures trades[k].id == ids(k) {
      assert SameTrade(whole[k], trades[k]);
    }
  }
}
