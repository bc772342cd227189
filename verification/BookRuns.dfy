/** Loading, cancelling and whole runs of the book. */
module BookRuns {
  import opened Orders
  import opened Engine
  import opened Priority
  import opened BookSpec
  import opened Sweeping
  import opened MatchingLaws

  // ---- Load ----

  /** The orders `Load` books out of a list. */
  ghost function Bookable(c: Config, items: seq<Order>): set<Order> {
    set o | o in items && IsBookable(Normalize(c, o)) :: Normalize(c, o)
  }

  /** Every order to be booked may rest, and no two of them share an id. */
  ghost predicate Loadable(c: Config, issued: map<string, nat>, items: seq<Order>) {
    && (forall o :: o in Bookable(c, items) ==> Resting(c, issued, o))
    && (forall i, j :: 0 <= i < j < |items| && IsBookable(Normalize(c, items[i])) && IsBookable(Normalize(c, items[j]))
          ==> items[i].id != items[j].id)
  }

  lemma BookableSplit(c: Config, items: seq<Order>)
    requires items != []
    ensures var o := Normalize(c, items[0]);
            Bookable(c, items) == (if IsBookable(o) then {o} else {}) + Bookable(c, items[1..])
  {
    assert items == [items[0]] + items[1..];
  }

  lemma LoadableTail(c: Config, issued: map<string, nat>, items: seq<Order>)
    requires items != [] && Loadable(c, issued, items)
    ensures Loadable(c, issued, items[1..])
    ensures IsBookable(Normalize(c, items[0])) ==> forall x :: x in Bookable(c, items[1..]) ==> x.id != items[0].id
  {
    var tail := items[1..];
    BookableSplit(c, items);
    assert forall i :: 0 <= i < |tail| ==> tail[i] == items[i + 1];
    if IsBookable(Normalize(c, items[0])) {
      forall x | x in Bookable(c, tail) ensures x.id != items[0].id {
        var k :| 0 <= k < |tail| && IsBookable(Normalize(c, tail[k])) && Normalize(c, tail[k]) == x;
      }
    }
  }

  /** Booking one order makes no other id active. */
  lemma InsertAbsent(v: View, w: View, o: Order, id: string)
    requires !HasId(v, id) && o.id != id && Members(w) == Members(v) + {o}
    ensures !HasId(w, id)
  {
    forall y | Has(w, y) ensures y.id != id {
      assert y in Members(w);
      assert y == o || Has(v, y);
    }
  }

  lemma {:induction false} LoadEffect(c: Config, issued: map<string, nat>, v: View, items: seq<Order>)
    requires WF(c, issued, v) && Loadable(c, issued, items)
    requires forall o :: o in Bookable(c, items) ==> !HasId(v, o.id)
    ensures var l := LoadSpec(c, v, items);
            l.error.None? && WF(c, issued, l.view) && Members(l.view) == Members(v) + Bookable(c, items)
    decreases |items|
  {
    if items != [] {
      var o, tail := Normalize(c, items[0]), items[1..];
      BookableSplit(c, items);
      LoadableTail(c, issued, items);
      if IsBookable(o) {
        assert o in Bookable(c, items);
        InsertKeepsWF(c, issued, v, o);
        var w := v.With(o.side, InsertSorted(o.side, v.On(o.side), o));
        assert InsertSpec(c, v, items[0]) == Inserted(w, None);
        forall x | x in Bookable(c, tail) ensures !HasId(w, x.id) {
          InsertAbsent(v, w, o, x.id);
        }
        LoadEffect(c, issued, w, tail);
      } else {
        LoadEffect(c, issued, v, tail);
      }
    }
  }

  lemma EmptyIsWF(c: Config, issued: map<string, nat>)
    requires c.market != "" && Issue(issued)
    ensures WF(c, issued, EMPTY_VIEW) && Members(EMPTY_VIEW) == {}
  {
  }

  /** The book depends only on the set of its orders: any two loadable lists with the same
      bookable orders, in whatever order, load into the same book. */
  lemma LoadIsCanonical(c: Config, issued: map<string, nat>, items: seq<Order>, others: seq<Order>)
    requires c.market != "" && Issue(issued)
    requires Loadable(c, issued, items) && Loadable(c, issued, others)
    requires Bookable(c, items) == Bookable(c, others)
    ensures LoadSpec(c, EMPTY_VIEW, items) == LoadSpec(c, EMPTY_VIEW, others)
    ensures LoadSpec(c, EMPTY_VIEW, items).error.None?
    ensures Members(LoadSpec(c, EMPTY_VIEW, items).view) == Bookable(c, items)
  {
    EmptyIsWF(c, issued);
    LoadEffect(c, issued, EMPTY_VIEW, items);
    LoadEffect(c, issued, EMPTY_VIEW, others);
    CanonicalView(c, issued, LoadSpec(c, EMPTY_VIEW, items).view, LoadSpec(c, EMPTY_VIEW, others).view);
  }

  /** Loading the captured orders of a well-formed book rebuilds that book. */
  lemma LoadUndoesCapture(c: Config, issued: map<string, nat>, v: View)
    requires WF(c, issued, v)
    ensures LoadSpec(c, EMPTY_VIEW, v.bids + v.asks) == Inserted(v, None)
  {
    var items := v.bids + v.asks;
    EmptyIsWF(c, issued);
    forall o ensures o in items ==> Resting(c, issued, o) && Normalize(c, o) == o && IsBookable(o) {
      assert o in items ==> Has(v, o);
    }
    DistinctCapture(c, issued, v);
    assert Bookable(c, items) == Members(v);
    LoadEffect(c, issued, EMPTY_VIEW, items);
    CanonicalView(c, issued, LoadSpec(c, EMPTY_VIEW, items).view, v);
  }

  lemma DistinctCapture(c: Config, issued: map<string, nat>, v: View)
    requires WF(c, issued, v)
    ensures var items := v.bids + v.asks; forall i, j :: 0 <= i < j < |items| ==> items[i].id != items[j].id
  {
    var items := v.bids + v.asks;
    forall i, j | 0 <= i < j < |items| ensures items[i].id != items[j].id {
      assert Has(v, items[i]) && Has(v, items[j]);
      if j < |v.bids| {
        assert Before(Buy, items[i], items[j]);
      } else if i >= |v.bids| {
        assert Before(Sell, v.asks[i - |v.bids|], v.asks[j - |v.bids|]);
      } else {
        assert v.bids[i].side.Buy? && v.asks[j - |v.bids|].side.Sell?;
      }
    }
  }

  // ---- Cancel ----

  ghost function CancelSpec(v: View, id: string): View {
    Without(v, id)
  }

  /** Cancelling takes the order out and keeps every other one in its place. */
  lemma CancelRemoves(c: Config, issued: map<string, nat>, v: View, id: string)
    requires WF(c, issued, v)
    ensures var w := CancelSpec(v, id);
            && WF(c, issued, w) && (forall o :: Has(w, o) <==> Has(v, o) && o.id != id)
            && (!HasId(v, id) ==> w == v)
  {
    RemoveKeepsWF(c, issued, v, id);
    RemoveMembers(v.bids, id);
    RemoveMembers(v.asks, id);
    if !HasId(v, id) {
      assert forall o :: o in v.bids || o in v.asks ==> Has(v, o);
      RemoveAbsent(v.bids, id);
      RemoveAbsent(v.asks, id);
    }
  }

  lemma {:induction false} RemoveKeepsHead(side: Side, q: seq<Order>, id: string)
    requires Sorted(side, q)
    ensures RemoveId(q, id) != [] ==> q != [] && !BetterPrice(side, RemoveId(q, id)[0].price, q[0].price)
  {
    RemoveMembers(q, id);
    if RemoveId(q, id) != [] {
      var o := RemoveId(q, id)[0];
      assert o in RemoveId(q, id);
      assert o == q[0] || Before(side, q[0], o);
    }
  }

  // ---- Runs ----

  datatype Step = ApplyStep(taker: Order, ids: TradeIds, now: int) | CancelStep(id: string)

  ghost function StepSpec(c: Config, v: View, s: Step): View {
    match s
    case ApplyStep(taker, ids, now) => ApplySpec(c, v, taker, ids, now).view
    case CancelStep(id) => CancelSpec(v, id)
  }

  ghost function RunSpec(c: Config, v: View, steps: seq<Step>): View
    decreases |steps|
  {
    if steps == [] then v else RunSpec(c, StepSpec(c, v, steps[0]), steps[1..])
  }

  /** The invariant of every book reached by matching and cancelling. */
  ghost predicate Reachable(c: Config, issued: map<string, nat>, v: View) {
    WF(c, issued, v) && Uncrossed(v) && QuantitiesAddUp(v)
  }

  ghost predicate Placed(issued: map<string, nat>, s: Step) {
    s.ApplyStep? ==> Ticketed(issued, s.taker) && QuantityAddsUp(s.taker)
  }

  lemma StepInvariant(c: Config, issued: map<string, nat>, v: View, s: Step)
    requires Reachable(c, issued, v) && Placed(issued, s)
    ensures Reachable(c, issued, StepSpec(c, v, s))
    ensures s.CancelStep? ==> forall o :: Has(StepSpec(c, v, s), o) <==> Has(v, o) && o.id != s.id
  {
    match s
    case ApplyStep(taker, ids, now) =>
      ApplyEffect(c, issued, v, taker, ids, now);
      ApplyKeepsUncrossed(c, issued, v, taker, ids, now);
      ApplyConservesQuantity(c, issued, v, taker, ids, now);
    case CancelStep(id) =>
      CancelRemoves(c, issued, v, id);
      RemoveKeepsWF(c, issued, v, id);
      RemoveKeepsHead(Buy, v.bids, id);
      RemoveKeepsHead(Sell, v.asks, id);
      forall o | Has(Without(v, id), o) ensures QuantityAddsUp(o) {
        assert o in Members(Without(v, id));
        assert Has(v, o);
      }
  }

  /** Every run of `Apply` and `Cancel` from the empty book, failed calls included, stays well
      formed, never crosses and conserves every order's quantity. */
  lemma {:induction false} RunInvariant(c: Config, issued: map<string, nat>, v: View, steps: seq<Step>)
    requires Reachable(c, issued, v) && forall s :: s in steps ==> Placed(issued, s)
    ensures Reachable(c, issued, RunSpec(c, v, steps))
    decreases |steps|
  {
    if steps != [] {
      assert steps[0] in steps && forall s :: s in steps[1..] ==> s in steps;
      StepInvariant(c, issued, v, steps[0]);
      RunInvariant(c, issued, StepSpec(c, v, steps[0]), steps[1..]);
    }
  }
}
