/** Price-time priority on one side of the book, and sequences sorted by it.

    Nearly every proof about the book ends in `SameMembersSameOrder`: two strictly
    sorted sequences with the same members are equal.
 */
module Priority {
  import opened Orders

  /** Strictly better price, or the same price and an earlier sequence id. */
  predicate Before(side: Side, a: Order, b: Order) {
    BetterPrice(side, a.price, b.price) || (a.price == b.price && a.sequence < b.sequence)
  }

  predicate BetterPrice(side: Side, p: int, q: int) {
    if side.Buy? then p > q else p < q
  }

  ghost predicate Sorted(side: Side, q: seq<Order>) {
    forall i, j :: 0 <= i < j < |q| ==> Before(side, q[i], q[j])
  }

  /** Inserts `o` in front of the first order it precedes. */
  function InsertSorted(side: Side, q: seq<Order>, o: Order): seq<Order> {
    if q == [] || Before(side, o, q[0]) then [o] + q else [q[0]] + InsertSorted(side, q[1..], o)
  }

  /** Drops the orders with this id, keeping the others in place. */
  function RemoveId(q: seq<Order>, id: string): seq<Order> {
    if q == [] then [] else if q[0].id == id then RemoveId(q[1..], id) else [q[0]] + RemoveId(q[1..], id)
  }

  lemma {:induction false} InsertMembers(side: Side, q: seq<Order>, o: Order)
    ensures forall x :: x in InsertSorted(side, q, o) <==> x == o || x in q
  {
    if q == [] || Before(side, o, q[0]) {
    } else {
      InsertMembers(side, q[1..], o);
      assert q == [q[0]] + q[1..];
    }
  }

  /** Inserting an order that shares its place with nobody keeps the sequence strictly sorted. */
  lemma {:induction false} InsertKeepsSorted(side: Side, q: seq<Order>, o: Order)
    requires Sorted(side, q)
    requires forall x :: x in q ==> x.sequence != o.sequence
    ensures Sorted(side, InsertSorted(side, q, o))
  {
    if q == [] || Before(side, o, q[0]) {
      forall j | 0 < j <= |q| ensures Before(side, o, ([o] + q)[j]) {
        assert j > 1 ==> Before(side, q[0], q[j - 1]);
      }
    } else {
      var rest := InsertSorted(side, q[1..], o);
      assert forall x :: x in q[1..] ==> x in q;
      InsertKeepsSorted(side, q[1..], o);
      InsertMembers(side, q[1..], o);
      forall j | 0 <= j < |rest| ensures Before(side, q[0], rest[j]) {
        assert rest[j] in rest;
        assert q[0] in q;
      }
    }
  }

  lemma {:induction false} RemoveMembers(q: seq<Order>, id: string)
    ensures forall x :: x in RemoveId(q, id) <==> x in q && x.id != id
  {
    if q != [] {
      RemoveMembers(q[1..], id);
      assert q == [q[0]] + q[1..];
    }
  }

  lemma {:induction false} RemoveKeepsSorted(side: Side, q: seq<Order>, id: string)
    requires Sorted(side, q)
    ensures Sorted(side, RemoveId(q, id))
  {
    if q != [] {
      var rest := RemoveId(q[1..], id);
      RemoveKeepsSorted(side, q[1..], id);
      RemoveMembers(q[1..], id);
      forall j | 0 <= j < |rest| ensures Before(side, q[0], rest[j]) {
        assert rest[j] in rest;
      }
    }
  }

  lemma {:induction false} RemoveAbsent(q: seq<Order>, id: string)
    requires forall x :: x in q ==> x.id != id
    ensures RemoveId(q, id) == q
  {
    if q != [] {
      assert q[0] in q;
      RemoveAbsent(q[1..], id);
    }
  }

  /** A strictly sorted side is determined by the set of orders on it. */
  lemma {:induction false} SameMembersSameOrder(side: Side, p: seq<Order>, q: seq<Order>)
    requires Sorted(side, p) && Sorted(side, q)
    requires forall x :: x in p <==> x in q
    ensures p == q
  {
    if p == [] {
      assert forall i :: 0 <= i < |q| ==> q[i] in q;
    } else {
      assert p[0] in q;
      assert q[0] in p;
      assert p[0] == q[0] || Before(side, p[0], q[0]);
      forall x ensures x in p[1..] <==> x in q[1..] {
        if x in p[1..] {
          assert x != p[0];
          assert x in p && x in q;
        }
        if x in q[1..] {
          assert x != q[0];
          assert x in p && x in q;
        }
      }
      SameMembersSameOrder(side, p[1..], q[1..]);
      assert p == [p[0]] + p[1..] && q == [q[0]] + q[1..];
    }
  }
}
