/** The price-level index against the resident book: every level is what rests at its price. */
module BookDepth {
  import opened Orders
  import opened Priority
  import opened BookSpec
  import opened Projection
  import opened PriceLevels

  /** What rests at a price of a queue. */
  function DepthAt(q: seq<Order>, price: int): int {
    if q == [] then 0 else (if q[0].price == price then q[0].remaining else 0) + DepthAt(q[1..], price)
  }

  function CountAt(q: seq<Order>, price: int): nat {
    if q == [] then 0 else (if q[0].price == price then 1 else 0) + CountAt(q[1..], price)
  }

  /** The first to be matched at a price. */
  function NextAt(q: seq<Order>, price: int): Option<Order> {
    if q == [] then None else if q[0].price == price then Some(q[0]) else NextAt(q[1..], price)
  }

  ghost function AtPrice(q: seq<Order>, price: int): set<Order> {
    set o | o in q && o.price == price
  }

  /** The level of a queue at a price, row by row and in order. */
  ghost predicate Aggregates(rows: set<Order>, q: seq<Order>, price: int) {
    && SumRemaining(rows) == DepthAt(q, price) && |rows| == CountAt(q, price)
    && (rows == {} <==> NextAt(q, price).None?)
    && (rows != {} ==> MinSequence(rows) == NextAt(q, price).value.sequence)
  }

  lemma OneMoreRow(rows: set<Order>, q: seq<Order>, price: int)
    requires q != [] && q[0].price == price && q[0] !in rows && Aggregates(rows, q[1..], price)
    requires forall o :: o in rows ==> q[0].sequence < o.sequence
    ensures Aggregates(rows + {q[0]}, q, price)
  {
    SumMore(rows, q[0]);
    MinMore(rows, q[0]);
    if rows != {} {
      var o :| o in rows && o.sequence == MinSequence(rows);
    }
  }

  lemma OtherRow(rows: set<Order>, q: seq<Order>, price: int)
    requires q != [] && q[0].price != price && Aggregates(rows, q[1..], price)
    ensures Aggregates(rows, q, price)
  {
  }

  lemma AtPriceFront(side: Side, q: seq<Order>, price: int)
    requires Sorted(side, q) && q != []
    ensures Sorted(side, q[1..])
    ensures AtPrice(q, price) == AtPrice(q[1..], price) + if q[0].price == price then {q[0]} else {}
    ensures q[0].price == price ==>
              q[0] !in AtPrice(q[1..], price) && forall o :: o in AtPrice(q[1..], price) ==> q[0].sequence < o.sequence
  {
    FrontFirst(side, q);
    assert q == [q[0]] + q[1..];
  }

  lemma {:induction false} QueueAggregates(side: Side, q: seq<Order>, price: int)
    requires Sorted(side, q)
    ensures Aggregates(AtPrice(q, price), q, price)
  {
    if q == [] {
      SumNothing();
      assert AtPrice(q, price) == {};
    } else {
      var rest := AtPrice(q[1..], price);
      AtPriceFront(side, q, price);
      QueueAggregates(side, q[1..], price);
      if q[0].price == price {
        OneMoreRow(rest, q, price);
      } else {
        OtherRow(rest, q, price);
        assert rest + {} == rest;
      }
    }
  }

  lemma FrontFirst(side: Side, q: seq<Order>)
    requires Sorted(side, q) && q != []
    ensures forall o :: o in q[1..] ==> Before(side, q[0], o)
  {
    forall o | o in q[1..] ensures Before(side, q[0], o) {
      var i :| 0 <= i < |q[1..]| && q[1..][i] == o;
      assert q[i + 1] == o;
    }
  }

  lemma SumNothing()
    ensures SumRemaining({}) == 0
  {
  }

  /** What rests at a price of a book, as a level. */
  function Resting(q: seq<Order>, price: int): Option<Level> {
    match NextAt(q, price)
    case None => None
    case Some(next) => Some(Level(DepthAt(q, price), CountAt(q, price), next.sequence))
  }

  /** An index in sync with a projection that shows the whole book holds, for every price of either side, the quantity
      and the number of the orders resting there and the sequence of the next one to be matched, and no other level of
      the market. */
  lemma LevelsShowBook(c: Config, issued: map<string, nat>, v: View, levels: map<Key, Level>, side: Side, price: int)
    requires WF(c, issued, v) && NoDust(v) && InSync(Members(v), levels) && !side.OtherSide?
    ensures Stored(levels, Key(c.market, side, price)) == Resting(v.On(side), price)
  {
    var q, k := v.On(side), Key(c.market, side, price);
    QueueAggregates(side, q, price);
    forall o ensures o in RowsAt(Members(v), k) <==> o in AtPrice(q, price) {
      assert o in Members(v) <==> Has(v, o);
      if Has(v, o) {
        assert BookSpec.Resting(c, issued, o);
      }
    }
    assert RowsAt(Members(v), k) == AtPrice(q, price);
    assert Stored(levels, k) == LevelAt(Members(v), k);
  }
}
