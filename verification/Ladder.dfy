/** One side of the book as the source stores it: a sorted price ladder and a queue per price. */
module Ladder {
  import opened Orders
  import opened Priority

  type Levels = map<int, seq<Order>>

  ghost predicate PricesSorted(side: Side, prices: seq<int>) {
    forall i, j :: 0 <= i < j < |prices| ==> BetterPrice(side, prices[i], prices[j])
  }

  /** A queue of one price, in order of sequence id. */
  ghost predicate QueueOk(price: int, queue: seq<Order>) {
    && (forall i :: 0 <= i < |queue| ==> queue[i].price == price)
    && (forall i, j :: 0 <= i < j < |queue| ==> queue[i].sequence < queue[j].sequence)
  }

  ghost predicate LadderOk(side: Side, prices: seq<int>, levels: Levels) {
    && PricesSorted(side, prices)
    && (forall p :: p in prices <==> p in levels)
    && (forall p :: p in levels ==> levels[p] != [] && QueueOk(p, levels[p]))
  }

  function Queue(levels: Levels, price: int): seq<Order> {
    if price in levels then levels[price] else []
  }

  /** All orders of a side in priority order. */
  function Flatten(prices: seq<int>, levels: Levels): seq<Order> {
    if prices == [] then [] else Queue(levels, prices[0]) + Flatten(prices[1..], levels)
  }

  lemma {:induction false} FlattenMembers(prices: seq<int>, levels: Levels)
    requires forall p :: p in prices ==> p in levels && QueueOk(p, levels[p])
    ensures forall o :: o in Flatten(prices, levels) <==> o.price in prices && o in levels[o.price]
  {
    if prices != [] {
      var p0 := prices[0];
      assert p0 in prices && p0 in levels;
      assert prices == [p0] + prices[1..];
      FlattenMembers(prices[1..], levels);
      forall o ensures o in Flatten(prices, levels) <==> o.price in prices && o in levels[o.price] {
        assert o in levels[p0] ==> o.price == p0;
      }
    }
  }

  lemma {:induction false} FlattenSorted(side: Side, prices: seq<int>, levels: Levels)
    requires PricesSorted(side, prices) && forall p :: p in prices ==> p in levels && QueueOk(p, levels[p])
    ensures Sorted(side, Flatten(prices, levels))
  {
    if prices != [] {
      var p0 := prices[0];
      assert p0 in prices;
      var head, tail := levels[p0], Flatten(prices[1..], levels);
      assert prices == [p0] + prices[1..];
      FlattenSorted(side, prices[1..], levels);
      FlattenMembers(prices[1..], levels);
      var all := head + tail;
      forall i, j | 0 <= i < j < |all| ensures Before(side, all[i], all[j]) {
        if i < |head| && j >= |head| {
          assert tail[j - |head|] in tail;
          var p := all[j].price;
          assert p in prices[1..];
          var k :| 0 <= k < |prices[1..]| && prices[1..][k] == p;
          assert prices[k + 1] == p;
        }
      }
    }
  }

  /** A flattened side determines its ladder and every queue. */
  lemma LadderUnique(side: Side, prices: seq<int>, levels: Levels, prices': seq<int>, levels': Levels)
    requires LadderOk(side, prices, levels) && LadderOk(side, prices', levels')
    requires Flatten(prices, levels) == Flatten(prices', levels')
    ensures prices == prices' && levels == levels'
  {
    FlattenMembers(prices, levels);
    FlattenMembers(prices', levels');
    SamePrices(side, prices, levels, prices', levels');
    SamePrices(side, prices', levels', prices, levels);
    SortedPricesUnique(side, prices, prices');
    assert levels.Keys == levels'.Keys by {
      assert forall p :: p in levels <==> p in prices;
      assert forall p :: p in levels' <==> p in prices;
    }
    forall p | p in levels ensures levels[p] == levels'[p] {
      SameQueue(prices, levels, levels', p);
    }
  }

  lemma SamePrices(side: Side, prices: seq<int>, levels: Levels, prices': seq<int>, levels': Levels)
    requires LadderOk(side, prices, levels) && LadderOk(side, prices', levels')
    requires Flatten(prices, levels) == Flatten(prices', levels')
    ensures forall p :: p in prices ==> p in prices'
  {
    FlattenMembers(prices, levels);
    FlattenMembers(prices', levels');
    forall p | p in prices ensures p in prices' {
      var o := levels[p][0];
      assert o in levels[p] && o.price == p;
      assert o in Flatten(prices, levels);
    }
  }

  lemma SameQueue(prices: seq<int>, levels: Levels, levels': Levels, p: int)
    requires p in prices
    requires (forall x :: x in prices ==>
              x in levels && QueueOk(x, levels[x]) && x in levels' && QueueOk(x, levels'[x]))
    requires Flatten(prices, levels) == Flatten(prices, levels')
    ensures levels[p] == levels'[p]
  {
    FlattenMembers(prices, levels);
    FlattenMembers(prices, levels');
    var a, b := levels[p], levels'[p];
    forall o ensures o in a <==> o in b {
      assert o in a ==> o.price == p && o in Flatten(prices, levels);
      assert o in b ==> o.price == p && o in Flatten(prices, levels');
    }
    SameMembersSameOrder(Sell, a, b);
  }

  lemma {:induction false} SortedPricesUnique(side: Side, a: seq<int>, b: seq<int>)
    requires PricesSorted(side, a) && PricesSorted(side, b)
    requires forall p :: p in a <==> p in b
    ensures a == b
  {
    forall i | 0 <= i < |a| ensures a[i] in b {
      var p := a[i];
      assert p in a;
    }
    forall i | 0 <= i < |b| ensures b[i] in a {
      var p := b[i];
      assert p in b;
    }
    if a != [] && b != [] {
      assert a == [a[0]] + a[1..] && b == [b[0]] + b[1..];
      assert a[0] == b[0];
      forall p ensures p in a[1..] <==> p in b[1..] {
        assert p in a <==> p == a[0] || p in a[1..];
        assert p in b <==> p == b[0] || p in b[1..];
      }
      SortedPricesUnique(side, a[1..], b[1..]);
    }
  }

  /** Writing a queue that keeps the ladder in shape changes the members of one price only. */
  lemma QueueWritten(side: Side, prices: seq<int>, levels: Levels, prices': seq<int>, levels': Levels, p: int)
    requires LadderOk(side, prices, levels) && LadderOk(side, prices', levels')
    requires forall x :: x != p ==> (x in levels <==> x in levels') && (x in levels ==> levels[x] == levels'[x])
    ensures forall o: Order :: o in Flatten(prices', levels') <==>
              if o.price == p then o in Queue(levels', p) else o in Flatten(prices, levels)
    ensures forall o: Order :: o.price == p ==> (o in Flatten(prices, levels) <==> o in Queue(levels, p))
    ensures Sorted(side, Flatten(prices, levels)) && Sorted(side, Flatten(prices', levels'))
  {
    FlattenMembers(prices, levels);
    FlattenMembers(prices', levels');
    FlattenSorted(side, prices, levels);
    FlattenSorted(side, prices', levels');
  }
}
