/** The resident book of internal/core/matching/book.go, changed in place. */
module BookSides {
  import opened Orders
  import opened Engine
  import opened Priority
  import opened Ladder
  import opened BookSpec
  import opened Sweeping
  import Decimal

  ghost predicate UniqueIds(q: seq<Order>) {
    forall a, b :: a in q && b in q && a.id == b.id ==> a == b
  }

  /** One side: the price ladder, best price first, and the queue resting at each price. */
  class BookSide {
    const side: Side
    var prices: seq<int>
    var levels: Levels

    ghost predicate Valid()
      reads this
    {
      !side.OtherSide? && LadderOk(side, prices, levels)
    }

    /** The orders of this side in priority order. */
    ghost function Flat(): seq<Order>
      reads this
    {
      Flatten(prices, levels)
    }

    constructor (side: Side)
      requires !side.OtherSide?
      ensures Valid() && Flat() == [] && this.side == side
    {
      this.side := side;
      prices := [];
      levels := map[];
    }

    method BestPrice() returns (best: Option<int>)
      requires Valid()
      ensures best.None? <==> Flat() == []
      ensures best.Some? ==>
                best.value in levels && levels[best.value] != [] && best.value == Flat()[0].price
                && prices != [] && best.value == prices[0] && Flat()[0] == levels[best.value][0]
    {
      if prices == [] {
        return None;
      }
      assert prices[0] in prices;
      best := Some(prices[0]);
    }

    /** Adds a price at its place in the ladder, found by binary search. */
    method InsertPrice(price: int)
      requires PricesSorted(side, prices) && price !in prices
      modifies this`prices
      ensures PricesSorted(side, prices)
      ensures forall p :: p in prices <==> p == price || p in old(prices)
    {
      var lo, hi := 0, |prices|;
      while lo < hi
        invariant 0 <= lo <= hi <= |prices|
        invariant forall k :: 0 <= k < lo ==> BetterPrice(side, prices[k], price)
        invariant forall k :: hi <= k < |prices| ==> BetterPrice(side, price, prices[k])
      {
        var mid := (lo + hi) / 2;
        assert prices[mid] in prices;
        if BetterPrice(side, price, prices[mid]) {
          hi := mid;
        } else {
          lo := mid + 1;
        }
      }
      prices := prices[..lo] + [price] + prices[lo..];
    }

    /** Removes the first occurrence of a price, if there is one. */
    method RemovePrice(price: int)
      requires PricesSorted(side, prices)
      modifies this`prices
      ensures PricesSorted(side, prices)
      ensures forall p :: p in prices <==> p != price && p in old(prices)
    {
      var i := 0;
      while i < |prices| && prices[i] != price
        invariant 0 <= i <= |prices|
        invariant forall k :: 0 <= k < i ==> prices[k] != price
      {
        i := i + 1;
      }
      if i < |prices| {
        ghost var was := prices;
        prices := prices[..i] + prices[i + 1..];
        forall p ensures p in prices <==> p != price && p in was {
          assert was == was[..i] + [was[i]] + was[i + 1..];
          assert p in was[i + 1..] ==> p != price by {
            if p in was[i + 1..] {
              var k :| i < k < |was| && was[k] == p;
            }
          }
        }
      }
    }

    /** Books an order at its place in the queue of its price. */
    method Insert(item: Order)
      requires Valid() && item.side == side && item.sequence > 0
      requires forall o :: o in Flat() ==> o.sequence != item.sequence
      modifies this
      ensures Valid() && Flat() == InsertSorted(side, old(Flat()), item)
    {
      ghost var oldPrices, oldLevels := prices, levels;
      if item.price !in levels {
        InsertPrice(item.price);
      }
      var queue := Queue(levels, item.price);
      QueueDiffers(side, oldPrices, oldLevels, item);
      var at := SearchQueue(queue, item.sequence);
      var extended := queue[..at] + [item] + queue[at..];
      QueueExtended(queue, at, item);
      LadderWritten(side, oldPrices, oldLevels, prices, item.price, extended);
      levels := levels[item.price := extended];
      InsertedLadder(side, oldPrices, oldLevels, prices, levels, item);
    }

    /** Takes the order at an index out of the queue of a price, and the price with its last order. */
    method RemoveAt(price: int, idx: nat) returns (removed: Order)
      requires Valid() && price in levels && idx < |levels[price]|
      requires UniqueIds(Flat())
      modifies this
      ensures Valid() && removed == old(levels[price][idx]) && removed in old(Flat())
      ensures Flat() == RemoveId(old(Flat()), removed.id)
    {
      ghost var oldPrices, oldLevels := prices, levels;
      var queue := levels[price];
      removed := queue[idx];
      var shorter := queue[..idx] + queue[idx + 1..];
      QueueShortened(price, queue, idx);
      assert price in prices;
      if shorter == [] {
        levels := levels - {price};
        RemovePrice(price);
        LadderDropped(side, oldPrices, oldLevels, prices, price);
      } else {
        levels := levels[price := shorter];
        LadderWritten(side, oldPrices, oldLevels, prices, price, shorter);
      }
      RemovedLadder(side, oldPrices, oldLevels, prices, levels, removed);
    }

    /** Writes an executed maker back into the front of the best queue. */
    method ReplaceHead(price: int, maker: Order)
      requires Valid() && prices != [] && price == prices[0] && price in levels && levels[price] != []
      requires maker.price == price && maker.sequence == levels[price][0].sequence
      modifies this`levels
      ensures Valid() && old(Flat()) != [] && Flat() == [maker] + old(Flat())[1..]
    {
      ghost var oldLevels := levels;
      var queue := levels[price];
      levels := levels[price := [maker] + queue[1..]];
      assert QueueOk(price, levels[price]);
      assert price !in prices[1..] by {
        assert forall k :: 0 < k < |prices| ==> BetterPrice(side, prices[0], prices[k]);
      }
      FlattenFrame(prices[1..], oldLevels, levels);
      assert Flatten(prices, oldLevels) == queue + Flatten(prices[1..], oldLevels);
    }
  }

  /** Flattening looks only at the queues of the prices it is given. */
  lemma {:induction false} FlattenFrame(prices: seq<int>, levels: Levels, levels': Levels)
    requires forall p :: p in prices ==> Queue(levels, p) == Queue(levels', p)
    ensures Flatten(prices, levels) == Flatten(prices, levels')
  {
    if prices != [] {
      assert prices[0] in prices;
      assert forall p :: p in prices[1..] ==> p in prices;
      FlattenFrame(prices[1..], levels, levels');
    }
  }

  lemma QueueDiffers(side: Side, prices: seq<int>, levels: Levels, item: Order)
    requires LadderOk(side, prices, levels)
    requires forall o :: o in Flatten(prices, levels) ==> o.sequence != item.sequence
    ensures var queue := Queue(levels, item.price); QueueOk(item.price, queue) && forall k :: 0 <= k < |queue| ==>
              queue[k].sequence != item.sequence
  {
    FlattenMembers(prices, levels);
    var queue := Queue(levels, item.price);
    forall k | 0 <= k < |queue| ensures queue[k].sequence != item.sequence {
      assert queue[k] in queue && queue[k].price == item.price;
    }
  }

  lemma QueueExtended(queue: seq<Order>, at: nat, item: Order)
    requires at <= |queue| && QueueOk(item.price, queue)
    requires forall k :: 0 <= k < at ==> queue[k].sequence < item.sequence
    requires forall k :: at <= k < |queue| ==> item.sequence < queue[k].sequence
    ensures var q := queue[..at] + [item] + queue[at..];
            QueueOk(item.price, q) && q != [] && forall o :: o in q <==> o == item || o in queue
  {
    assert queue == queue[..at] + queue[at..];
  }

  /** A ladder that gained `item` in its queue is the sorted insertion of `item`. */
  lemma InsertedLadder(side: Side, prices: seq<int>, levels: Levels, prices': seq<int>, levels': Levels, item: Order)
    requires LadderOk(side, prices, levels) && LadderOk(side, prices', levels')
    requires item.price in levels'
    requires forall x :: x != item.price ==>
               (x in levels <==> x in levels') && (x in levels ==> levels[x] == levels'[x])
    requires forall o :: o in levels'[item.price] <==> o == item || o in Queue(levels, item.price)
    requires forall o :: o in Flatten(prices, levels) ==> o.sequence != item.sequence
    ensures Flatten(prices', levels') == InsertSorted(side, Flatten(prices, levels), item)
  {
    var flat := Flatten(prices, levels);
    QueueWritten(side, prices, levels, prices', levels', item.price);
    InsertKeepsSorted(side, flat, item);
    InsertMembers(side, flat, item);
    SameMembersSameOrder(side, Flatten(prices', levels'), InsertSorted(side, flat, item));
  }

  lemma QueueShortened(price: int, queue: seq<Order>, idx: nat)
    requires idx < |queue| && QueueOk(price, queue)
    ensures var q := queue[..idx] + queue[idx + 1..];
            QueueOk(price, q) && forall o :: o in q <==> o in queue && o != queue[idx]
  {
    assert queue == queue[..idx] + [queue[idx]] + queue[idx + 1..];
    var q := queue[..idx] + queue[idx + 1..];
    assert forall k :: 0 <= k < |q| ==> q[k].sequence != queue[idx].sequence;
  }

  /** A ladder that lost `o` from its queue is the old one without its id. */
  lemma RemovedLadder(side: Side, prices: seq<int>, levels: Levels, prices': seq<int>, levels': Levels, o: Order)
    requires LadderOk(side, prices, levels) && LadderOk(side, prices', levels')
    requires o.price in levels && o in levels[o.price]
    requires forall x :: x != o.price ==> (x in levels <==> x in levels') && (x in levels ==> levels[x] == levels'[x])
    requires forall x :: x in Queue(levels', o.price) <==> x in levels[o.price] && x != o
    requires UniqueIds(Flatten(prices, levels))
    ensures o in Flatten(prices, levels)
    ensures Flatten(prices', levels') == RemoveId(Flatten(prices, levels), o.id)
  {
    var flat := Flatten(prices, levels);
    QueueWritten(side, prices, levels, prices', levels', o.price);
    RemoveKeepsSorted(side, flat, o.id);
    RemoveMembers(flat, o.id);
    SameMembersSameOrder(side, Flatten(prices', levels'), RemoveId(flat, o.id));
  }

  lemma LadderWritten(side: Side, prices: seq<int>, levels: Levels, prices': seq<int>, price: int, queue: seq<Order>)
    requires LadderOk(side, prices, levels) && PricesSorted(side, prices')
    requires forall p :: p in prices' <==> p == price || p in prices
    requires queue != [] && QueueOk(price, queue)
    ensures LadderOk(side, prices', levels[price := queue])
  {
  }

  lemma LadderDropped(side: Side, prices: seq<int>, levels: Levels, prices': seq<int>, price: int)
    requires LadderOk(side, prices, levels) && PricesSorted(side, prices')
    requires forall p :: p in prices' <==> p != price && p in prices
    ensures LadderOk(side, prices', levels - {price})
  {
  }

  /** The first place in a queue behind every earlier sequence id, by binary search. */
  method SearchQueue(queue: seq<Order>, sequence: nat) returns (at: nat)
    requires sequence > 0 && forall i, j :: 0 <= i < j < |queue| ==> queue[i].sequence < queue[j].sequence
    ensures at <= |queue|
    ensures forall k :: 0 <= k < at ==> queue[k].sequence <= sequence
    ensures forall k :: at <= k < |queue| ==> sequence < queue[k].sequence
  {
    var lo, hi := 0, |queue|;
    while lo < hi
      invariant 0 <= lo <= hi <= |queue|
      invariant forall k :: 0 <= k < lo ==> queue[k].sequence <= sequence
      invariant forall k :: hi <= k < |queue| ==> sequence < queue[k].sequence
    {
      var mid := (lo + hi) / 2;
      if queue[mid].sequence != 0 && queue[mid].sequence > sequence {
        hi := mid;
      } else {
        lo := mid + 1;
      }
    }
    at := lo;
  }
}
