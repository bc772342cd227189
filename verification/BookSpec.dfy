/** The resident limit order book as a value: both sides flattened in priority order.

    `Apply`, `ApplyResult` and `Load` of internal/core/matching/book.go are functions on
    this value here; MarketBook.dfy proves the in-place class against them.
 */
module BookSpec {
  import opened Orders
  import opened Engine
  import opened Priority
  import Decimal

  /** The market a book belongs to. */
  datatype Config = Config(market: string, baseAsset: string, quoteAsset: string)

  datatype View = View(bids: seq<Order>, asks: seq<Order>)
  {
    function On(side: Side): seq<Order> {
      if side.Buy? then bids else asks
    }

    function With(side: Side, q: seq<Order>): View {
      if side.Buy? then this.(bids := q) else this.(asks := q)
    }
  }

  const EMPTY_VIEW := View([], [])

  const MIN_MARKET_PRICE: int := 1

  function Normalize(c: Config, o: Order): Order {
    o.(kind := if o.kind.UnsetKind? then Limit else o.kind,
       timeInForce := if o.timeInForce.UnsetTimeInForce? then GTC else o.timeInForce,
       status := if o.status.UnsetStatus? then Open else o.status,
       market := if o.market == "" then c.market else o.market,
       baseAsset := if o.baseAsset == "" then c.baseAsset else o.baseAsset,
       quoteAsset := if o.quoteAsset == "" then c.quoteAsset else o.quoteAsset)
  }

  function ValidateMarket(c: Config, o: Order): Option<MatchError> {
    if c.market != "" && o.market != c.market then Some(WrongMarket)
    else if c.baseAsset != "" && o.baseAsset != "" && o.baseAsset != c.baseAsset then Some(WrongBaseAsset)
    else if c.quoteAsset != "" && o.quoteAsset != "" && o.quoteAsset != c.quoteAsset then Some(WrongQuoteAsset)
    else None
  }

  function ValidateResting(c: Config, o: Order): Option<MatchError> {
    if ValidateMarket(c, o).Some? then ValidateMarket(c, o)
    else if o.id == "" then Some(MissingOrderId)
    else if o.side.OtherSide? then Some(InvalidSide)
    else if o.kind.Market? then Some(MarketOrderCannotRest)
    else if o.price <= 0 then Some(NonPositivePrice)
    else if o.remaining <= 0 then Some(NonPositiveRemaining)
    else if !IsOpenStatus(o.status) then Some(StatusNotActive)
    else None
  }

  predicate IsBookable(o: Order) {
    !o.kind.Market? && IsOpenStatus(o.status) && o.remaining > 0
  }

  predicate IsImmediateOnly(o: Order) {
    o.kind.Market? || o.timeInForce.IOC?
  }

  /** A market sell without a price limit matches down to the smallest positive price. */
  function EffectiveTaker(o: Order): Order {
    if o.kind.Market? && o.side.Sell? && o.price <= 0 then o.(price := MIN_MARKET_PRICE) else o
  }

  // ---- Well-formed books ----

  /** The sequence ids handed out per order id: never zero, never twice. */
  ghost predicate Issue(issued: map<string, nat>) {
    && (forall a :: a in issued ==> issued[a] > 0)
    && (forall a, b :: a in issued && b in issued && issued[a] == issued[b] ==> a == b)
  }

  predicate Ticketed(issued: map<string, nat>, o: Order) {
    o.id in issued && issued[o.id] == o.sequence
  }

  /** An order as it may rest in the book of `c`. */
  predicate Resting(c: Config, issued: map<string, nat>, o: Order) {
    ValidateResting(c, o).None? && Normalize(c, o) == o && Ticketed(issued, o)
  }

  predicate Has(v: View, o: Order) {
    o in v.bids || o in v.asks
  }

  ghost predicate HasId(v: View, id: string) {
    exists o :: Has(v, o) && o.id == id
  }

  ghost function Members(v: View): set<Order> {
    (set o | o in v.bids) + (set o | o in v.asks)
  }

  ghost predicate SideOk(c: Config, issued: map<string, nat>, side: Side, q: seq<Order>) {
    Sorted(side, q) && forall o :: o in q ==> Resting(c, issued, o) && o.side == side
  }

  /** The invariant of every reachable book. */
  ghost predicate WF(c: Config, issued: map<string, nat>, v: View) {
    && c.market != ""
    && Issue(issued)
    && SideOk(c, issued, Buy, v.bids)
    && SideOk(c, issued, Sell, v.asks)
    && (forall a, b :: Has(v, a) && Has(v, b) && a.id == b.id ==> a == b)
  }

  predicate Uncrossed(v: View) {
    v.bids != [] && v.asks != [] ==> v.bids[0].price < v.asks[0].price
  }

  // ---- Operations ----

  datatype Swept =
    | Swept(result: MatchResult, rest: seq<Order>, selfTrade: bool)
    | SweepFailed(error: MatchError, rest: seq<Order>)

  /** The best maker trades with the taker of `r`. */
  predicate Trades(r: MatchResult, q: seq<Order>) {
    && r.taker.remaining > 0 && q != []
    && EligibleMaker(EffectiveTaker(r.taker), q[0])
    && Decimal.Mul(FillQuantity(r.taker, q[0]), q[0].price) > 0
  }

  /** The best maker after its execution. */
  function HitMaker(r: MatchResult, q: seq<Order>, now: int): Order
    requires q != []
  {
    Executed(q[0], FillQuantity(r.taker, q[0]), now)
  }

  /** The side a hit leaves behind: the maker goes when it is filled and stays in front otherwise. */
  function AfterHit(q: seq<Order>, maker: Order): seq<Order>
    requires q != []
  {
    if maker.status.Filled? then q[1..] else [maker] + q[1..]
  }

  /** How matching ends when the best maker does not trade. */
  function Stopped(r: MatchResult, q: seq<Order>, now: int): Swept {
    if r.taker.remaining <= 0 || q == [] then Swept(r, q, false)
    else
      var taker := EffectiveTaker(r.taker);
      if EligibleMaker(taker, q[0]) then SweepFailed(QuoteBelowPrecision, q)
      else if IsSelfTrade(taker, q[0]) && CrossesPrice(taker, q[0]) then Swept(Expire(r, now), q, true)
      else Swept(r, q, false)
  }

  /** The matching loop of `Apply` over the opposite side in priority order. */
  function Sweep(r: MatchResult, q: seq<Order>, ids: TradeIds, now: int): Swept
    decreases |q|, r.taker.remaining
  {
    if Trades(r, q) then Sweep(Execute(r, q[0], ids, now), AfterHit(q, HitMaker(r, q, now)), ids, now)
    else Stopped(r, q, now)
  }

  datatype Applied = Applied(view: View, outcome: Outcome<MatchResult>)

  /** The taker as `Apply` starts to match it. */
  function Prepared(c: Config, taker: Order): Order {
    var t := Normalize(c, taker);
    if t.kind.Market? then t.(timeInForce := IOC) else t
  }

  /** Why `Apply` refuses a taker before it touches the book. */
  ghost function Refusal(c: Config, v: View, taker: Order): Option<MatchError> {
    var t := Normalize(c, taker);
    if HasId(v, t.id) then Some(AlreadyActive)
    else if ValidateTaker(EffectiveTaker(t)).Some? then ValidateTaker(EffectiveTaker(t))
    else ValidateMarket(c, t)
  }

  /** The result `Apply` returns once matching has stopped; a self-trade has already expired the taker. */
  function Finish(r: MatchResult, selfTrade: bool, now: int): MatchResult {
    var s :=
      if selfTrade then r.taker.status
      else if r.taker.remaining <= 0 then Filled
      else if IsImmediateOnly(r.taker) then Expired
      else if r.trades == [] then Open
      else PartiallyFilled;
    r.(taker := r.taker.(status := s, updatedAt := now))
  }

  /** The taker rests if it is still bookable; an expired or filled one leaves no trace. */
  function Book(v: View, o: Order): View {
    if IsBookable(o) then v.With(o.side, InsertSorted(o.side, v.On(o.side), o)) else v
  }

  /** Everything `Apply` does to an accepted taker. */
  function MatchAndBook(v: View, t: Order, ids: TradeIds, now: int): Applied {
    var side := Opposite(t.side);
    match Sweep(MatchResult(t, [], []), v.On(side), ids, now)
    case SweepFailed(e, rest) => Applied(v.With(side, rest), Failed(e))
    case Swept(r, rest, selfTrade) =>
      var done := Finish(r, selfTrade, now);
      Applied(Book(v.With(side, rest), done.taker), Done(done))
  }

  ghost function ApplySpec(c: Config, v: View, taker: Order, ids: TradeIds, now: int): Applied {
    match Refusal(c, v, taker)
    case Some(e) => Applied(v, Failed(e))
    case None => MatchAndBook(v, Prepared(c, taker), ids, now)
  }

  function Without(v: View, id: string): View {
    View(RemoveId(v.bids, id), RemoveId(v.asks, id))
  }

  datatype Inserted = Inserted(view: View, error: Option<MatchError>)

  ghost function InsertSpec(c: Config, v: View, item: Order): Inserted {
    var o := Normalize(c, item);
    if ValidateResting(c, o).Some? then Inserted(v, ValidateResting(c, o))
    else if HasId(v, o.id) then Inserted(v, Some(AlreadyActive))
    else Inserted(v.With(o.side, InsertSorted(o.side, v.On(o.side), o)), None)
  }

  /** `ApplyResult` on one logged order: remove it, then book it again if it still rests. */
  ghost function ReplayOrder(c: Config, v: View, item: Order): Inserted {
    if IsBookable(Normalize(c, item)) then InsertSpec(c, Without(v, item.id), item)
    else Inserted(Without(v, item.id), None)
  }

  ghost function ReplayOrders(c: Config, v: View, items: seq<Order>): Inserted
    decreases |items|
  {
    if items == [] then Inserted(v, None)
    else
      var first := ReplayOrder(c, v, items[0]);
      if first.error.Some? then first else ReplayOrders(c, first.view, items[1..])
  }

  /** The orders a logged result writes, makers before the taker. */
  function Touched(r: MatchResult): seq<Order> {
    r.makers + if r.taker.id != "" then [r.taker] else []
  }

  ghost function ReplaySpec(c: Config, v: View, r: MatchResult): Inserted {
    ReplayOrders(c, v, Touched(r))
  }

  /** `Load` on one order. */
  ghost function LoadOrder(c: Config, v: View, item: Order): Inserted {
    if IsBookable(Normalize(c, item)) then InsertSpec(c, v, item) else Inserted(v, None)
  }

  ghost function LoadSpec(c: Config, v: View, items: seq<Order>): Inserted
    decreases |items|
  {
    if items == [] then Inserted(v, None)
    else
      var first := LoadOrder(c, v, items[0]);
      if first.error.Some? then first else LoadSpec(c, first.view, items[1..])
  }

  // ---- What an operation does to the set of active orders ----

  /** Writing one order into a set of active orders. */
  ghost function Sync(s: set<Order>, o: Order): set<Order> {
    (set x | x in s && x.id != o.id) + if IsBookable(o) then {o} else {}
  }

  ghost function SyncAll(s: set<Order>, items: seq<Order>): set<Order>
    decreases |items|
  {
    if items == [] then s else SyncAll(Sync(s, items[0]), items[1..])
  }

  // ---- Lemmas ----

  /** The book is a canonical form of its active orders. */
  lemma CanonicalView(c: Config, issued: map<string, nat>, v: View, w: View)
    requires WF(c, issued, v) && WF(c, issued, w)
    requires Members(v) == Members(w)
    ensures v == w
  {
    forall x ensures (x in v.bids <==> x in w.bids) && (x in v.asks <==> x in w.asks) {
      assert x in Members(v) <==> x in Members(w);
      assert Has(v, x) <==> Has(w, x);
    }
    SameMembersSameOrder(Buy, v.bids, w.bids);
    SameMembersSameOrder(Sell, v.asks, w.asks);
  }

  /** Booking a valid order nobody else's id clashes with keeps the book well formed. */
  lemma InsertKeepsWF(c: Config, issued: map<string, nat>, v: View, o: Order)
    requires WF(c, issued, v) && Resting(c, issued, o) && !HasId(v, o.id)
    ensures var w := v.With(o.side, InsertSorted(o.side, v.On(o.side), o));
            WF(c, issued, w) && Members(w) == Members(v) + {o}
  {
    var q := v.On(o.side);
    var w := v.With(o.side, InsertSorted(o.side, q, o));
    InsertMembers(o.side, q, o);
    assert forall x :: x in q ==> Has(v, x);
    InsertKeepsSorted(o.side, q, o);
    assert SideOk(c, issued, o.side, w.On(o.side));
    forall x ensures Has(w, x) <==> Has(v, x) || x == o {
      assert x in w.On(o.side) <==> x == o || x in q;
    }
    assert forall x :: x in Members(w) <==> x in Members(v) + {o};
  }

  lemma RemoveKeepsWF(c: Config, issued: map<string, nat>, v: View, id: string)
    requires WF(c, issued, v)
    ensures WF(c, issued, Without(v, id)) && !HasId(Without(v, id), id)
    ensures Members(Without(v, id)) == set x | x in Members(v) && x.id != id
  {
    RemoveMembers(v.bids, id);
    RemoveMembers(v.asks, id);
    RemoveKeepsSorted(Buy, v.bids, id);
    RemoveKeepsSorted(Sell, v.asks, id);
    assert forall x :: Has(Without(v, id), x) <==> Has(v, x) && x.id != id;
  }

  /** Replaying a normalised, ticketed order has exactly the effect of writing it into the active set. */
  lemma ReplayOrderEffect(c: Config, issued: map<string, nat>, v: View, o: Order)
    requires WF(c, issued, v)
    requires Normalize(c, o) == o && (IsBookable(o) ==> Resting(c, issued, o))
    ensures ReplayOrder(c, v, o).error.None?
    ensures WF(c, issued, ReplayOrder(c, v, o).view)
    ensures Members(ReplayOrder(c, v, o).view) == Sync(Members(v), o)
  {
    RemoveKeepsWF(c, issued, v, o.id);
    if IsBookable(o) {
      InsertKeepsWF(c, issued, Without(v, o.id), o);
    }
  }

  lemma {:induction false} ReplayOrdersEffect(c: Config, issued: map<string, nat>, v: View, items: seq<Order>)
    requires WF(c, issued, v)
    requires forall o :: o in items ==> Normalize(c, o) == o && (IsBookable(o) ==> Resting(c, issued, o))
    ensures ReplayOrders(c, v, items).error.None?
    ensures WF(c, issued, ReplayOrders(c, v, items).view)
    ensures Members(ReplayOrders(c, v, items).view) == SyncAll(Members(v), items)
    decreases |items|
  {
    if items != [] {
      assert items[0] in items;
      assert forall o :: o in items[1..] ==> o in items;
      ReplayOrderEffect(c, issued, v, items[0]);
      ReplayOrdersEffect(c, issued, ReplayOrder(c, v, items[0]).view, items[1..]);
    }
  }

  /** Dropping the best order of a side. */
  lemma HeadDropped(c: Config, issued: map<string, nat>, v: View, side: Side)
    requires WF(c, issued, v) && !side.OtherSide? && v.On(side) != []
    ensures var q := v.On(side); var w := v.With(side, q[1..]);
            && WF(c, issued, w) && !HasId(w, q[0].id)
            && Members(w) == set x | x in Members(v) && x.id != q[0].id
  {
    var q := v.On(side);
    var w := v.With(side, q[1..]);
    assert q == [q[0]] + q[1..];
    forall x ensures Has(w, x) <==> Has(v, x) && x.id != q[0].id {
      assert x in q <==> x == q[0] || x in q[1..];
      assert Has(v, q[0]);
      if x in q[1..] {
        assert Before(side, q[0], x);
      }
    }
    assert Sorted(side, q[1..]);
  }

  /** Replacing the best order of a side by an update that keeps its id and its place. */
  lemma HeadReplaced(c: Config, issued: map<string, nat>, v: View, side: Side, m: Order)
    requires WF(c, issued, v) && !side.OtherSide? && v.On(side) != []
    requires Resting(c, issued, m) && m.side == side && m.id == v.On(side)[0].id && m.price == v.On(side)[0].price
    ensures var q := v.On(side); var w := v.With(side, [m] + q[1..]);
            && WF(c, issued, w)
            && Members(w) == Sync(Members(v), m)
  {
    var q := v.On(side);
    assert Has(v, q[0]);
    HeadDropped(c, issued, v, side);
    var u := v.With(side, q[1..]);
    InsertKeepsWF(c, issued, u, m);
    assert q[1..] != [] ==> Before(side, q[0], q[1]);
    assert InsertSorted(side, u.On(side), m) == [m] + q[1..];
    assert u.With(side, [m] + q[1..]) == v.With(side, [m] + q[1..]);
  }

  /** Writing an executed best maker back keeps the book well formed. */
  lemma ExecutedMaker(c: Config, issued: map<string, nat>, v: View, side: Side, qty: int, now: int)
    requires WF(c, issued, v) && !side.OtherSide? && v.On(side) != []
    requires 0 < qty <= v.On(side)[0].remaining
    ensures var maker := Executed(v.On(side)[0], qty, now);
            var w := v.With(side, AfterHit(v.On(side), maker));
            && WF(c, issued, w) && Members(w) == Sync(Members(v), maker)
            && Normalize(c, maker) == maker && (IsBookable(maker) ==> Resting(c, issued, maker))
  {
    var q := v.On(side);
    var maker := Executed(q[0], qty, now);
    assert Resting(c, issued, q[0]);
    if maker.status.Filled? {
      HeadDropped(c, issued, v, side);
    } else {
      HeadReplaced(c, issued, v, side, maker);
    }
  }

  lemma BookEffect(c: Config, issued: map<string, nat>, v: View, o: Order)
    requires WF(c, issued, v) && !HasId(v, o.id) && (IsBookable(o) ==> Resting(c, issued, o))
    ensures WF(c, issued, Book(v, o)) && Members(Book(v, o)) == Sync(Members(v), o)
  {
    assert forall x :: x in Members(v) ==> Has(v, x);
    if IsBookable(o) {
      InsertKeepsWF(c, issued, v, o);
    }
  }
}
